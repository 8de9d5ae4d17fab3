# Doctor's appointments: a verified model of the scheduling core

This project models the scheduling core of a doctor's-appointment service in
Dafny. The service keeps **events** (appointments with a title, an optional
description and a start and end time) and **attendees** (a name, an email,
an attendance status and the event they belong to). It refuses to book a slot
that overlaps an existing event. It tells attendees by notification when they
are invited, when an event is rescheduled or its details change, and when an
event or their place in it is cancelled.

The model has the source's layers:

- `Entities`: the two records, `IsValid`, the truncated `DurationMinutes`,
  the `AttendanceStatus` enum with its numeric codes and stored names, and the
  declared field bounds.
- `Store`: the database as a class `Database` with one map per table, fresh
  identifiers, the foreign key from attendee to event, and cascading delete.
  Queries see a table's rows in primary-key order (`Rows`).
- `Linq`, `EventRepository`, `AttendeeRepository`: the queries as pure
  functions over those rows. This covers the half-open availability test with
  self-exclusion, the boundary-inclusive date-range filter, case-sensitive
  search on title or description, ordering by start time, and loading an
  event with its attendees.
- `Notifications`: the notification service as an append-only log of
  `(eventId, attendeeId, reason)`.
- `EventLifecycle`, `AttendeeLifecycle`: the two services as classes over one
  store and one log. Their methods state the whole new state, every error
  outcome, and the notifications sent. They are proved to keep the schedule
  free of overlaps.
- `EmailText`: the subject line and HTML body chosen for each notification
  reason.
- `Paging`: the page arithmetic of a paginated listing.
- `Scenarios`: one morning at the practice, driven through both services.
  It books a checkup, refuses an overlapping booking, accepts an adjacent one,
  invites an attendee, reschedules the checkup and deletes it.

Times are `DateTime` ticks in UTC (100 ns units, 600 000 000 per minute).
The services' exceptions are the `Err` cases of a `Result`:
`ArgumentException` on an invalid event is `InvalidEvent`,
`InvalidOperationException` on a taken slot is `SlotUnavailable`, and the
missing event of an attendee is `UnknownEvent(id)`. A null result is `None`,
and a `false` result is `false`.

Two places where the code does less than its names suggest:

- The service's `GetAllEventsAsync` delegates to the generic `GetAllAsync`,
  not to the repository's sorted `GetAllEventsAsync`. So `GetAllEvents` on the
  service promises no order.
- An update whose title, description and times are all unchanged still sends
  `UpdatedDetails` to every attendee. The `detailsChanged` flag is computed but
  never used.

## Model

| member | source | states |
|---|---|---|
| Entities.Event.IsValid | source/DoctorsAppointments.Domain/Entities/Event.cs:24-27 | an event is valid exactly when its end is strictly after its start; equal times are invalid |
| Entities.Event.WithinBounds | source/DoctorsAppointments.Domain/Entities/Event.cs:9-14 | the declared bounds: a required, non-blank title of at most 200 characters and an optional description of at most 2000 |
| Entities.Attendee.WithinBounds | source/DoctorsAppointments.Domain/Entities/Attendee.cs:9-16 | the declared bounds: a required, non-blank name of at most 100 characters and a required, non-blank email of at most 256 |
| Entities.Event.DurationMinutes | source/DoctorsAppointments.Domain/Entities/Event.cs:24-29 | the elapsed time in whole minutes, truncated toward zero: m minutes fit into the interval and m + 1 do not; non-negative for a valid event |
| Entities.TruncatedQuotient | source/DoctorsAppointments.Domain/Entities/Event.cs:29 | the `(int)` cast of a quotient rounds toward zero: for a ≥ 0, q·b ≤ a < (q+1)·b; for a < 0, (q−1)·b < a ≤ q·b |
| Entities.HalfHourLastsThirtyMinutes | source/DoctorsAppointments.Domain/Entities/Event.cs:29 | an event from t to t + 30 minutes lasts exactly 30 minutes |
| Entities.NewEvent | source/DoctorsAppointments.Domain/Entities/Event.cs:9-27 | a fresh event has an empty title, no description and no attendees; it is neither valid nor within its declared bounds |
| Entities.NewAttendee | source/DoctorsAppointments.Domain/Entities/Attendee.cs:9-18 | a fresh attendee has status NotResponded (code 0) and an empty name and email, so it is not within its declared bounds |
| Entities.AttendanceStatus.Code | source/DoctorsAppointments.Domain/Entities/Attendee.cs:25-31 | the four statuses carry the codes 0, 1, 2 and 3 |
| Entities.StatusFromCode | source/DoctorsAppointments.Domain/Entities/Attendee.cs:25-31 | a code names a status exactly when it is in 0..3 |
| Entities.StatusCodeRoundTrip | source/DoctorsAppointments.Domain/Entities/Attendee.cs:25-31 | code and status convert into each other without loss in both directions |
| Entities.StatusName | source/DoctorsAppointments.Data/AppDbContext.cs:38 | the status column holds the enum member's name |
| Entities.StatusNamesAreDistinct | source/DoctorsAppointments.Data/AppDbContext.cs:38 | two statuses are stored as the same text exactly when they are the same status |
| Text.IsNullOrWhiteSpace | source/DoctorsAppointments.Data/Repositories/EventRepository.cs:42 | `string.IsNullOrWhiteSpace`: the term is null, or every character of it is .NET white space (the empty string included) |
| Text.Contains | source/DoctorsAppointments.Data/Repositories/EventRepository.cs:46-47 | ordinal `string.Contains`: true exactly when the term occurs at some position of the text |
| Text.ContainsAfterPrefix | source/DoctorsAppointments.Infrastructure/Notifications/EmailNotificationService.cs:56-60 | a text built as prefix + t + suffix contains t |
| Linq.Where | source/DoctorsAppointments.Data/Repositories/EventRepository.cs:45-47 | LINQ `Where` keeps exactly the elements satisfying the predicate, each as often as it occurs in the input |
| AttendeeRepository.GetAttendeesByEventId | source/DoctorsAppointments.Data/Repositories/AttendeeRepository.cs:13-18 | exactly the attendees of the given event, with their multiplicities; empty when none match |
| AttendeeRepository.AttendeesWithEmail | source/DoctorsAppointments.Data/Repositories/AttendeeRepository.cs:22-23 | exactly the attendees whose email equals the argument, each as often as it occurs |
| AttendeeRepository.GetEventsByAttendeeEmail | source/DoctorsAppointments.Data/Repositories/AttendeeRepository.cs:20-27 | the i-th result is the owning event of the i-th attendee with that exact email, so there is one entry per such attendee, duplicates included |
| AttendeeRepository.WithStatus | source/DoctorsAppointments.Data/Repositories/AttendeeRepository.cs:29-38 | the same keys; the named attendee, if present, gets the new status and keeps its other fields; every other attendee is unchanged |
| AttendeeRepository.WithStatusIsIdempotent | source/DoctorsAppointments.Data/Repositories/AttendeeRepository.cs:35-37 | applying the same status twice leaves the table as applying it once |
| EventRepository.Conflicts | source/DoctorsAppointments.Data/Repositories/EventRepository.cs:55 | an event blocks the half-open slot [start, end) exactly when it starts before the slot's end and ends after its start |
| EventRepository.OverlapIsSymmetric | source/DoctorsAppointments.Data/Repositories/EventRepository.cs:55 | the overlap test does not depend on argument order, and an event overlaps itself exactly when it is valid |
| EventRepository.AdjacentEventsDoNotOverlap | source/DoctorsAppointments.Data/Repositories/EventRepository.cs:55 | an event ending when another starts overlaps it in neither order |
| EventRepository.IsTimeSlotAvailable | source/DoctorsAppointments.Data/Repositories/EventRepository.cs:52-63 | the slot is available exactly when no event other than the excluded one starts before its end and ends after its start |
| EventRepository.ExclusionIgnoresOwnRow | source/DoctorsAppointments.Data/Repositories/EventRepository.cs:57-60 | testing with an excluded id gives the same answer as testing the table without that event's rows |
| EventRepository.InsertByStart | source/DoctorsAppointments.Data/Repositories/EventRepository.cs:18 | inserting into a list sorted by start time keeps it sorted and adds exactly the new element |
| EventRepository.SortedCons | source/DoctorsAppointments.Data/Repositories/EventRepository.cs:18 | an event starting no later than every element of a sorted list can be put in front of it |
| EventRepository.OrderByStart | source/DoctorsAppointments.Data/Repositories/EventRepository.cs:18 | `OrderBy(StartTime)`: the result is sorted by start time and a permutation of the input |
| EventRepository.IncludeAttendees | source/DoctorsAppointments.Data/Repositories/EventRepository.cs:17 | `Include(Attendees)`: the same events in the same order, each with exactly its own attendees |
| EventRepository.GetAllEvents | source/DoctorsAppointments.Data/Repositories/EventRepository.cs:14-20 | every event with its attendees, sorted by start time, as a permutation of the table |
| EventRepository.GetEventWithAttendees | source/DoctorsAppointments.Data/Repositories/EventRepository.cs:33-38 | the stored event with that id with its attendees, or None exactly when no event has that id |
| EventRepository.InDateRange | source/DoctorsAppointments.Data/Repositories/EventRepository.cs:26-28 | the range filter: the event starts in [start, end], ends in it, or encloses it, all bounds inclusive |
| EventRepository.DateRangeIsClosedOverlap | source/DoctorsAppointments.Data/Repositories/EventRepository.cs:26-28 | for a valid event and range the filter is the closed-interval overlap test; it admits every conflicting event and every event that touches a boundary |
| EventRepository.GetEventsByDateRange | source/DoctorsAppointments.Data/Repositories/EventRepository.cs:22-31 | exactly the events in range, with their multiplicities and attendees, sorted by start time |
| EventRepository.MatchesTerm | source/DoctorsAppointments.Data/Repositories/EventRepository.cs:46-47 | the search filter: the title contains the term, or the description is present and contains it, case-sensitively |
| EventRepository.SearchEvents | source/DoctorsAppointments.Data/Repositories/EventRepository.cs:40-50 | a null or blank term returns the table unchanged; any other term returns exactly the events whose title or non-null description contains it, sorted by start time |
| Store.Rows | source/DoctorsAppointments.Data/Repositories/EventRepository.cs:14-20 | a table's rows: every stored value, and nothing else |
| Store.RowsCount | source/DoctorsAppointments.Application/Services/EventService.cs:21-24 | a table's rows hold exactly one entry per stored key |
| Store.FilteredRowsCount | source/DoctorsAppointments.Data/Repositories/AttendeeRepository.cs:15-17 | a `Where` over a table's rows keeps exactly one row per stored key whose row satisfies the predicate |
| Store.Wellformed | source/DoctorsAppointments.Data/AppDbContext.cs:21-35 | the keys and foreign key of the two tables: positive ids below the next fresh one, each row stored under its own id, and every attendee's event stored (the `EventId` foreign key of Attendee.cs:20-22) |
| Store.Database.Valid | source/DoctorsAppointments.Data/AppDbContext.cs:21-35 | the database's fields satisfy `Wellformed`; every `Database` method and both services keep it |
| Store.Enrol | source/DoctorsAppointments.Application/Services/EventService.cs:61-62 | inline attendees saved with a new event get consecutive fresh ids and that event's id, and nothing else changes |
| Store.Keyed | source/DoctorsAppointments.Application/Services/EventService.cs:61-62 | the saved attendees as a table keyed by their ids |
| Store.WithoutEvent | source/DoctorsAppointments.Data/AppDbContext.cs:27-30 | cascade delete: exactly the attendees of other events remain, unchanged |
| Store.Database.AddEvent | source/DoctorsAppointments.Application/Services/EventService.cs:61-62 | the event is stored under the next fresh id and its inline attendees under the following ones; the store stays well formed |
| Store.Database.ReplaceEvent | source/DoctorsAppointments.Application/Services/EventService.cs:108-109 | the event row is overwritten and nothing else changes |
| Store.Database.RemoveEvent | source/DoctorsAppointments.Data/AppDbContext.cs:27-30 | the event and, by cascade, its attendees are deleted; the foreign key still holds |
| Store.Database.AddAttendee | source/DoctorsAppointments.Application/Services/AttendeeService.cs:57-58 | the attendee is stored under the next fresh id and nothing else changes |
| Store.Database.RemoveAttendee | source/DoctorsAppointments.Application/Services/AttendeeService.cs:77-78 | only that attendee's row is deleted |
| Store.Database.UpdateAttendanceStatus | source/DoctorsAppointments.Data/Repositories/AttendeeRepository.cs:29-38 | false with no change when the id is absent; otherwise true and only that attendee's status changes |
| Notifications.NotifyAll | source/DoctorsAppointments.Application/Services/EventService.cs:66-70 | one notification per recipient |
| Notifications.NotifyAllAppend | source/DoctorsAppointments.Application/Services/EventService.cs:66-70 | notifying two groups in turn is notifying their concatenation |
| Notifications.NotifyAllAt | source/DoctorsAppointments.Application/Services/EventService.cs:66-70 | the i-th notification goes to the i-th recipient, with the same event and reason |
| Notifications.Outbox.Send | source/DoctorsAppointments.Domain/Services/INotificationService.cs:17 | a send appends exactly one record of event, attendee and reason |
| EventLifecycle.LookupStoredEvent | source/DoctorsAppointments.Data/Repositories/EventRepository.cs:33-38 | over a well-formed store, the query finds an event exactly when its id is a key, and returns that row with its attendees |
| EventLifecycle.AvailabilityOverTable | source/DoctorsAppointments.Data/Repositories/EventRepository.cs:52-63 | the query over the rows is availability over the whole table |
| EventLifecycle.BookingKeepsNonOverlapping | source/DoctorsAppointments.Application/Services/EventService.cs:53-61 | storing an event whose slot is free of every other event keeps the stored events pairwise non-overlapping |
| EventLifecycle.StoringValidKeepsAllValid | source/DoctorsAppointments.Application/Services/EventService.cs:48-61 | storing a valid event keeps every stored event valid |
| EventLifecycle.OwnSlotIsAvailable | source/DoctorsAppointments.Application/Services/EventService.cs:89-90 | in a non-overlapping schedule, a stored event's own unchanged interval is always available to it |
| EventLifecycle.EventService.NotifyEach | source/DoctorsAppointments.Application/Services/EventService.cs:120-124 | the loop logs one notification per recipient, in collection order |
| EventLifecycle.EventService.CreateEvent | source/DoctorsAppointments.Application/Services/EventService.cs:46-74 | succeeds exactly when the event is valid and its slot is free. Otherwise it fails with InvalidEvent, or SlotUnavailable for a valid event, and nothing changes. On success the event and its attendees get fresh ids, one Invitation goes to each attendee in order, and the schedule stays non-overlapping |
| EventLifecycle.EventService.UpdateEvent | source/DoctorsAppointments.Application/Services/EventService.cs:76-128 | InvalidEvent before anything else; None exactly for a valid event with an unknown id; SlotUnavailable when another event overlaps. On success only title, description and times change, and each attendee is sent Rescheduled when a time changed and UpdatedDetails otherwise. The schedule stays non-overlapping |
| EventLifecycle.EventService.DeleteEvent | source/DoctorsAppointments.Application/Services/EventService.cs:130-150 | false with no change for an unknown id; otherwise the event and its attendees are deleted and each former attendee gets one Cancellation |
| EventLifecycle.EventService.IsTimeSlotAvailable | source/DoctorsAppointments.Application/Services/EventService.cs:152-155 | the repository's answer, which is true exactly when no stored event other than the excluded one conflicts |
| EventLifecycle.EventService.GetEventWithAttendees | source/DoctorsAppointments.Application/Services/EventService.cs:31-34 | the stored event with its attendees, or None exactly when the id is absent |
| EventLifecycle.EventService.GetEventById | source/DoctorsAppointments.Application/Services/EventService.cs:26-29 | the stored row, or None exactly when the id is absent |
| EventLifecycle.EventService.GetAllEvents | source/DoctorsAppointments.Application/Services/EventService.cs:21-24 | every stored event and nothing else, each once: as many results as stored events |
| EventLifecycle.EventService.GetEventsByDateRange | source/DoctorsAppointments.Application/Services/EventService.cs:36-39 | the repository's date-range query over the stored rows |
| EventLifecycle.EventService.SearchEvents | source/DoctorsAppointments.Application/Services/EventService.cs:41-44 | the repository's search over the stored rows |
| AttendeeLifecycle.AttendeeService.AddAttendeeToEvent | source/DoctorsAppointments.Application/Services/AttendeeService.cs:47-64 | fails with UnknownEvent exactly when the event is not stored, and then nothing changes; otherwise the attendee is stored under a fresh id and gets exactly one Invitation |
| AttendeeLifecycle.AttendeeService.RemoveAttendeeFromEvent | source/DoctorsAppointments.Application/Services/AttendeeService.cs:66-87 | false with no change for an unknown id; otherwise only that attendee is deleted, with a Cancellation exactly when its event is found |
| AttendeeLifecycle.AttendeeService.UpdateAttendanceStatus | source/DoctorsAppointments.Application/Services/AttendeeService.cs:89-92 | the repository's status update, with no notification |
| AttendeeLifecycle.AttendeeService.GetAttendeesByEventId | source/DoctorsAppointments.Application/Services/AttendeeService.cs:37-40 | exactly the stored attendees of that event, one entry per such attendee; empty for an unknown event, with no error |
| AttendeeLifecycle.EmailMatchesCount | source/DoctorsAppointments.Data/Repositories/AttendeeRepository.cs:22-23 | over the stored rows, the email filter keeps one row per stored attendee with that email |
| AttendeeLifecycle.EventMatchesCount | source/DoctorsAppointments.Data/Repositories/AttendeeRepository.cs:15-17 | over the stored rows, the event filter keeps one row per stored attendee of that event |
| AttendeeLifecycle.AttendeeService.GetEventsByAttendeeEmail | source/DoctorsAppointments.Application/Services/AttendeeService.cs:42-45 | the repository's answer over the stored rows: one owning event per stored attendee with that email, so as many results as such attendees; empty when none match |
| AttendeeLifecycle.AttendeeService.GetAllAttendees | source/DoctorsAppointments.Application/Services/AttendeeService.cs:27-30 | every stored attendee and nothing else, each once: as many results as stored attendees |
| AttendeeLifecycle.AttendeeService.GetAttendeeById | source/DoctorsAppointments.Application/Services/AttendeeService.cs:32-35 | the stored row, or None exactly when the id is absent |
| EmailText.Subject | source/DoctorsAppointments.Infrastructure/Notifications/EmailNotificationService.cs:52-63 | `GetSubject`: the subject template of each of the five reasons, with the title filled in |
| EmailText.MainContent | source/DoctorsAppointments.Infrastructure/Notifications/EmailNotificationService.cs:75-93 | the fixed sentence the body carries for each of the five reasons |
| EmailText.EmailBody | source/DoctorsAppointments.Infrastructure/Notifications/EmailNotificationService.cs:65-98 | `GetEmailBody`: greeting, event details, the reason's sentence and the footer, concatenated in that order |
| EmailText.SubjectMentionsTitle | source/DoctorsAppointments.Infrastructure/Notifications/EmailNotificationService.cs:52-63 | every subject contains the event title |
| EmailText.SubjectsAreDistinct | source/DoctorsAppointments.Infrastructure/Notifications/EmailNotificationService.cs:56-60 | for one title, different reasons give different subjects |
| EmailText.MainContentLength | source/DoctorsAppointments.Infrastructure/Notifications/EmailNotificationService.cs:75-93 | proof aid for `MainContentsAreDistinct`, not a promise of the program: the character count of each reason's fixed sentence |
| EmailText.MainContentsAreDistinct | source/DoctorsAppointments.Infrastructure/Notifications/EmailNotificationService.cs:75-93 | the five reasons select five different sentences |
| EmailText.BodyLayout | source/DoctorsAppointments.Infrastructure/Notifications/EmailNotificationService.cs:65-98 | the body starts with the greeting, has the reason's sentence right after the event details, and ends with the footer |
| EmailText.BodyDeterminesReason | source/DoctorsAppointments.Infrastructure/Notifications/EmailNotificationService.cs:75-97 | with everything else equal, equal bodies mean equal reasons |
| Paging.PageResult.HasPreviousPage | source/DoctorsAppointments.Api/Models/PageResult.cs:14 | there is a previous page exactly when the page number is above 1; the source's expression, with no further contract |
| Paging.PageResult.HasNextPage | source/DoctorsAppointments.Api/Models/PageResult.cs:15 | there is a next page exactly when the page number is below the page count; its meaning in terms of results is `HasNextPageIffMoreResults` |
| Paging.CeilingDivision | source/DoctorsAppointments.Api/Models/PageResult.cs:23 | the least q with a ≤ q·b |
| Paging.NewPageResult | source/DoctorsAppointments.Api/Models/PageResult.cs:17-24 | the four inputs are kept unchanged, and the page count is the ceiling of totalCount / pageSize for either sign of pageSize; for a non-negative count it is negative exactly when pageSize is negative and the count is at least its magnitude |
| Paging.HasNextPageIffMoreResults | source/DoctorsAppointments.Api/Models/PageResult.cs:15-23 | for a positive pageSize, there is a next page exactly when some results lie beyond the current page; for a negative one the comparison is reversed |
| Paging.EmptyListingHasNoPages | source/DoctorsAppointments.Api/Models/PageResult.cs:15-23 | an empty listing has zero pages and no next page from any page number ≥ 0 |

## Left out

- HTTP controllers and DTOs: routing, status codes, DTO mapping and logging. Their end-after-start and slot checks repeat the services'. The paging slice is taken in a controller, so only `PageResult`'s arithmetic is modelled.
- Field bounds are not enforced by the model's store or services. In the source they are enforced only by the DTO annotations and the database column limits, neither of which is modelled. `Entities.Event.WithinBounds` and `Entities.Attendee.WithinBounds` state the bounds, and the store accepts rows that break them.
- Entities.StatusName: reading the status column back is done by EF Core's string-to-enum converter, which is not part of this model. The model states only how a status is written and that the four written names differ.
- The controller's update path changes the tracked entity before calling the service. The model compares a separate incoming value with the stored one, as the service is written.
- The generic `Repository<T>` and EF Core: each Add, Update or Remove with its SaveChanges is one atomic map update. Ids are allocated from a counter starting at 1. Inline attendees of a new event get ids in collection order.
- Result order of a query without `ORDER BY` is unspecified in SQL. The model returns rows in primary-key order.
- Async execution and concurrency: operations are sequential steps. The check-then-act race between the availability test and the insert is not modelled.
- Email sending, logging and `SendEmailAsync`. The notification service is a log of (event, attendee, reason) records.
- Culture-dependent `DateTime.ToString` formatting in the email body: the formatted start and end times are parameters of `EmailText.EmailBody`.
- The `_` fall-back cases of `GetSubject` and `GetEmailBody`, and status codes outside the enum. The model's enums have only their declared values.
- `[EmailAddress]` syntax checking (a library regular expression). `Attendee.WithinBounds` checks only presence and length.
- The model counts Unicode scalar values (Dafny `char`) in string lengths, where .NET counts UTF-16 code units.
- `DateTimeConverter` (time-zone conversion): times are already UTC ticks.
- Startup wiring, dependency injection and the random test-data seeder.
- Entities.Event.DurationMinutes: the `double` rounding of `TotalMinutes` and the overflow of the `int` cast for intervals over about 4000 years are not modelled, because the truncation is exact for every realistic interval.
- Paging.NewPageResult: requires pageSize ≠ 0. In the source a pageSize of 0 divides by a `double` zero and gives an infinite or NaN page count before the `int` cast.
- Linq.Where: the result keeps the input order, which is not stated. Only membership and multiplicity are stated.
- EventRepository.OrderByStart: SQL leaves the order of equal start times unspecified. The model's insertion sort keeps them in primary-key order, but this is not proved. Only sortedness and permutation are stated.
- AttendeeLifecycle.AttendeeService.RemoveAttendeeFromEvent: the "event not found" branch is modelled but cannot happen, because the foreign key and cascade delete keep every attendee's event stored.
