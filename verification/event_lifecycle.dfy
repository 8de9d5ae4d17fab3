/** The event lifecycle: create, update and delete with their error outcomes
    and notifications, the reads the service passes through to the
    repository, and the schedule invariant that no two stored events overlap. */
module EventLifecycle {
  import opened Wrappers
  import opened Entities
  import opened AttendeeRepository
  import opened EventRepository
  import opened Store
  import opened Notifications

  /** The exceptions the services throw. */
  datatype Failure =
    | InvalidEvent           // ArgumentException: end time not after start time
    | SlotUnavailable        // InvalidOperationException: the slot overlaps another event
    | UnknownEvent(id: int)  // ArgumentException: an attendee names no stored event

  /** No two distinct stored events overlap. */
  predicate NonOverlapping(events: map<int, Event>)
  {
    forall i, j :: i in events && j in events && i != j ==> !Overlaps(events[i], events[j])
  }

  /** No stored event other than the excluded one conflicts with [start, end). */
  predicate SlotIsFree(events: map<int, Event>, start: int, end: int, excludeEventId: Option<int>)
  {
    forall k :: k in events && (excludeEventId.None? || k != excludeEventId.value) ==>
      !Conflicts(events[k], start, end)
  }

  /** Every stored event ends after it starts. */
  predicate AllValid(events: map<int, Event>)
  {
    forall k :: k in events ==> events[k].IsValid()
  }

  /** Over a well-formed store, GetEventWithAttendees finds exactly the event
      stored under `id`, with the attendees that reference it. */
  lemma LookupStoredEvent(events: map<int, Event>, attendees: map<int, Attendee>, nextEventId: int, nextAttendeeId: int, id: int)
    requires Wellformed(events, attendees, nextEventId, nextAttendeeId)
    ensures GetEventWithAttendees(Rows(events, nextEventId - 1), Rows(attendees, nextAttendeeId - 1), id)
         == if id in events
            then Some(EventWithAttendees(events[id], GetAttendeesByEventId(Rows(attendees, nextAttendeeId - 1), id)))
            else None
  {
    var rows := Rows(events, nextEventId - 1);
    var r := GetEventWithAttendees(rows, Rows(attendees, nextAttendeeId - 1), id);
    if id in events {
      assert events[id] in rows;
    }
    if r.Some? {
      assert r.value.event in rows;
      var k :| 0 < k <= nextEventId - 1 && k in events && events[k] == r.value.event;
      assert k == id;
    }
  }

  /** Over a well-formed event table, the availability query over its rows
      holds exactly when no stored event other than the excluded one
      conflicts with the slot. */
  lemma AvailabilityOverTable(events: map<int, Event>, n: int, start: int, end: int, excludeEventId: Option<int>)
    requires forall k :: k in events ==> 0 < k <= n && events[k].id == k
    ensures IsTimeSlotAvailable(Rows(events, n), start, end, excludeEventId) <==>
      SlotIsFree(events, start, end, excludeEventId)
  {
    var rows := Rows(events, n);
    if IsTimeSlotAvailable(rows, start, end, excludeEventId) {
      forall k | k in events && (excludeEventId.None? || k != excludeEventId.value)
        ensures !Conflicts(events[k], start, end)
      {
        assert events[k] in rows;
        assert !Blocks(events[k], start, end, excludeEventId);
      }
    } else {
      var x :| x in rows && Blocks(x, start, end, excludeEventId);
      var k :| 0 < k <= n && k in events && events[k] == x;
      assert Conflicts(events[k], start, end);
    }
  }

  /** Booking a slot that no stored event conflicts with keeps the schedule
      free of overlaps. */
  lemma {:induction false} BookingKeepsNonOverlapping(events: map<int, Event>, e: Event)
    requires NonOverlapping(events)
    requires SlotIsFree(events, e.startTime, e.endTime, Some(e.id))
    ensures NonOverlapping(events[e.id := e])
  {
    var after := events[e.id := e];
    forall i, j | i in after && j in after && i != j
      ensures !Overlaps(after[i], after[j])
    {
      if i == e.id {
        assert !Overlaps(events[j], e);
        OverlapIsSymmetric(events[j], e);
      } else if j != e.id {
        assert after[i] == events[i] && after[j] == events[j];
      }
    }
  }

  /** Storing a valid event keeps every stored event valid. */
  lemma StoringValidKeepsAllValid(events: map<int, Event>, e: Event)
    requires AllValid(events) && e.IsValid()
    ensures AllValid(events[e.id := e])
  {
  }

  /** An event of an overlap-free schedule never blocks a move to its own
      current slot: updating an event to its unchanged interval succeeds. */
  lemma {:induction false} OwnSlotIsAvailable(events: map<int, Event>, n: int, id: int)
    requires forall k :: k in events ==> 0 < k <= n && events[k].id == k
    requires NonOverlapping(events) && id in events
    ensures IsTimeSlotAvailable(Rows(events, n), events[id].startTime, events[id].endTime, Some(id))
  {
    forall k | k in events && k != id
      ensures !Conflicts(events[k], events[id].startTime, events[id].endTime)
    {
      assert !Overlaps(events[k], events[id]);
    }
    AvailabilityOverTable(events, n, events[id].startTime, events[id].endTime, Some(id));
  }

  class EventService {
    const store: Database
    const outbox: Outbox

    constructor (store: Database, outbox: Outbox)
      ensures this.store == store && this.outbox == outbox
    {
      this.store := store;
      this.outbox := outbox;
    }

    /** Sends one notification per recipient, in order. */
    method NotifyEach(e: Event, recipients: seq<Attendee>, reason: NotificationType)
      modifies outbox
      ensures outbox.sent == old(outbox.sent) + NotifyAll(e.id, recipients, reason)
    {
      var i := 0;
      while i < |recipients|
        invariant 0 <= i <= |recipients|
        invariant outbox.sent == old(outbox.sent) + NotifyAll(e.id, recipients[..i], reason)
      {
        outbox.Send(e, recipients[i], reason);
        NotifyAllAppend(e.id, recipients[..i], [recipients[i]], reason);
        assert recipients[..i + 1] == recipients[..i] + [recipients[i]];
        i := i + 1;
      }
      assert recipients[..i] == recipients;
    }

    /** CreateEventAsync. */
    method CreateEvent(candidate: EventWithAttendees) returns (r: Result<EventWithAttendees, Failure>)
      requires store.Valid()
      modifies store, outbox
      ensures store.Valid()
      ensures r.Ok? <==>
        candidate.event.IsValid() && SlotIsFree(old(store.events), candidate.event.startTime, candidate.event.endTime, None)
      ensures r.Err? ==> r.error == if candidate.event.IsValid() then SlotUnavailable else InvalidEvent
      ensures r.Err? ==> unchanged(store) && outbox.sent == old(outbox.sent)
      ensures r.Ok? ==>
        && r.value.event == candidate.event.(id := old(store.nextEventId))
        && r.value.event.id !in old(store.events)
        && r.value.attendees == Enrol(candidate.attendees, r.value.event.id, old(store.nextAttendeeId))
        && store.events == old(store.events)[r.value.event.id := r.value.event]
        && store.attendees == old(store.attendees) + Keyed(r.value.attendees)
        && store.nextEventId == old(store.nextEventId) + 1
        && store.nextAttendeeId == old(store.nextAttendeeId) + |candidate.attendees|
        && outbox.sent == old(outbox.sent) + NotifyAll(r.value.event.id, r.value.attendees, Invitation)
      ensures NonOverlapping(old(store.events)) ==> NonOverlapping(store.events)
      ensures AllValid(old(store.events)) ==> AllValid(store.events)
    {
      var e := candidate.event;
      if !e.IsValid() {
        return Err(InvalidEvent);
      }
      var available := IsTimeSlotAvailable(e.startTime, e.endTime, None);
      if !available {
        return Err(SlotUnavailable);
      }
      ghost var before := store.events;
      var stored, enrolled := store.AddEvent(e, candidate.attendees);
      if NonOverlapping(before) {
        BookingKeepsNonOverlapping(before, stored);
      }
      if AllValid(before) {
        StoringValidKeepsAllValid(before, stored);
      }
      if |enrolled| > 0 {
        NotifyEach(stored, enrolled, Invitation);
      }
      return Ok(EventWithAttendees(stored, enrolled));
    }

    /** UpdateEventAsync, comparing the incoming value with the stored one. */
    method UpdateEvent(changes: Event) returns (r: Result<Option<EventWithAttendees>, Failure>)
      requires store.Valid()
      modifies store, outbox
      ensures store.Valid()
      ensures r == Ok(None) <==> changes.IsValid() && changes.id !in old(store.events)
      ensures r.Ok? && r.value.Some? <==>
        && changes.IsValid() && changes.id in old(store.events)
        && SlotIsFree(old(store.events), changes.startTime, changes.endTime, Some(changes.id))
      ensures r.Err? ==> r.error == if changes.IsValid() then SlotUnavailable else InvalidEvent
      ensures r.Err? || r == Ok(None) ==> unchanged(store) && outbox.sent == old(outbox.sent)
      ensures r.Ok? && r.value.Some? ==>
        var before := old(store.events)[changes.id];
        var after := before.(title := changes.title, description := changes.description,
                             startTime := changes.startTime, endTime := changes.endTime);
        var recipients := GetAttendeesByEventId(old(store.AttendeeRows()), changes.id);
        var reason :=
          if before.startTime != changes.startTime || before.endTime != changes.endTime
          then Rescheduled else UpdatedDetails;
        && after == changes
        && r.value.value == EventWithAttendees(after, recipients)
        && store.events == old(store.events)[changes.id := after]
        && store.attendees == old(store.attendees)
        && store.nextEventId == old(store.nextEventId) && store.nextAttendeeId == old(store.nextAttendeeId)
        && outbox.sent == old(outbox.sent) + NotifyAll(changes.id, recipients, reason)
      ensures NonOverlapping(old(store.events)) ==> NonOverlapping(store.events)
      ensures AllValid(old(store.events)) ==> AllValid(store.events)
    {
      if !changes.IsValid() {
        return Err(InvalidEvent);
      }
      var existing := GetEventWithAttendees(changes.id);
      if existing.None? {
        return Ok(None);
      }
      var available := IsTimeSlotAvailable(changes.startTime, changes.endTime, Some(changes.id));
      if !available {
        return Err(SlotUnavailable);
      }
      var old_ := existing.value.event;
      var timeChanged := old_.startTime != changes.startTime || old_.endTime != changes.endTime;
      var updated := old_.(title := changes.title, description := changes.description,
                           startTime := changes.startTime, endTime := changes.endTime);
      ghost var before := store.events;
      store.ReplaceEvent(updated);
      if NonOverlapping(before) {
        BookingKeepsNonOverlapping(before, updated);
      }
      if AllValid(before) {
        StoringValidKeepsAllValid(before, updated);
      }
      var recipients := existing.value.attendees;
      if |recipients| > 0 {
        var reason := UpdatedDetails;
        if timeChanged {
          reason := Rescheduled;
        }
        NotifyEach(updated, recipients, reason);
      }
      return Ok(Some(EventWithAttendees(updated, recipients)));
    }

    /** DeleteEventAsync: the attendee list is taken before the delete, the
        delete cascades to the attendees, then each former attendee is told. */
    method DeleteEvent(id: int) returns (deleted: bool)
      requires store.Valid()
      modifies store, outbox
      ensures store.Valid()
      ensures deleted <==> id in old(store.events)
      ensures !deleted ==> unchanged(store) && outbox.sent == old(outbox.sent)
      ensures deleted ==>
        && store.events == old(store.events) - {id}
        && store.attendees == WithoutEvent(old(store.attendees), id)
        && store.nextEventId == old(store.nextEventId) && store.nextAttendeeId == old(store.nextAttendeeId)
        && outbox.sent == old(outbox.sent)
             + NotifyAll(id, GetAttendeesByEventId(old(store.AttendeeRows()), id), Cancellation)
      ensures forall k :: k in store.attendees ==> store.attendees[k].eventId != id
      ensures NonOverlapping(old(store.events)) ==> NonOverlapping(store.events)
    {
      var existing := GetEventWithAttendees(id);
      if existing.None? {
        return false;
      }
      var snapshot := existing.value.attendees;
      store.RemoveEvent(id);
      NotifyEach(existing.value.event, snapshot, Cancellation);
      return true;
    }

    /** IsTimeSlotAvailableAsync, passed through to the repository. */
    method IsTimeSlotAvailable(start: int, end: int, excludeEventId: Option<int>) returns (available: bool)
      requires store.Valid()
      ensures available == EventRepository.IsTimeSlotAvailable(store.EventRows(), start, end, excludeEventId)
      ensures available <==> SlotIsFree(store.events, start, end, excludeEventId)
    {
      available := EventRepository.IsTimeSlotAvailable(store.EventRows(), start, end, excludeEventId);
      AvailabilityOverTable(store.events, store.nextEventId - 1, start, end, excludeEventId);
    }

    /** GetEventWithAttendeesAsync, passed through to the repository. */
    method GetEventWithAttendees(id: int) returns (r: Option<EventWithAttendees>)
      requires store.Valid()
      ensures r.Some? <==> id in store.events
      ensures r.Some? ==>
        && r.value.event == store.events[id]
        && r.value.attendees == GetAttendeesByEventId(store.AttendeeRows(), id)
    {
      r := EventRepository.GetEventWithAttendees(store.EventRows(), store.AttendeeRows(), id);
      LookupStoredEvent(store.events, store.attendees, store.nextEventId, store.nextAttendeeId, id);
    }

    /** GetEventByIdAsync: the generic repository's lookup by primary key. */
    method GetEventById(id: int) returns (r: Option<Event>)
      ensures r.Some? <==> id in store.events
      ensures r.Some? ==> r.value == store.events[id]
    {
      r := if id in store.events then Some(store.events[id]) else None;
    }

    /** GetAllEventsAsync: the generic repository's GetAllAsync, in table order. */
    method GetAllEvents() returns (r: seq<Event>)
      requires store.Valid()
      ensures forall x :: x in r <==> exists k :: k in store.events && store.events[k] == x
      ensures |r| == |store.events|
    {
      r := store.EventRows();
      RowsCount(store.events, store.nextEventId - 1);
      assert KeysWhere(store.events, store.nextEventId - 1, Any()) == store.events.Keys;
    }

    /** GetEventsByDateRangeAsync, passed through to the repository. */
    method GetEventsByDateRange(start: int, end: int) returns (r: seq<EventWithAttendees>)
      ensures r == EventRepository.GetEventsByDateRange(store.EventRows(), store.AttendeeRows(), start, end)
    {
      r := EventRepository.GetEventsByDateRange(store.EventRows(), store.AttendeeRows(), start, end);
    }

    /** SearchEventsAsync, passed through to the repository. */
    method SearchEvents(term: Option<string>) returns (r: seq<Event>)
      ensures r == EventRepository.SearchEvents(store.EventRows(), term)
    {
      r := EventRepository.SearchEvents(store.EventRows(), term);
    }
  }
}
