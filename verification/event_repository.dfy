/** The event-specific queries: the time-slot availability test, the date-range
    filter, substring search and the loads that include attendees. Every query
    runs over the event rows in primary-key order. OrderBy(StartTime) leaves the
    order of equal start times unspecified; the model's sort keeps them in
    primary-key order. */
module EventRepository {
  import opened Wrappers
  import opened Text
  import opened Entities
  import opened Linq
  import opened AttendeeRepository

  // ----- time-slot policy -----

  /** Event `x` occupies part of the half-open slot [start, end). */
  predicate Conflicts(x: Event, start: int, end: int)
  {
    x.startTime < end && x.endTime > start
  }

  /** The intervals of two events share a point. */
  predicate Overlaps(x: Event, y: Event)
  {
    Conflicts(x, y.startTime, y.endTime)
  }

  /** Overlap does not depend on the order of its arguments, and an event
      overlaps itself exactly when its interval is non-empty. */
  lemma OverlapIsSymmetric(x: Event, y: Event)
    ensures Overlaps(x, y) <==> Overlaps(y, x)
    ensures Overlaps(x, x) <==> x.IsValid()
  {
  }

  /** Back-to-back appointments, one ending when the other starts, do not conflict. */
  lemma AdjacentEventsDoNotOverlap(x: Event, y: Event)
    requires x.endTime == y.startTime
    ensures !Overlaps(x, y) && !Overlaps(y, x)
  {
  }

  /** `x` stands in the way of booking [start, end): it conflicts and is not
      the event being updated. */
  predicate Blocks(x: Event, start: int, end: int, excludeEventId: Option<int>)
  {
    Conflicts(x, start, end) && !(excludeEventId.Some? && x.id == excludeEventId.value)
  }

  /** The filter `e => e.Id != id`. */
  function OtherThan(id: int): Event -> bool
  {
    (x: Event) => x.id != id
  }

  /** IsTimeSlotAvailableAsync: no stored event, other than the excluded one,
      conflicts with [start, end). */
  function IsTimeSlotAvailable(events: seq<Event>, start: int, end: int, excludeEventId: Option<int>): (r: bool)
    ensures r <==> forall x :: x in events ==> !Blocks(x, start, end, excludeEventId)
  {
    var conflicting := Where(events, (x: Event) => Conflicts(x, start, end));
    var query :=
      if excludeEventId.Some? then Where(conflicting, OtherThan(excludeEventId.value))
      else conflicting;
    !(|query| > 0)
  }

  /** Excluding an id is the same as testing the table without that event:
      the excluded event's own interval never blocks the slot. */
  lemma ExclusionIgnoresOwnRow(events: seq<Event>, start: int, end: int, id: int)
    ensures IsTimeSlotAvailable(events, start, end, Some(id))
        == IsTimeSlotAvailable(Where(events, OtherThan(id)), start, end, None)
  {
  }

  // ----- ordering -----

  predicate SortedByStart(s: seq<Event>)
  {
    forall i, j :: 0 <= i < j < |s| ==> s[i].startTime <= s[j].startTime
  }

  /** Inserts `x` before the first element that starts no earlier than it. */
  function InsertByStart(x: Event, s: seq<Event>): (r: seq<Event>)
    requires SortedByStart(s)
    ensures SortedByStart(r)
    ensures forall y :: y in r <==> y == x || y in s
    ensures multiset(r) == multiset(s) + multiset{x}
  {
    if s == [] || x.startTime <= s[0].startTime then
      SortedCons(x, s);
      [x] + s
    else
      var rest := InsertByStart(x, s[1..]);
      assert s == [s[0]] + s[1..];
      assert multiset(s) == multiset{s[0]} + multiset(s[1..]);
      SortedCons(s[0], rest);
      [s[0]] + rest
  }

  /** An element no later than the head of a sorted list can go in front of it. */
  lemma SortedCons(h: Event, t: seq<Event>)
    requires SortedByStart(t)
    requires forall y :: y in t ==> h.startTime <= y.startTime
    ensures SortedByStart([h] + t)
  {
    forall i, j | 0 <= i < j < |[h] + t|
      ensures ([h] + t)[i].startTime <= ([h] + t)[j].startTime
    {
      assert ([h] + t)[j] == t[j - 1];
      if i > 0 {
        assert ([h] + t)[i] == t[i - 1];
      } else {
        assert t[j - 1] in t;
      }
    }
  }

  /** OrderBy(e => e.StartTime): an insertion sort, ascending by start time. */
  function OrderByStart(s: seq<Event>): (r: seq<Event>)
    ensures SortedByStart(r)
    ensures multiset(r) == multiset(s)
  {
    if s == [] then
      []
    else
      assert s == [s[0]] + s[1..];
      InsertByStart(s[0], OrderByStart(s[1..]))
  }

  // ----- loads that include the attendee collection -----

  /** The events of a list of loaded events, in order. */
  function EventsOf(r: seq<EventWithAttendees>): seq<Event>
  {
    seq(|r|, i requires 0 <= i < |r| => r[i].event)
  }

  /** Include(e => e.Attendees) over a list of events. */
  function IncludeAttendees(events: seq<Event>, attendees: seq<Attendee>): (r: seq<EventWithAttendees>)
    ensures EventsOf(r) == events
    ensures forall i :: 0 <= i < |r| ==> r[i].attendees == GetAttendeesByEventId(attendees, events[i].id)
  {
    seq(|events|, i requires 0 <= i < |events| =>
      EventWithAttendees(events[i], GetAttendeesByEventId(attendees, events[i].id)))
  }

  /** GetAllEventsAsync: every event with its attendees, ascending by start time. */
  function GetAllEvents(events: seq<Event>, attendees: seq<Attendee>): (r: seq<EventWithAttendees>)
    ensures SortedByStart(EventsOf(r))
    ensures multiset(EventsOf(r)) == multiset(events)
    ensures forall i :: 0 <= i < |r| ==> r[i].attendees == GetAttendeesByEventId(attendees, r[i].event.id)
  {
    IncludeAttendees(OrderByStart(events), attendees)
  }

  /** GetEventWithAttendeesAsync: the first event with that id and its
      attendees, or None. */
  function GetEventWithAttendees(events: seq<Event>, attendees: seq<Attendee>, id: int): (r: Option<EventWithAttendees>)
    ensures r.Some? <==> exists x :: x in events && x.id == id
    ensures r.Some? ==> r.value.event in events && r.value.event.id == id
    ensures r.Some? ==> r.value.attendees == GetAttendeesByEventId(attendees, id)
  {
    var found := Where(events, (x: Event) => x.id == id);
    if |found| == 0 then
      None
    else
      assert found[0] in found;
      Some(EventWithAttendees(found[0], GetAttendeesByEventId(attendees, id)))
  }

  // ----- date range -----

  /** The range filter: the event starts in [start, end], ends in it, or spans it. */
  predicate InDateRange(x: Event, start: int, end: int)
  {
    || (x.startTime >= start && x.startTime <= end)
    || (x.endTime >= start && x.endTime <= end)
    || (x.startTime <= start && x.endTime >= end)
  }

  /** For a well-ordered event and range the filter is the closed-interval
      overlap test, so it includes every event that conflicts with the range
      and every event that only touches one of its ends. */
  lemma DateRangeIsClosedOverlap(x: Event, start: int, end: int)
    requires x.startTime <= x.endTime && start <= end
    ensures InDateRange(x, start, end) <==> x.startTime <= end && x.endTime >= start
    ensures Conflicts(x, start, end) ==> InDateRange(x, start, end)
    ensures x.endTime == start || x.startTime == end ==> InDateRange(x, start, end)
  {
  }

  /** GetEventsByDateRangeAsync: the events in range with their attendees,
      ascending by start time. */
  function GetEventsByDateRange(events: seq<Event>, attendees: seq<Attendee>, start: int, end: int): (r: seq<EventWithAttendees>)
    ensures forall x :: x in EventsOf(r) <==> x in events && InDateRange(x, start, end)
    ensures forall x :: multiset(EventsOf(r))[x] == if InDateRange(x, start, end) then multiset(events)[x] else 0
    ensures SortedByStart(EventsOf(r))
    ensures forall i :: 0 <= i < |r| ==> r[i].attendees == GetAttendeesByEventId(attendees, r[i].event.id)
  {
    var sorted := OrderByStart(Where(events, (x: Event) => InDateRange(x, start, end)));
    assert forall x :: x in sorted <==> x in multiset(sorted);
    IncludeAttendees(sorted, attendees)
  }

  // ----- search -----

  /** The title, or the description when there is one, contains `term`. */
  predicate MatchesTerm(x: Event, term: string)
  {
    Contains(x.title, term) || (x.description.Some? && Contains(x.description.value, term))
  }

  /** SearchEventsAsync: a null or blank term returns every event in table
      order; any other term the matching events, ascending by start time. */
  function SearchEvents(events: seq<Event>, term: Option<string>): (r: seq<Event>)
    ensures IsNullOrWhiteSpace(term) ==> r == events
    ensures !IsNullOrWhiteSpace(term) ==>
      && (forall x :: x in r <==> x in events && MatchesTerm(x, term.value))
      && (forall x :: multiset(r)[x] == if MatchesTerm(x, term.value) then multiset(events)[x] else 0)
      && SortedByStart(r)
  {
    if IsNullOrWhiteSpace(term) then
      events
    else
      var r := OrderByStart(Where(events, (x: Event) => MatchesTerm(x, term.value)));
      assert forall x :: x in r <==> x in multiset(r);
      r
  }
}
