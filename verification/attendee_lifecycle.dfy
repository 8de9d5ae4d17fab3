/** The attendee lifecycle: add an attendee to a stored event with one
    invitation, remove one with a cancellation, change a response without
    any notification, and the reads the service passes through. */
module AttendeeLifecycle {
  import opened Wrappers
  import opened Entities
  import opened AttendeeRepository
  import opened Store
  import opened Notifications
  import opened EventLifecycle

  /** Over a table whose keys are all in 1..n, the email filter keeps one row
      per stored attendee with that email. */
  lemma EmailMatchesCount(attendees: map<int, Attendee>, n: int, email: string)
    requires forall k :: k in attendees ==> 0 < k <= n
    ensures |AttendeesWithEmail(Rows(attendees, n), email)| == |set k | k in attendees && attendees[k].email == email|
  {
    FilteredRowsCount(attendees, n, EmailIs(email));
    assert KeysWhere(attendees, n, EmailIs(email)) == set k | k in attendees && attendees[k].email == email;
  }

  /** Over a table whose keys are all in 1..n, the event filter keeps one row
      per stored attendee of that event. */
  lemma EventMatchesCount(attendees: map<int, Attendee>, n: int, eventId: int)
    requires forall k :: k in attendees ==> 0 < k <= n
    ensures |GetAttendeesByEventId(Rows(attendees, n), eventId)| == |set k | k in attendees && attendees[k].eventId == eventId|
  {
    FilteredRowsCount(attendees, n, OfEvent(eventId));
    assert KeysWhere(attendees, n, OfEvent(eventId)) == set k | k in attendees && attendees[k].eventId == eventId;
  }

  class AttendeeService {
    const store: Database
    const outbox: Outbox

    constructor (store: Database, outbox: Outbox)
      ensures this.store == store && this.outbox == outbox
    {
      this.store := store;
      this.outbox := outbox;
    }

    /** AddAttendeeToEventAsync: the attendee's event must be stored; the
        attendee gets a fresh id and exactly one invitation. */
    method AddAttendeeToEvent(a: Attendee) returns (r: Result<Attendee, Failure>)
      requires store.Valid()
      modifies store, outbox
      ensures store.Valid()
      ensures r.Err? <==> a.eventId !in old(store.events)
      ensures r.Err? ==> r.error == UnknownEvent(a.eventId) && unchanged(store) && outbox.sent == old(outbox.sent)
      ensures r.Ok? ==>
        && r.value == a.(id := old(store.nextAttendeeId))
        && r.value.id !in old(store.attendees)
        && store.attendees == old(store.attendees)[r.value.id := r.value]
        && store.events == old(store.events)
        && store.nextEventId == old(store.nextEventId) && store.nextAttendeeId == old(store.nextAttendeeId) + 1
        && outbox.sent == old(outbox.sent) + [Notification(a.eventId, r.value.id, Invitation)]
    {
      var e := if a.eventId in store.events then Some(store.events[a.eventId]) else None;
      if e.None? {
        return Err(UnknownEvent(a.eventId));
      }
      var stored := store.AddAttendee(a);
      outbox.Send(e.value, stored, Invitation);
      return Ok(stored);
    }

    /** RemoveAttendeeFromEventAsync: false when the attendee is absent;
        otherwise the attendee is deleted and, if its event is still stored,
        sent a cancellation. */
    method RemoveAttendeeFromEvent(id: int) returns (removed: bool)
      requires store.Valid()
      modifies store, outbox
      ensures store.Valid()
      ensures removed <==> id in old(store.attendees)
      ensures !removed ==> unchanged(store) && outbox.sent == old(outbox.sent)
      ensures removed ==>
        var eventId := old(store.attendees)[id].eventId;
        && store.attendees == old(store.attendees) - {id}
        && store.events == old(store.events)
        && store.nextEventId == old(store.nextEventId) && store.nextAttendeeId == old(store.nextAttendeeId)
        && outbox.sent == old(outbox.sent)
             + (if eventId in old(store.events) then [Notification(eventId, id, Cancellation)] else [])
      ensures removed ==> |outbox.sent| == |old(outbox.sent)| + 1
    {
      var a := if id in store.attendees then Some(store.attendees[id]) else None;
      if a.None? {
        return false;
      }
      var e := if a.value.eventId in store.events then Some(store.events[a.value.eventId]) else None;
      store.RemoveAttendee(id);
      if e.Some? {
        outbox.Send(e.value, a.value, Cancellation);
      }
      return true;
    }

    /** UpdateAttendanceStatusAsync: the repository's result; no notification. */
    method UpdateAttendanceStatus(id: int, status: AttendanceStatus) returns (found: bool)
      requires store.Valid()
      modifies store
      ensures store.Valid()
      ensures found <==> id in old(store.attendees)
      ensures store.attendees == WithStatus(old(store.attendees), id, status)
      ensures store.events == old(store.events)
      ensures store.nextEventId == old(store.nextEventId) && store.nextAttendeeId == old(store.nextAttendeeId)
      ensures outbox.sent == old(outbox.sent)
    {
      found := store.UpdateAttendanceStatus(id, status);
    }

    /** GetAttendeesByEventIdAsync, passed through without an existence check. */
    method GetAttendeesByEventId(eventId: int) returns (r: seq<Attendee>)
      requires store.Valid()
      ensures forall x :: x in r <==> exists k :: k in store.attendees && store.attendees[k] == x && x.eventId == eventId
      ensures |r| == |set k | k in store.attendees && store.attendees[k].eventId == eventId|
      ensures eventId !in store.events ==> r == []
    {
      r := AttendeeRepository.GetAttendeesByEventId(store.AttendeeRows(), eventId);
      EventMatchesCount(store.attendees, store.nextAttendeeId - 1, eventId);
    }

    /** GetEventsByAttendeeEmailAsync, passed through: the owning event of each
        attendee registered under `email`. */
    method GetEventsByAttendeeEmail(email: string) returns (r: seq<Event>)
      requires store.Valid()
      ensures r == AttendeeRepository.GetEventsByAttendeeEmail(store.events, store.AttendeeRows(), email)
      ensures |r| == |set k | k in store.attendees && store.attendees[k].email == email|
      ensures forall x :: x in r <==>
        exists k :: k in store.attendees && store.attendees[k].email == email && x == store.events[store.attendees[k].eventId]
    {
      var rows := store.AttendeeRows();
      r := AttendeeRepository.GetEventsByAttendeeEmail(store.events, rows, email);
      EmailMatchesCount(store.attendees, store.nextAttendeeId - 1, email);
    }

    /** GetAllAttendeesAsync: every stored attendee. */
    method GetAllAttendees() returns (r: seq<Attendee>)
      requires store.Valid()
      ensures forall x :: x in r <==> exists k :: k in store.attendees && store.attendees[k] == x
      ensures |r| == |store.attendees|
    {
      r := store.AttendeeRows();
      RowsCount(store.attendees, store.nextAttendeeId - 1);
      assert KeysWhere(store.attendees, store.nextAttendeeId - 1, Any()) == store.attendees.Keys;
    }

    /** GetAttendeeByIdAsync: the generic repository's lookup by primary key. */
    method GetAttendeeById(id: int) returns (r: Option<Attendee>)
      ensures r.Some? <==> id in store.attendees
      ensures r.Some? ==> r.value == store.attendees[id]
    {
      r := if id in store.attendees then Some(store.attendees[id]) else None;
    }
  }
}
