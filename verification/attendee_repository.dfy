/** The attendee-specific queries and the in-place status update. The queries
    run over the attendee rows in primary-key order. */
module AttendeeRepository {
  import opened Entities
  import opened Linq

  /** The attendees of one event; empty when none match, with no check that
      the event exists. */
  function GetAttendeesByEventId(attendees: seq<Attendee>, eventId: int): (r: seq<Attendee>)
    ensures forall a :: a in r <==> a in attendees && a.eventId == eventId
    ensures forall a :: multiset(r)[a] == if a.eventId == eventId then multiset(attendees)[a] else 0
  {
    Where(attendees, OfEvent(eventId))
  }

  /** The filter `a => a.EventId == eventId`. */
  function OfEvent(eventId: int): Attendee -> bool
  {
    (a: Attendee) => a.eventId == eventId
  }

  /** The filter `a => a.Email == email`. */
  function EmailIs(email: string): Attendee -> bool
  {
    (a: Attendee) => a.email == email
  }

  /** The attendees whose email equals `email` exactly. */
  function AttendeesWithEmail(attendees: seq<Attendee>, email: string): (r: seq<Attendee>)
    ensures forall a :: a in r <==> a in attendees && a.email == email
    ensures forall a :: multiset(r)[a] == if a.email == email then multiset(attendees)[a] else 0
  {
    Where(attendees, EmailIs(email))
  }

  /** Mapping each matching attendee to its event yields exactly the events
      that own some attendee with that email. */
  lemma OwnersOfMatching(events: map<int, Event>, attendees: seq<Attendee>, email: string, matching: seq<Attendee>, r: seq<Event>)
    requires forall a :: a in matching <==> a in attendees && a.email == email
    requires forall a :: a in matching ==> a.eventId in events
    requires |r| == |matching| && forall i :: 0 <= i < |r| ==> r[i] == events[matching[i].eventId]
    ensures forall x :: x in r <==> exists a :: a in attendees && a.email == email && x == events[a.eventId]
  {
    forall x | x in r ensures exists a :: a in attendees && a.email == email && x == events[a.eventId] {
      var i :| 0 <= i < |r| && r[i] == x;
      assert matching[i] in matching;
    }
    forall a | a in attendees && a.email == email ensures events[a.eventId] in r {
      var i :| 0 <= i < |matching| && matching[i] == a;
      assert r[i] == events[a.eventId];
    }
  }

  /** The owning event of every attendee registered under `email`, one entry
      per such attendee, in attendee order. */
  function GetEventsByAttendeeEmail(events: map<int, Event>, attendees: seq<Attendee>, email: string): (r: seq<Event>)
    requires forall a :: a in attendees ==> a.eventId in events
    ensures |r| == |AttendeesWithEmail(attendees, email)|
    ensures forall i :: 0 <= i < |r| ==> r[i] == events[AttendeesWithEmail(attendees, email)[i].eventId]
    ensures forall x :: x in r <==> exists a :: a in attendees && a.email == email && x == events[a.eventId]
  {
    var matching := AttendeesWithEmail(attendees, email);
    var r := seq(|matching|, i requires 0 <= i < |matching| => events[matching[i].eventId]);
    OwnersOfMatching(events, attendees, email, matching, r);
    r
  }

  /** The attendee table after setting the status of attendee `id`, if present. */
  function WithStatus(attendees: map<int, Attendee>, id: int, status: AttendanceStatus): (r: map<int, Attendee>)
    ensures r.Keys == attendees.Keys
    ensures forall k :: k in attendees && k != id ==> r[k] == attendees[k]
    ensures id in attendees ==> r[id] == attendees[id].(status := status)
  {
    if id in attendees then attendees[id := attendees[id].(status := status)] else attendees
  }

  /** Setting the same status twice leaves the table as setting it once. */
  lemma WithStatusIsIdempotent(attendees: map<int, Attendee>, id: int, status: AttendanceStatus)
    ensures WithStatus(WithStatus(attendees, id, status), id, status) == WithStatus(attendees, id, status)
  {
  }

}
