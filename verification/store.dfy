/** The in-memory store behind the repositories: one table of events and one of
    attendees, keyed by identifiers the store allocates, with the attendees'
    foreign key to their event and cascading delete. Add, Update, Remove and
    SaveChanges of the generic repository are one atomic step each. */
module Store {
  import opened Entities
  import opened AttendeeRepository
  import opened Linq

  /** The keys 1..n of a table whose rows satisfy `p`. */
  function KeysWhere<T>(table: map<int, T>, n: int, p: T -> bool): set<int>
  {
    set k | k in table && 0 < k <= n && p(table[k])
  }

  /** Every row satisfies `Any`. */
  function Any<T>(): T -> bool
  {
    (x: T) => true
  }

  /** Key n, if stored and satisfying `p`, is the one key the set gains at n. */
  lemma KeysWhereStep<T>(table: map<int, T>, n: int, p: T -> bool)
    requires n > 0
    ensures |KeysWhere(table, n, p)|
         == |KeysWhere(table, n - 1, p)| + (if n in table && p(table[n]) then 1 else 0)
  {
    var before := KeysWhere(table, n - 1, p);
    assert n !in before;
    if n in table && p(table[n]) {
      assert KeysWhere(table, n, p) == before + {n};
    } else {
      assert KeysWhere(table, n, p) == before;
    }
  }

  /** The values of a table in primary-key order, for keys 1..n. */
  function Rows<T(==)>(table: map<int, T>, n: int): (r: seq<T>)
    decreases n
    ensures forall x :: x in r ==> exists k :: 0 < k <= n && k in table && table[k] == x
    ensures forall k :: 0 < k <= n && k in table ==> table[k] in r
  {
    if n <= 0 then [] else Rows(table, n - 1) + (if n in table then [table[n]] else [])
  }

  /** A table's rows hold one entry per stored key. */
  lemma {:induction false} RowsCount<T(!new)>(table: map<int, T>, n: int)
    ensures |Rows(table, n)| == |KeysWhere(table, n, Any())|
    decreases n
  {
    if n > 0 {
      RowsCount(table, n - 1);
      KeysWhereStep(table, n, Any());
    } else {
      assert KeysWhere(table, n, Any()) == {};
    }
  }

  /** How many of the keys 1..n hold a row satisfying `p`. */
  function CountWhere<T>(table: map<int, T>, n: int, p: T -> bool): nat
    decreases n
  {
    if n <= 0 then 0
    else CountWhere(table, n - 1, p) + (if n in table && p(table[n]) then 1 else 0)
  }

  /** Row n, if stored and satisfying `p`, is the one row the filter gains at
      n, so the count over rows 1..n - 1 extends to rows 1..n; with no keys
      there is nothing to count. */
  lemma WhereRowsExtend<T(!new)>(table: map<int, T>, n: int, p: T -> bool)
    requires n > 0 ==> |Where(Rows(table, n - 1), p)| == CountWhere(table, n - 1, p)
    ensures |Where(Rows(table, n), p)| == CountWhere(table, n, p)
  {
    if n > 0 {
      var tail := if n in table then [table[n]] else [];
      assert Rows(table, n) == Rows(table, n - 1) + tail;
      WhereAppend(Rows(table, n - 1), tail, p);
      assert tail == [] || tail == [tail[0]];
    } else {
      assert Rows(table, n) == [];
    }
  }

  lemma {:induction false} WhereRowsCount<T(!new)>(table: map<int, T>, n: int, p: T -> bool)
    ensures |Where(Rows(table, n), p)| == CountWhere(table, n, p)
    decreases n
  {
    if n > 0 {
      WhereRowsCount(table, n - 1, p);
    }
    WhereRowsExtend(table, n, p);
  }

  lemma {:induction false} KeysWhereCount<T>(table: map<int, T>, n: int, p: T -> bool)
    ensures |KeysWhere(table, n, p)| == CountWhere(table, n, p)
    decreases n
  {
    if n > 0 {
      KeysWhereStep(table, n, p);
      KeysWhereCount(table, n - 1, p);
    } else {
      assert KeysWhere(table, n, p) == {};
    }
  }

  /** A filter over a table's rows keeps one row per stored key whose row
      satisfies it. */
  lemma FilteredRowsCount<T(!new)>(table: map<int, T>, n: int, p: T -> bool)
    ensures |Where(Rows(table, n), p)| == |KeysWhere(table, n, p)|
  {
    WhereRowsCount(table, n, p);
    KeysWhereCount(table, n, p);
  }

  /** The store's integrity constraints: positive identifiers below the next
      fresh one, each row stored under its own id, and every attendee
      referencing a stored event. */
  predicate Wellformed(events: map<int, Event>, attendees: map<int, Attendee>, nextEventId: int, nextAttendeeId: int)
  {
    && 0 < nextEventId && 0 < nextAttendeeId
    && (forall k :: k in events ==> 0 < k < nextEventId && events[k].id == k)
    && (forall k :: k in attendees ==> 0 < k < nextAttendeeId && attendees[k].id == k)
    && (forall k :: k in attendees ==> attendees[k].eventId in events)
  }

  /** The inline attendees of a new event, given consecutive fresh ids from
      `firstId` and linked to event `eventId`. */
  function Enrol(inline: seq<Attendee>, eventId: int, firstId: int): (r: seq<Attendee>)
    ensures |r| == |inline|
    ensures forall i :: 0 <= i < |r| ==> r[i] == inline[i].(id := firstId + i, eventId := eventId)
  {
    seq(|inline|, i requires 0 <= i < |inline| => inline[i].(id := firstId + i, eventId := eventId))
  }

  /** A table holding the given rows under their ids. */
  function Keyed(rows: seq<Attendee>): (r: map<int, Attendee>)
    ensures forall k :: k in r <==> exists a :: a in rows && a.id == k
    ensures forall k :: k in r ==> r[k] in rows && r[k].id == k
  {
    if rows == [] then map[]
    else
      var last := rows[|rows| - 1];
      var init := rows[..|rows| - 1];
      assert rows == init + [last];
      Keyed(init)[last.id := last]
  }

  /** The attendee table without the attendees of event `eventId`. */
  function WithoutEvent(attendees: map<int, Attendee>, eventId: int): (r: map<int, Attendee>)
    ensures forall k :: k in r <==> k in attendees && attendees[k].eventId != eventId
    ensures forall k :: k in r ==> r[k] == attendees[k]
  {
    map k | k in attendees && attendees[k].eventId != eventId :: attendees[k]
  }

  class Database {
    var events: map<int, Event>
    var attendees: map<int, Attendee>
    var nextEventId: int
    var nextAttendeeId: int

    ghost predicate Valid()
      reads this
    {
      Wellformed(events, attendees, nextEventId, nextAttendeeId)
    }

    constructor ()
      ensures Valid()
      ensures events == map[] && attendees == map[]
      ensures nextEventId == 1 && nextAttendeeId == 1
    {
      events, attendees := map[], map[];
      nextEventId, nextAttendeeId := 1, 1;
    }

    /** The event table in primary-key order. */
    function EventRows(): seq<Event>
      reads this
    {
      Rows(events, nextEventId - 1)
    }

    /** The attendee table in primary-key order. */
    function AttendeeRows(): seq<Attendee>
      reads this
    {
      Rows(attendees, nextAttendeeId - 1)
    }

    /** Repository<Event>.AddAsync then SaveChangesAsync: the event gets the
        next id, and its inline attendees the next attendee ids and the
        event's id as their foreign key. */
    method AddEvent(e: Event, inline: seq<Attendee>) returns (stored: Event, enrolled: seq<Attendee>)
      requires Valid()
      modifies this
      ensures Valid()
      ensures stored == e.(id := old(nextEventId))
      ensures enrolled == Enrol(inline, stored.id, old(nextAttendeeId))
      ensures events == old(events)[stored.id := stored]
      ensures attendees == old(attendees) + Keyed(enrolled)
      ensures nextEventId == old(nextEventId) + 1
      ensures nextAttendeeId == old(nextAttendeeId) + |inline|
    {
      stored := e.(id := nextEventId);
      enrolled := Enrol(inline, stored.id, nextAttendeeId);
      events := events[stored.id := stored];
      attendees := attendees + Keyed(enrolled);
      nextEventId := nextEventId + 1;
      nextAttendeeId := nextAttendeeId + |inline|;
    }

    /** Repository<Event>.Update then SaveChangesAsync on a stored event. */
    method ReplaceEvent(e: Event)
      requires Valid() && e.id in events
      modifies this
      ensures Valid()
      ensures events == old(events)[e.id := e]
      ensures attendees == old(attendees)
      ensures nextEventId == old(nextEventId) && nextAttendeeId == old(nextAttendeeId)
    {
      events := events[e.id := e];
    }

    /** Repository<Event>.Remove then SaveChangesAsync: deleting the event
        deletes its attendees with it (the relationship is configured with
        cascading delete). */
    method RemoveEvent(id: int)
      requires Valid()
      modifies this
      ensures Valid()
      ensures events == old(events) - {id}
      ensures attendees == WithoutEvent(old(attendees), id)
      ensures nextEventId == old(nextEventId) && nextAttendeeId == old(nextAttendeeId)
    {
      events := events - {id};
      attendees := WithoutEvent(attendees, id);
    }

    /** Repository<Attendee>.AddAsync then SaveChangesAsync: the attendee gets
        the next attendee id. The foreign key must name a stored event. */
    method AddAttendee(a: Attendee) returns (stored: Attendee)
      requires Valid() && a.eventId in events
      modifies this
      ensures Valid()
      ensures stored == a.(id := old(nextAttendeeId))
      ensures attendees == old(attendees)[stored.id := stored]
      ensures events == old(events)
      ensures nextEventId == old(nextEventId) && nextAttendeeId == old(nextAttendeeId) + 1
    {
      stored := a.(id := nextAttendeeId);
      attendees := attendees[stored.id := stored];
      nextAttendeeId := nextAttendeeId + 1;
    }

    /** Repository<Attendee>.Remove then SaveChangesAsync. */
    method RemoveAttendee(id: int)
      requires Valid()
      modifies this
      ensures Valid()
      ensures attendees == old(attendees) - {id}
      ensures events == old(events)
      ensures nextEventId == old(nextEventId) && nextAttendeeId == old(nextAttendeeId)
    {
      attendees := attendees - {id};
    }

    /** UpdateAttendanceStatusAsync: false and no change when the attendee is
        absent; otherwise its status is set in place and the result is true. */
    method UpdateAttendanceStatus(id: int, status: AttendanceStatus) returns (found: bool)
      requires Valid()
      modifies this
      ensures Valid()
      ensures found <==> id in old(attendees)
      ensures attendees == WithStatus(old(attendees), id, status)
      ensures events == old(events)
      ensures nextEventId == old(nextEventId) && nextAttendeeId == old(nextAttendeeId)
    {
      if id !in attendees {
        return false;
      }
      attendees := attendees[id := attendees[id].(status := status)];
      found := true;
    }
  }
}
