/** A morning at the practice, step by step through both services on one
    store: booking, a clash, an adjacent booking, an invitation, a
    reschedule and a cancellation. Each step's outcome follows from the
    services' contracts alone. */
module Scenarios {
  import opened Wrappers
  import opened Entities
  import opened AttendeeRepository
  import opened EventRepository
  import opened Store
  import opened Notifications
  import opened EventLifecycle
  import opened AttendeeLifecycle

  /** 2025-01-01T09:00Z in DateTime ticks. */
  const NineAm: int := 638713188000000000

  /** The instant `minutes` minutes after 09:00. */
  function At(minutes: int): (t: int)
    ensures t - NineAm == minutes * TicksPerMinute
  {
    NineAm + minutes * TicksPerMinute
  }

  /** A new appointment with no attendees, from `start` to `end` minutes after 09:00. */
  function Booking(title: string, start: int, end: int): (b: EventWithAttendees)
    ensures b.attendees == [] && b.event.title == title
    ensures b.event.startTime == At(start) && b.event.endTime == At(end)
    ensures b.event.IsValid() <==> start < end
  {
    EventWithAttendees(Event(0, title, None, At(start), At(end)), [])
  }

  /** The checkup as stored by the first booking. */
  function Checkup(): (e: Event)
    ensures e.id == 1 && e.IsValid()
  {
    Event(1, "Checkup", None, At(0), At(30))
  }

  /** Both services work on the same store and outbox. */
  predicate SharedBy(events: EventService, attendees: AttendeeService, db: Database, outbox: Outbox)
  {
    && events.store == db && events.outbox == outbox
    && attendees.store == db && attendees.outbox == outbox
  }

  /** Checkup at 09:00, refused clash at 09:15, adjacent follow-up at 09:30. */
  method BookTheMorning(events: EventService, db: Database, outbox: Outbox)
    requires events.store == db && events.outbox == outbox
    requires db.Valid() && db.events == map[] && db.attendees == map[]
    requires db.nextEventId == 1 && db.nextAttendeeId == 1 && outbox.sent == []
    modifies db, outbox
    ensures db.Valid() && 1 in db.events && db.events[1] == Checkup()
    ensures db.attendees == map[] && db.nextAttendeeId == 1 && outbox.sent == []
    ensures forall k :: k in db.events && k != 1 ==> db.events[k].endTime <= At(60)
  {
    // A half-hour checkup on an empty schedule is booked as event 1.
    var checkup := events.CreateEvent(Booking("Checkup", 0, 30));
    assert checkup.Ok?;
    var first := checkup.value.event;
    assert first == Checkup() && db.events == map[1 := first];
    HalfHourLastsThirtyMinutes(first);
    assert first.DurationMinutes() == 30;

    // 09:15-09:45 overlaps the checkup and is refused; nothing changes.
    var clash := events.CreateEvent(Booking("Follow-up", 15, 45));
    assert Conflicts(db.events[1], At(15), At(45));
    assert clash == Err(SlotUnavailable);

    // 09:30-10:00 only touches the checkup's end and is booked.
    var adjacent := events.CreateEvent(Booking("Follow-up", 30, 60));
    assert !Conflicts(db.events[1], At(30), At(60));
    assert adjacent.Ok?;
  }

  /** Jane is added to the checkup, starts NotResponded and is invited once. */
  method InviteJane(attendees: AttendeeService, db: Database, outbox: Outbox) returns (jane: Attendee)
    requires attendees.store == db && attendees.outbox == outbox
    requires db.Valid() && 1 in db.events && db.events[1] == Checkup()
    requires db.attendees == map[] && db.nextAttendeeId == 1 && outbox.sent == []
    modifies db, outbox
    ensures db.Valid() && 1 in db.events && db.events[1] == Checkup()
    ensures db.events == old(db.events)
    ensures jane.id == 1 && jane.eventId == 1 && jane.status == NotResponded
    ensures db.attendees == map[1 := jane] && db.nextAttendeeId == 2
    ensures outbox.sent == [Notification(1, 1, Invitation)]
  {
    var r := attendees.AddAttendeeToEvent(NewAttendee().(name := "Jane Doe", email := "jane@x.com", eventId := 1));
    assert r.Ok?;
    jane := r.value;
  }

  /** Moving the checkup to 11:00-11:30 sends Jane a Rescheduled notice. */
  method MoveCheckup(events: EventService, db: Database, outbox: Outbox, jane: Attendee)
    requires events.store == db && events.outbox == outbox
    requires db.Valid() && 1 in db.events && db.events[1] == Checkup()
    requires forall k :: k in db.events && k != 1 ==> db.events[k].endTime <= At(60)
    requires jane.id == 1 && jane.eventId == 1
    requires db.attendees == map[1 := jane] && db.nextAttendeeId == 2
    requires outbox.sent == [Notification(1, 1, Invitation)]
    modifies db, outbox
    ensures db.Valid() && 1 in db.events
    ensures db.attendees == map[1 := jane] && db.nextAttendeeId == 2
    ensures outbox.sent == [Notification(1, 1, Invitation), Notification(1, 1, Rescheduled)]
  {
    assert db.AttendeeRows() == [jane] by {
      assert Rows(db.attendees, 1) == Rows(db.attendees, 0) + [jane];
    }
    assert GetAttendeesByEventId([jane], 1) == [jane];
    assert SlotIsFree(db.events, At(120), At(150), Some(1));
    var moved := events.UpdateEvent(Checkup().(startTime := At(120), endTime := At(150)));
    assert moved.Ok? && moved.value.Some?;
  }

  /** Deleting the checkup removes Jane's row and cancels her appointment;
      deleting it again, or removing Jane again, reports "not found". */
  method CancelCheckup(events: EventService, attendees: AttendeeService, db: Database, outbox: Outbox, jane: Attendee)
    requires SharedBy(events, attendees, db, outbox)
    requires db.Valid() && 1 in db.events
    requires jane.id == 1 && jane.eventId == 1
    requires db.attendees == map[1 := jane] && db.nextAttendeeId == 2
    requires outbox.sent == [Notification(1, 1, Invitation), Notification(1, 1, Rescheduled)]
    modifies db, outbox
  {
    assert db.AttendeeRows() == [jane] by {
      assert Rows(db.attendees, 1) == Rows(db.attendees, 0) + [jane];
    }
    assert GetAttendeesByEventId([jane], 1) == [jane];
    var deleted := events.DeleteEvent(1);
    assert deleted;
    assert db.attendees == map[];
    assert outbox.sent == [Notification(1, 1, Invitation), Notification(1, 1, Rescheduled),
                           Notification(1, 1, Cancellation)];

    var again := events.DeleteEvent(1);
    assert !again;
    var gone := attendees.RemoveAttendeeFromEvent(1);
    assert !gone;
  }

  /** The whole morning on a fresh store. */
  method MorningAtThePractice()
  {
    var db := new Database();
    var outbox := new Outbox();
    var events := new EventService(db, outbox);
    var attendees := new AttendeeService(db, outbox);
    BookTheMorning(events, db, outbox);
    var jane := InviteJane(attendees, db, outbox);
    MoveCheckup(events, db, outbox, jane);
    CancelCheckup(events, attendees, db, outbox, jane);
  }
}
