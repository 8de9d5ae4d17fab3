/** The domain entities: an appointment slot (Event), a participant in it
    (Attendee), the participant's response (AttendanceStatus) and the reasons
    a notification is sent (NotificationType). Times are DateTime ticks
    (100-nanosecond units), already normalised to UTC. */
module Entities {
  import opened Wrappers
  import opened Text

  const TicksPerMinute: int := 600_000_000

  const MaxTitleLength: nat := 200
  const MaxDescriptionLength: nat := 2000
  const MaxNameLength: nat := 100
  const MaxEmailLength: nat := 256

  /** An appointment slot. Its attendees live in their own table and are linked
      back through Attendee.eventId; EventWithAttendees is the event with that
      collection loaded. */
  datatype Event = Event(
    id: int,
    title: string,
    description: Option<string>,
    startTime: int,
    endTime: int)
  {
    /** An event is valid when it ends strictly after it starts. */
    predicate IsValid()
    {
      endTime > startTime
    }

    /** Elapsed time in whole minutes, truncated toward zero like the C# cast
        of TimeSpan.TotalMinutes to int. */
    function DurationMinutes(): (m: int)
      ensures IsValid() ==> m >= 0
      ensures endTime >= startTime ==>
        m * TicksPerMinute <= endTime - startTime < (m + 1) * TicksPerMinute
      ensures endTime < startTime ==>
        m <= 0 && (m - 1) * TicksPerMinute < endTime - startTime <= m * TicksPerMinute
    {
      TruncatedQuotient(endTime - startTime, TicksPerMinute)
    }

    /** The declared column bounds: a title that is present and not blank, of
        at most 200 characters, and a description of at most 2000. */
    predicate WithinBounds()
    {
      && !IsNullOrWhiteSpace(Some(title)) && |title| <= MaxTitleLength
      && (description.Some? ==> |description.value| <= MaxDescriptionLength)
    }
  }

  /** The response an attendee has given; the numeric codes are the enum's. */
  datatype AttendanceStatus = NotResponded | Accepted | Declined | Tentative
  {
    function Code(): (c: int)
      ensures 0 <= c < 4
    {
      match this
      case NotResponded => 0
      case Accepted => 1
      case Declined => 2
      case Tentative => 3
    }
  }

  /** The enum value with numeric code `c`, if `c` names one. */
  function StatusFromCode(c: int): (r: Option<AttendanceStatus>)
    ensures r.Some? <==> 0 <= c < 4
  {
    if c == 0 then Some(NotResponded)
    else if c == 1 then Some(Accepted)
    else if c == 2 then Some(Declined)
    else if c == 3 then Some(Tentative)
    else None
  }

  /** The codes 0..3 and the four statuses are in one-to-one correspondence. */
  lemma StatusCodeRoundTrip(s: AttendanceStatus, c: int)
    ensures StatusFromCode(s.Code()) == Some(s)
    ensures StatusFromCode(c).Some? ==> StatusFromCode(c).value.Code() == c
  {
  }

  /** The column text of a status: the store keeps the enum member's name. */
  function StatusName(s: AttendanceStatus): string
  {
    match s
    case NotResponded => "NotResponded"
    case Accepted => "Accepted"
    case Declined => "Declined"
    case Tentative => "Tentative"
  }

  /** The stored names tell the four statuses apart, so storing a status as
      its name loses nothing. */
  lemma StatusNamesAreDistinct(s: AttendanceStatus, t: AttendanceStatus)
    ensures StatusName(s) == StatusName(t) <==> s == t
  {
  }

  /** A participant of one event, referenced through eventId. */
  datatype Attendee = Attendee(
    id: int,
    name: string,
    email: string,
    status: AttendanceStatus,
    eventId: int)
  {
    /** The declared bounds: name and email present and not blank, at most 100
        and 256 characters. The email-address syntax check is not modelled. */
    predicate WithinBounds()
    {
      && !IsNullOrWhiteSpace(Some(name)) && |name| <= MaxNameLength
      && !IsNullOrWhiteSpace(Some(email)) && |email| <= MaxEmailLength
    }
  }

  /** An event together with its Attendees collection. */
  datatype EventWithAttendees = EventWithAttendees(event: Event, attendees: seq<Attendee>)

  /** The reasons a notification is sent. */
  datatype NotificationType = Invitation | Reminder | Cancellation | Rescheduled | UpdatedDetails

  /** `new Event()`: id 0, empty title, no description, both times at
      DateTime.MinValue, no attendees. */
  function NewEvent(): (r: EventWithAttendees)
    ensures r.event.title == "" && r.event.description == None && r.attendees == []
    ensures !r.event.IsValid() && !r.event.WithinBounds()
  {
    EventWithAttendees(Event(0, "", None, 0, 0), [])
  }

  /** `new Attendee()`: id 0, empty name and email, status NotResponded. */
  function NewAttendee(): (r: Attendee)
    ensures r.status == NotResponded && r.status.Code() == 0
    ensures r.name == "" && r.email == "" && !r.WithinBounds()
  {
    Attendee(0, "", "", NotResponded, 0)
  }

  /** Integer division of `a` by a positive `b`, rounded toward zero. */
  function TruncatedQuotient(a: int, b: int): (q: int)
    requires b > 0
    ensures a >= 0 ==> q >= 0 && q * b <= a < (q + 1) * b
    ensures a < 0 ==> q <= 0 && (q - 1) * b < a <= q * b
  {
    if a >= 0 then
      DivisionBounds(a, b);
      a / b
    else
      DivisionBounds(-a, b);
      -((-a) / b)
  }

  /** Euclidean division of a natural number brackets it between multiples. */
  lemma DivisionBounds(n: int, b: int)
    requires n >= 0 && b > 0
    ensures n / b >= 0
    ensures (n / b) * b <= n < (n / b + 1) * b
    ensures -(n / b) * b >= -n > (-(n / b) - 1) * b
  {
    var q, r := n / b, n % b;
    assert n == q * b + r;
    assert (q + 1) * b == q * b + b;
    assert -q * b == -(q * b);
    assert (-q - 1) * b == -(q * b) - b;
  }

  /** A half-hour appointment lasts 30 minutes, wherever it starts. */
  lemma HalfHourLastsThirtyMinutes(e: Event)
    requires e.endTime == e.startTime + 30 * TicksPerMinute
    ensures e.DurationMinutes() == 30
  {
  }
}
