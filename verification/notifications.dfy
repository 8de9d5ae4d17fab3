/** The notification dispatcher as the core sees it: every call records which
    attendee of which event was notified, and why, in an append-only log. */
module Notifications {
  import opened Entities

  datatype Notification = Notification(eventId: int, attendeeId: int, reason: NotificationType)

  /** One notification with the same event and reason to each recipient, in
      collection order. */
  function NotifyAll(eventId: int, recipients: seq<Attendee>, reason: NotificationType): (r: seq<Notification>)
    ensures |r| == |recipients|
  {
    if recipients == [] then []
    else [Notification(eventId, recipients[0].id, reason)] + NotifyAll(eventId, recipients[1..], reason)
  }

  /** Notifying two groups one after the other is notifying them together. */
  lemma {:induction false} NotifyAllAppend(eventId: int, a: seq<Attendee>, b: seq<Attendee>, reason: NotificationType)
    ensures NotifyAll(eventId, a + b, reason) == NotifyAll(eventId, a, reason) + NotifyAll(eventId, b, reason)
  {
    if a != [] {
      assert (a + b)[1..] == a[1..] + b;
      NotifyAllAppend(eventId, a[1..], b, reason);
    } else {
      assert a + b == b;
    }
  }

  /** The i-th notification goes to the i-th recipient. */
  lemma {:induction false} NotifyAllAt(eventId: int, recipients: seq<Attendee>, reason: NotificationType, i: int)
    requires 0 <= i < |recipients|
    ensures NotifyAll(eventId, recipients, reason)[i] == Notification(eventId, recipients[i].id, reason)
  {
    if i > 0 {
      NotifyAllAt(eventId, recipients[1..], reason, i - 1);
    }
  }

  /** INotificationService: the log of every notification dispatched so far. */
  class Outbox {
    var sent: seq<Notification>

    constructor ()
      ensures sent == []
    {
      sent := [];
    }

    /** SendNotificationAsync(event, attendee, reason). */
    method Send(e: Event, a: Attendee, reason: NotificationType)
      modifies this
      ensures sent == old(sent) + [Notification(e.id, a.id, reason)]
    {
      sent := sent + [Notification(e.id, a.id, reason)];
    }
  }
}
