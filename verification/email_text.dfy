/** The text of a notification email: a subject chosen by reason, and an HTML
    body made of a greeting, the event details, a sentence chosen by reason
    and a fixed footer. The two formatted times are taken as given strings;
    culture-dependent date formatting is not modelled. */
module EmailText {
  import opened Text
  import opened Entities

  /** GetSubject: the reason's subject line around the event title. */
  function Subject(title: string, reason: NotificationType): string
  {
    match reason
    case Invitation => "Invitation: " + title
    case Reminder => "Reminder: " + title + " is upcoming"
    case Cancellation => "Cancelled: " + title
    case Rescheduled => "Rescheduled: " + title
    case UpdatedDetails => "Updated: " + title
  }

  /** The reason's sentence in the body. */
  function MainContent(reason: NotificationType): string
  {
    match reason
    case Invitation => "You have been invited to the above event. Please confirm your attendance."
    case Reminder => "This is a friendly reminder about the upcoming event."
    case Cancellation => "We regret to inform you that this event has been cancelled."
    case Rescheduled => "This event has been rescheduled. Please review the updated time."
    case UpdatedDetails => "The details for this event have been updated."
  }

  const Footer: string := "<br><br>Thank you,<br>Doctor's Appointment System"

  function Greeting(name: string): string
  {
    "Hello " + name + ",<br><br>"
  }

  /** The event block; a missing description interpolates as the empty string. */
  function EventDetails(e: Event, startText: string, endText: string): string
  {
    "<b>Event:</b> " + e.title + "<br>"
      + "<b>When:</b> " + startText + " to " + endText + "<br>"
      + "<b>Description:</b> " + (if e.description.Some? then e.description.value else "") + "<br><br>"
  }

  /** GetEmailBody. */
  function EmailBody(e: Event, a: Attendee, startText: string, endText: string, reason: NotificationType): string
  {
    Greeting(a.name) + EventDetails(e, startText, endText) + MainContent(reason) + Footer
  }

  /** Every subject names the event. */
  lemma SubjectMentionsTitle(title: string, reason: NotificationType)
    ensures Contains(Subject(title, reason), title)
  {
    match reason
    case Invitation => ContainsAfterPrefix("Invitation: ", title, "");
    case Reminder => ContainsAfterPrefix("Reminder: ", title, " is upcoming");
    case Cancellation => ContainsAfterPrefix("Cancelled: ", title, "");
    case Rescheduled => ContainsAfterPrefix("Rescheduled: ", title, "");
    case UpdatedDetails => ContainsAfterPrefix("Updated: ", title, "");
  }

  /** For one title, distinct reasons give distinct subjects: the fixed text
      around the title has a different length for each reason. */
  lemma SubjectsAreDistinct(title: string, r1: NotificationType, r2: NotificationType)
    requires r1 != r2
    ensures Subject(title, r1) != Subject(title, r2)
  {
    assert |Subject(title, r1)| != |Subject(title, r2)|;
  }

  /** The length of each reason's sentence. */
  function ContentLength(reason: NotificationType): nat
  {
    match reason
    case Invitation => 73
    case Reminder => 53
    case Cancellation => 59
    case Rescheduled => 64
    case UpdatedDetails => 45
  }

  lemma MainContentLength(reason: NotificationType)
    ensures |MainContent(reason)| == ContentLength(reason)
  {
    match reason
    case Invitation => assert |MainContent(Invitation)| == 73;
    case Reminder => assert |MainContent(Reminder)| == 53;
    case Cancellation => assert |MainContent(Cancellation)| == 59;
    case Rescheduled => assert |MainContent(Rescheduled)| == 64;
    case UpdatedDetails => assert |MainContent(UpdatedDetails)| == 45;
  }

  /** The five sentences have five different lengths, so they are distinct. */
  lemma MainContentsAreDistinct(r1: NotificationType, r2: NotificationType)
    ensures r1 != r2 ==> |MainContent(r1)| != |MainContent(r2)|
  {
    MainContentLength(r1);
    MainContentLength(r2);
  }

  /** Where each of four concatenated parts sits in the whole. */
  lemma PartsOfConcat(g: string, d: string, m: string, f: string)
    ensures var s := g + d + m + f;
      && |s| == |g + d| + |m| + |f|
      && s[..|g|] == g
      && s[|g + d|..|g + d| + |m|] == m
      && s[|s| - |f|..] == f
  {
    var s := g + d + m + f;
    assert s[..|g|] == g;
    assert s[|g + d|..|g + d| + |m|] == m;
    assert s[|s| - |f|..] == f;
  }

  /** The body starts with the greeting and ends with the footer, and the
      reason's sentence sits between the event details and the footer. */
  lemma BodyLayout(e: Event, a: Attendee, startText: string, endText: string, reason: NotificationType)
    ensures var body := EmailBody(e, a, startText, endText, reason);
      var head := |Greeting(a.name) + EventDetails(e, startText, endText)|;
      && |body| == head + |MainContent(reason)| + |Footer|
      && body[..|Greeting(a.name)|] == Greeting(a.name)
      && body[head..head + |MainContent(reason)|] == MainContent(reason)
      && body[|body| - |Footer|..] == Footer
  {
    PartsOfConcat(Greeting(a.name), EventDetails(e, startText, endText), MainContent(reason), Footer);
  }

  /** Everything else being equal, the body determines the reason. */
  lemma BodyDeterminesReason(e: Event, a: Attendee, startText: string, endText: string, r1: NotificationType, r2: NotificationType)
    requires EmailBody(e, a, startText, endText, r1) == EmailBody(e, a, startText, endText, r2)
    ensures r1 == r2
  {
    MainContentsAreDistinct(r1, r2);
  }
}
