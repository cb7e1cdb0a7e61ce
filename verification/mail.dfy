/**
 * What the application hands to its mail and task machinery. HTML bodies are
 * templates and are not modelled; an email keeps its subject, recipients,
 * optional sender and plain-text override, and the token-bearing link its
 * body carries, if any.
 */
module Mail {
  import opened Common

  /** The settings the notification code reads (DNarai/settings.py:135-139). */
  datatype Config = Config(
    defaultFromEmail: string,
    mentorEmail: Option<string>,
    emailHostUser: string,
    baseUrl: string,
    /** `settings.SITE_URL`; the settings module does not define it. */
    siteUrl: Option<string>)

  const FallbackMentorEmail: string := "admin@example.com"

  /** `getattr(settings, "DEFAULT_MENTOR_EMAIL", "admin@example.com")`. */
  function MentorAddress(cfg: Config): (a: string)
    ensures cfg.mentorEmail.None? ==> a == FallbackMentorEmail
    ensures cfg.mentorEmail.Some? ==> a == cfg.mentorEmail.value
  {
    cfg.mentorEmail.GetOr(FallbackMentorEmail)
  }

  /** The arguments of one `send_email_task` call. */
  datatype Email = Email(
    subject: string,
    recipients: seq<string>,
    sender: Option<string>,
    text: Option<string>,
    link: Option<string>)

  /** A job handed to the task queue: an immediate email, or the completion
      prompt for a booking id, to run no earlier than `eta`. */
  datatype Job =
    | SendEmail(email: Email)
    | CompletionPrompt(bookingId: nat, eta: Instant)

  /** A job that sends one email to exactly `to`. */
  predicate MailsTo(j: Job, to: seq<string>) {
    j.SendEmail? && j.email.recipients == to
  }

  /** How many of `jobs` are immediate emails. */
  function EmailCount(jobs: seq<Job>): (n: nat)
    ensures n <= |jobs|
    ensures n == 0 <==> forall k :: 0 <= k < |jobs| ==> !jobs[k].SendEmail?
  {
    if jobs == [] then 0
    else EmailCount(jobs[..|jobs| - 1]) + (if jobs[|jobs| - 1].SendEmail? then 1 else 0)
  }
}
