/**
 * The booking records of core/models.py: session durations, the
 * leadership-session booking with its lifecycle flags, tokens and
 * timestamps, the session-end instant and the 48-hour token window.
 */
module Sessions {
  import opened Common

  const DefaultDurationMinutes: nat := 30
  const TokenValidityHours: int := 48

  datatype SessionDuration = SessionDuration(caption: string, minutes: nat)

  /** A duration row as created with an optional `duration_minutes`. */
  function NewSessionDuration(caption: string, minutes: Option<nat>): (d: SessionDuration)
    ensures d.caption == caption
    ensures minutes.None? ==> d.minutes == 30
    ensures minutes.Some? ==> d.minutes == minutes.value
  {
    SessionDuration(caption, minutes.GetOr(DefaultDurationMinutes))
  }

  /** `SessionDuration.get_timedelta`, in seconds. */
  function TimedeltaOf(d: SessionDuration): (span: int)
    ensures span >= 0
    ensures span % Minute == 0 && span / Minute == d.minutes
  {
    d.minutes * Minute
  }

  /** The validated fields of a booking form. */
  datatype BookingRequest = BookingRequest(
    fullName: string,
    email: string,
    phone: Option<string>,
    company: Option<string>,
    preferred: Instant,
    timezone: string,
    sessionType: string,
    duration: SessionDuration,
    format: string,
    goals: Option<string>,
    referral: Option<string>,
    profileLink: Option<string>)

  datatype Booking = Booking(
    id: nat,
    fullName: string,
    email: string,
    phone: Option<string>,
    company: Option<string>,
    preferred: Instant,
    timezone: string,
    sessionType: string,
    duration: SessionDuration,
    format: string,
    goals: Option<string>,
    referral: Option<string>,
    profileLink: Option<string>,
    createdAt: Instant,
    mentorConfirmed: bool,
    sessionCompleted: bool,
    sessionHeld: Option<bool>,
    mentorToken: Option<string>,
    completionToken: Option<string>,
    tokenGeneratedAt: Instant,
    confirmedAt: Option<Instant>,
    completedAt: Option<Instant>,
    lastReminderSentAt: Option<Instant>)

  /** No lifecycle step has touched the booking yet. */
  predicate IsPristine(b: Booking) {
    && !b.mentorConfirmed
    && !b.sessionCompleted
    && b.sessionHeld.None?
    && b.confirmedAt.None?
    && b.completedAt.None?
    && b.lastReminderSentAt.None?
  }

  /** The form fields a booking was made from. */
  function RequestOf(b: Booking): BookingRequest {
    BookingRequest(b.fullName, b.email, b.phone, b.company, b.preferred,
      b.timezone, b.sessionType, b.duration, b.format, b.goals, b.referral,
      b.profileLink)
  }

  /** The row saved for a booking form at `now`, with the given tokens; every
      other field takes its model default. */
  function NewBooking(id: nat, req: BookingRequest, now: Instant,
                      mentorToken: string, completionToken: string): (b: Booking)
    ensures b.id == id && RequestOf(b) == req
    ensures IsPristine(b)
    ensures b.createdAt == now && b.tokenGeneratedAt == now
    ensures b.mentorToken == Some(mentorToken) && b.completionToken == Some(completionToken)
  {
    Booking(id, req.fullName, req.email, req.phone, req.company, req.preferred,
      req.timezone, req.sessionType, req.duration, req.format, req.goals,
      req.referral, req.profileLink,
      now, false, false, None, Some(mentorToken), Some(completionToken), now,
      None, None, None)
  }

  /** `get_session_end_datetime`. `session_duration` is a required foreign
      key, so every stored booking has a duration and the method's fallback to
      the bare preferred time is never reached. */
  function SessionEnd(b: Booking): (t: Instant)
    ensures t >= b.preferred
    ensures t - b.preferred == TimedeltaOf(b.duration)
  {
    b.preferred + TimedeltaOf(b.duration)
  }

  /** `is_token_valid(hours)` evaluated at `now`: at most `hours` hours have
      passed since the tokens were generated. */
  predicate IsTokenValid(b: Booking, now: Instant, hours: int := TokenValidityHours) {
    now <= b.tokenGeneratedAt + hours * Hour
  }

  /** Once the window has closed it stays closed. */
  lemma TokenExpiryIsPermanent(b: Booking, now: Instant, later: Instant, hours: int)
    requires now <= later
    requires !IsTokenValid(b, now, hours)
    ensures !IsTokenValid(b, later, hours)
  {
  }

  /** The window includes its last instant and nothing after it. */
  lemma TokenWindowBoundary(b: Booking)
    ensures IsTokenValid(b, b.tokenGeneratedAt + 48 * Hour)
    ensures !IsTokenValid(b, b.tokenGeneratedAt + 48 * Hour + 1)
    ensures IsTokenValid(b, b.tokenGeneratedAt)
  {
  }
}
