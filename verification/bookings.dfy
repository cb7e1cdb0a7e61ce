/**
 * The booking lifecycle of core/views.py as transitions over the booking
 * table: creation (tokens, completion-prompt schedule, two notifications),
 * mentor confirmation, mentee completion, and the administrative
 * held / not-held overwrites. Each transition takes the table, the current
 * instant and its request input, and returns the new table, a response kind
 * and the jobs it queued.
 */
module Bookings {
  import opened Common
  import opened Mail
  import opened Sessions

  /** The booking table in primary-key order, and the next key to assign. */
  datatype Store = Store(bookings: seq<Booking>, nextId: nat)

  /** Keys increase along the table and stay below `nextId`; no two rows share
      a mentor-confirmation token or a completion token. */
  predicate Valid(st: Store) {
    && (forall i :: 0 <= i < |st.bookings| ==> st.bookings[i].id < st.nextId)
    && (forall i, j :: 0 <= i < j < |st.bookings| ==> st.bookings[i].id < st.bookings[j].id)
    && (forall i, j :: 0 <= i < j < |st.bookings| && st.bookings[i].mentorToken.Some? ==>
          st.bookings[i].mentorToken != st.bookings[j].mentorToken)
    && (forall i, j :: 0 <= i < j < |st.bookings| && st.bookings[i].completionToken.Some? ==>
          st.bookings[i].completionToken != st.bookings[j].completionToken)
  }

  /** A token no row carries in either token column. */
  predicate IsFreshToken(st: Store, t: string) {
    forall i :: 0 <= i < |st.bookings| ==>
      st.bookings[i].mentorToken != Some(t) && st.bookings[i].completionToken != Some(t)
  }

  function ByMentorToken(t: string): Booking -> bool {
    (b: Booking) => b.mentorToken == Some(t)
  }

  function ByCompletionToken(t: string): Booking -> bool {
    (b: Booking) => b.completionToken == Some(t)
  }

  datatype Outcome =
    | FormRedisplayed
    | BookingCreated
    | LinkNotFound
    | LinkExpired
    | AlreadyConfirmed
    | SessionConfirmed
    | AlreadyCompleted
    | CompletionRecorded
    | HeldRecorded
    | NotHeldRecorded
    | ServerError

  datatype Step = Step(store: Store, outcome: Outcome, jobs: seq<Job>)

  const MenteeBookingSubject: string := "Mentorship Session Booking Confirmation"
  const MentorInviteSubject: string := "New Mentorship Session Request"
  const SessionConfirmedSubject: string := "Your Mentorship Session is Confirmed!"
  const ConfirmPathPrefix: string := "/confirm-session/"

  /** The absolute mentor link, `origin` being the scheme and host of the request. */
  function ConfirmLink(origin: string, token: string): string {
    origin + ConfirmPathPrefix + token + "/"
  }

  /** The store with row `i` replaced. */
  function Put(st: Store, i: nat, b: Booking): (r: Store)
    requires i < |st.bookings|
    ensures |r.bookings| == |st.bookings| && r.nextId == st.nextId
    ensures r.bookings[i] == b
    ensures forall j :: 0 <= j < |st.bookings| && j != i ==> r.bookings[j] == st.bookings[j]
  {
    st.(bookings := st.bookings[i := b])
  }

  /** `booking_view` on a POST: an invalid form changes nothing; a valid one
      saves a pristine booking carrying both fresh tokens, schedules the
      completion prompt for the end of the session, and queues the mentee
      confirmation and the mentor invite. */
  function Create(st: Store, form: Option<BookingRequest>, now: Instant, origin: string,
                  mentorToken: string, completionToken: string, cfg: Config): (r: Step)
    ensures form.None? ==> r == Step(st, FormRedisplayed, [])
    ensures form.Some? ==>
      && r.outcome == BookingCreated
      && |r.store.bookings| == |st.bookings| + 1
      && r.store.bookings[..|st.bookings|] == st.bookings
      && r.store.nextId == st.nextId + 1
      && var b := r.store.bookings[|st.bookings|];
      && b.id == st.nextId
      && RequestOf(b) == form.value
      && IsPristine(b)
      && b.createdAt == now && b.tokenGeneratedAt == now
      && b.mentorToken == Some(mentorToken) && b.completionToken == Some(completionToken)
      && |r.jobs| == 3
      && r.jobs[0] == CompletionPrompt(b.id, SessionEnd(b))
      && MailsTo(r.jobs[1], [b.email])
      && MailsTo(r.jobs[2], [MentorAddress(cfg)])
      && r.jobs[2].email.link == Some(ConfirmLink(origin, mentorToken))
      && EmailCount(r.jobs) == 2
  {
    if form.None? then Step(st, FormRedisplayed, [])
    else
      var req := form.value;
      var b := NewBooking(st.nextId, req, now, mentorToken, completionToken);
      var eta := req.preferred + TimedeltaOf(req.duration);
      var toMentee := Email(MenteeBookingSubject, [req.email], Some(cfg.defaultFromEmail), None, None);
      var toMentor := Email(MentorInviteSubject, [MentorAddress(cfg)], Some(cfg.defaultFromEmail),
                            None, Some(ConfirmLink(origin, mentorToken)));
      var jobs := [CompletionPrompt(b.id, eta), SendEmail(toMentee), SendEmail(toMentor)];
      assert jobs[..2] == [CompletionPrompt(b.id, eta), SendEmail(toMentee)];
      assert jobs[..1] == [CompletionPrompt(b.id, eta)];
      Step(Store(st.bookings + [b], st.nextId + 1), BookingCreated, jobs)
  }

  /** `confirm_session_view`: the expiry check comes before the
      already-confirmed check; only a live token on an unconfirmed booking
      confirms it, stamps `confirmed_at` and queues one email to the mentee. */
  function Confirm(st: Store, token: string, now: Instant, cfg: Config): (r: Step)
    ensures Get(st.bookings, ByMentorToken(token)) == NotFound ==> r == Step(st, LinkNotFound, [])
    ensures Get(st.bookings, ByMentorToken(token)) == MultipleFound ==> r == Step(st, ServerError, [])
    ensures Get(st.bookings, ByMentorToken(token)).Found? ==>
      var i := Get(st.bookings, ByMentorToken(token)).index;
      var b := st.bookings[i];
      && (!IsTokenValid(b, now) ==> r == Step(st, LinkExpired, []))
      && (IsTokenValid(b, now) && b.mentorConfirmed ==> r == Step(st, AlreadyConfirmed, []))
      && (IsTokenValid(b, now) && !b.mentorConfirmed ==>
            && r.outcome == SessionConfirmed
            && |r.store.bookings| == |st.bookings|
            && var b' := r.store.bookings[i];
            && r.store == Put(st, i, b')
            && b'.mentorConfirmed && b'.confirmedAt == Some(now)
            && b'.(mentorConfirmed := false, confirmedAt := b.confirmedAt) == b
            && |r.jobs| == 1 && MailsTo(r.jobs[0], [b.email]))
  {
    match Get(st.bookings, ByMentorToken(token))
    case NotFound => Step(st, LinkNotFound, [])
    case MultipleFound => Step(st, ServerError, [])
    case Found(i) =>
      var b := st.bookings[i];
      if !IsTokenValid(b, now) then Step(st, LinkExpired, [])
      else if b.mentorConfirmed then Step(st, AlreadyConfirmed, [])
      else
        var b' := b.(mentorConfirmed := true, confirmedAt := Some(now));
        var notice := Email(SessionConfirmedSubject, [b.email], Some(cfg.defaultFromEmail), None, None);
        Step(Put(st, i, b'), SessionConfirmed, [SendEmail(notice)])
  }

  /** `complete_session_view`: the same two guards, in the same order, over
      the completion token; success marks the session completed at `now`
      and sends nothing. */
  function Complete(st: Store, token: string, now: Instant): (r: Step)
    ensures r.jobs == []
    ensures Get(st.bookings, ByCompletionToken(token)) == NotFound ==> r == Step(st, LinkNotFound, [])
    ensures Get(st.bookings, ByCompletionToken(token)) == MultipleFound ==> r == Step(st, ServerError, [])
    ensures Get(st.bookings, ByCompletionToken(token)).Found? ==>
      var i := Get(st.bookings, ByCompletionToken(token)).index;
      var b := st.bookings[i];
      && (!IsTokenValid(b, now) ==> r == Step(st, LinkExpired, []))
      && (IsTokenValid(b, now) && b.sessionCompleted ==> r == Step(st, AlreadyCompleted, []))
      && (IsTokenValid(b, now) && !b.sessionCompleted ==>
            && r.outcome == CompletionRecorded
            && |r.store.bookings| == |st.bookings|
            && var b' := r.store.bookings[i];
            && r.store == Put(st, i, b')
            && b'.sessionCompleted && b'.completedAt == Some(now)
            && b'.(sessionCompleted := false, completedAt := b.completedAt) == b)
  {
    match Get(st.bookings, ByCompletionToken(token))
    case NotFound => Step(st, LinkNotFound, [])
    case MultipleFound => Step(st, ServerError, [])
    case Found(i) =>
      var b := st.bookings[i];
      if !IsTokenValid(b, now) then Step(st, LinkExpired, [])
      else if b.sessionCompleted then Step(st, AlreadyCompleted, [])
      else Step(Put(st, i, b.(sessionCompleted := true, completedAt := Some(now))), CompletionRecorded, [])
  }

  /** `mark_session_held`: no expiry and no repeat guard; the booking found by
      its completion token is marked held and completed at `now`. */
  function MarkHeld(st: Store, token: string, now: Instant): (r: Step)
    ensures r.jobs == []
    ensures Get(st.bookings, ByCompletionToken(token)) == NotFound ==> r == Step(st, LinkNotFound, [])
    ensures Get(st.bookings, ByCompletionToken(token)) == MultipleFound ==> r == Step(st, ServerError, [])
    ensures Get(st.bookings, ByCompletionToken(token)).Found? ==>
      var i := Get(st.bookings, ByCompletionToken(token)).index;
      var b := st.bookings[i];
      && r.outcome == HeldRecorded
      && |r.store.bookings| == |st.bookings|
      && var b' := r.store.bookings[i];
      && r.store == Put(st, i, b')
      && b'.sessionHeld == Some(true) && b'.sessionCompleted && b'.completedAt == Some(now)
      && b'.(sessionHeld := b.sessionHeld, sessionCompleted := b.sessionCompleted,
             completedAt := b.completedAt) == b
  {
    match Get(st.bookings, ByCompletionToken(token))
    case NotFound => Step(st, LinkNotFound, [])
    case MultipleFound => Step(st, ServerError, [])
    case Found(i) =>
      var b := st.bookings[i];
      var b' := b.(sessionHeld := Some(true), sessionCompleted := true, completedAt := Some(now));
      Step(Put(st, i, b'), HeldRecorded, [])
  }

  /** `mark_session_not_held`: unguarded as well; it marks the session not held,
      clears the completed flag and still stamps `completed_at`. */
  function MarkNotHeld(st: Store, token: string, now: Instant): (r: Step)
    ensures r.jobs == []
    ensures Get(st.bookings, ByCompletionToken(token)) == NotFound ==> r == Step(st, LinkNotFound, [])
    ensures Get(st.bookings, ByCompletionToken(token)) == MultipleFound ==> r == Step(st, ServerError, [])
    ensures Get(st.bookings, ByCompletionToken(token)).Found? ==>
      var i := Get(st.bookings, ByCompletionToken(token)).index;
      var b := st.bookings[i];
      && r.outcome == NotHeldRecorded
      && |r.store.bookings| == |st.bookings|
      && var b' := r.store.bookings[i];
      && r.store == Put(st, i, b')
      && b'.sessionHeld == Some(false) && !b'.sessionCompleted && b'.completedAt == Some(now)
      && b'.(sessionHeld := b.sessionHeld, sessionCompleted := b.sessionCompleted,
             completedAt := b.completedAt) == b
  {
    match Get(st.bookings, ByCompletionToken(token))
    case NotFound => Step(st, LinkNotFound, [])
    case MultipleFound => Step(st, ServerError, [])
    case Found(i) =>
      var b := st.bookings[i];
      var b' := b.(sessionHeld := Some(false), sessionCompleted := false, completedAt := Some(now));
      Step(Put(st, i, b'), NotHeldRecorded, [])
  }
}
