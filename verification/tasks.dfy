/**
 * The task bodies of DNarai/tasks.py and the retry budget both share
 * (`max_retries=3`). One run of a task body is an `Attempt`: it sends one
 * message, returns without sending, or raises before sending. Whether a send
 * succeeds is an oracle: `outcomes[k]` says how the SMTP call of the k-th
 * attempt ended (an attempt beyond the oracle's end fails). A failed attempt
 * is retried until the budget is spent.
 */
module Tasks {
  import opened Common
  import opened Mail
  import opened Sessions
  import opened Bookings

  const MaxRetries: nat := 3
  const PlainTextFallback: string := "This is an HTML email. Please use a compatible email client."
  const CompletionSubject: string := "Please Confirm Your Session Completion"
  const CompletionPath: string := "/complete-session/"

  /** What reaches the mail backend: the HTML part is not modelled. */
  datatype Message = Message(subject: string, text: string, sender: string, recipients: seq<string>,
                             link: Option<string>)

  datatype Attempt =
    | Send(message: Message)
    /** The body returned without sending; no retry. */
    | Return
    /** The body raised before sending; the task retries. */
    | Fail

  /** The result of a task: the attempts made, the messages handed to the
      backend (one per attempt that reached `send`), and whether the task
      ended without an exception. */
  datatype Run = Run(attempts: nat, sent: seq<Message>, completed: bool)

  // ---------------------------------------------------------------------------
  // send_email_task
  // ---------------------------------------------------------------------------

  /** The message `send_email_task` builds: a falsy sender becomes
      `DEFAULT_FROM_EMAIL` and a falsy plain text the fixed fallback. */
  function MessageOf(e: Email, cfg: Config): (m: Message)
    ensures m.subject == e.subject && m.recipients == e.recipients && m.link == e.link
    ensures Truthy(e.sender) ==> m.sender == e.sender.value
    ensures !Truthy(e.sender) ==> m.sender == cfg.defaultFromEmail
    ensures Truthy(e.text) ==> m.text == e.text.value
    ensures !Truthy(e.text) ==> m.text == PlainTextFallback
  {
    var sender := if Truthy(e.sender) then e.sender.value else cfg.defaultFromEmail;
    var text := if Truthy(e.text) then e.text.value else PlainTextFallback;
    Message(e.subject, text, sender, e.recipients, e.link)
  }

  /** Feeding a built message back through the task changes nothing: the
      defaults are applied once. */
  lemma DefaultsAreStable(e: Email, cfg: Config)
    requires cfg.defaultFromEmail != ""
    ensures var m := MessageOf(e, cfg);
      MessageOf(Email(m.subject, m.recipients, Some(m.sender), Some(m.text), m.link), cfg) == m
  {
  }

  /** One run of `send_email_task`'s body: it always reaches the send. */
  function SendEmailAttempt(e: Email, cfg: Config): Attempt {
    Send(MessageOf(e, cfg))
  }

  // ---------------------------------------------------------------------------
  // Retries
  // ---------------------------------------------------------------------------

  /** Attempt `k` ends the task: the body returned, or its send succeeded. */
  predicate Finishes(a: Attempt, outcomes: seq<bool>, k: nat) {
    a.Return? || (a.Send? && k < |outcomes| && outcomes[k])
  }

  function FirstFinishFrom(a: Attempt, outcomes: seq<bool>, k: nat): (r: Option<nat>)
    requires k <= MaxRetries + 1
    ensures r.Some? ==> k <= r.value <= MaxRetries && Finishes(a, outcomes, r.value)
    ensures r.Some? ==> forall j :: k <= j < r.value ==> !Finishes(a, outcomes, j)
    ensures r.None? ==> forall j :: k <= j <= MaxRetries ==> !Finishes(a, outcomes, j)
    decreases MaxRetries + 1 - k
  {
    if k > MaxRetries then None
    else if Finishes(a, outcomes, k) then Some(k)
    else FirstFinishFrom(a, outcomes, k + 1)
  }

  /** The first attempt within the budget that ends the task. */
  function FirstFinish(a: Attempt, outcomes: seq<bool>): (r: Option<nat>)
    ensures r.Some? ==> r.value <= MaxRetries && Finishes(a, outcomes, r.value)
    ensures r.Some? ==> forall j :: 0 <= j < r.value ==> !Finishes(a, outcomes, j)
    ensures r.None? <==> forall j :: 0 <= j <= MaxRetries ==> !Finishes(a, outcomes, j)
  {
    FirstFinishFrom(a, outcomes, 0)
  }

  /** The messages of `n` attempts of `a`. */
  function SentBy(a: Attempt, n: nat): (s: seq<Message>)
    ensures a.Send? ==> |s| == n && forall i :: 0 <= i < n ==> s[i] == a.message
    ensures !a.Send? ==> s == []
  {
    if a.Send? then seq(n, _ => a.message) else []
  }

  /** The run of a task as a reference definition: it stops at the first
      attempt that finishes, or after one attempt plus three retries. */
  function Outcome(a: Attempt, outcomes: seq<bool>): (r: Run)
    ensures 1 <= r.attempts <= MaxRetries + 1
    ensures r.completed <==> exists k :: 0 <= k <= MaxRetries && Finishes(a, outcomes, k)
    ensures r.completed ==> Finishes(a, outcomes, r.attempts - 1)
    ensures forall k :: 0 <= k < r.attempts - 1 ==> !Finishes(a, outcomes, k)
    ensures !r.completed ==> r.attempts == MaxRetries + 1
    ensures r.sent == SentBy(a, r.attempts)
  {
    match FirstFinish(a, outcomes)
    case Some(k) => Run(k + 1, SentBy(a, k + 1), true)
    case None => Run(MaxRetries + 1, SentBy(a, MaxRetries + 1), false)
  }

  /** The worker loop: run the body, retry while it fails and the budget
      lasts. */
  method Execute(a: Attempt, outcomes: seq<bool>) returns (r: Run)
    ensures r == Outcome(a, outcomes)
    ensures r.attempts <= MaxRetries + 1
    ensures |r.sent| <= r.attempts
  {
    var k: nat := 0;
    var sent: seq<Message> := [];
    var finished := false;
    while k <= MaxRetries && !finished
      invariant k <= MaxRetries + 1
      invariant sent == SentBy(a, k)
      invariant !finished ==> forall j :: 0 <= j < k ==> !Finishes(a, outcomes, j)
      invariant finished ==>
        && 1 <= k && Finishes(a, outcomes, k - 1)
        && forall j :: 0 <= j < k - 1 ==> !Finishes(a, outcomes, j)
      decreases MaxRetries + 1 - k
    {
      if a.Send? {
        sent := sent + [a.message];
      }
      finished := Finishes(a, outcomes, k);
      k := k + 1;
    }
    r := Run(k, sent, finished);
    if finished {
      assert FirstFinish(a, outcomes) == Some(k - 1);
    } else {
      assert FirstFinish(a, outcomes) == None;
    }
  }

  /** A body that always raises is retried out: four attempts, no message. */
  lemma FailingBodyIsRetriedOut(outcomes: seq<bool>)
    ensures Outcome(Fail, outcomes) == Run(MaxRetries + 1, [], false)
  {
  }

  /** A generic email is handed to the backend once per attempt, and it is
      delivered exactly when one of the four attempts succeeds. */
  lemma SendEmailTaskDelivers(e: Email, cfg: Config, outcomes: seq<bool>)
    ensures var r := Outcome(SendEmailAttempt(e, cfg), outcomes);
      && (r.completed <==> exists k :: 0 <= k <= MaxRetries && k < |outcomes| && outcomes[k])
      && |r.sent| == r.attempts
      && forall i :: 0 <= i < |r.sent| ==> r.sent[i] == MessageOf(e, cfg) && r.sent[i].recipients == e.recipients
  {
  }

  // ---------------------------------------------------------------------------
  // send_session_completion_email
  // ---------------------------------------------------------------------------

  function ById(id: nat): Booking -> bool {
    (b: Booking) => b.id == id
  }

  /** An optional token as an f-string renders it: absent reads "None". */
  function TokenText(t: Option<string>): string {
    t.GetOr("None")
  }

  /** The completion link on `site`: the completion path, then the booking's
      completion token as one path segment, then a closing '/'. */
  function CompletionLink(site: string, b: Booking): (link: string)
    ensures |link| == |site| + |CompletionPath| + |TokenText(b.completionToken)| + 1
    ensures link[..|site|] == site
    ensures link[|site|..|site| + |CompletionPath|] == CompletionPath
    ensures link[|site| + |CompletionPath|..|link| - 1] == TokenText(b.completionToken)
    ensures link[|link| - 1] == '/'
  {
    var link := site + CompletionPath + TokenText(b.completionToken) + "/";
    assert link == site + (CompletionPath + TokenText(b.completionToken) + "/");
    link
  }

  function CompletionMessage(site: string, b: Booking, cfg: Config): (m: Message)
    ensures m.subject == CompletionSubject && m.sender == cfg.defaultFromEmail
    ensures m.recipients == [b.email]
    ensures m.link == Some(CompletionLink(site, b))
  {
    var link := CompletionLink(site, b);
    Message(CompletionSubject, "Hi " + b.fullName + ", please confirm your session here: " + link,
            cfg.defaultFromEmail, [b.email], Some(link))
  }

  /** One attempt of the completion prompt with the site address `site`
      (absent when the setting is missing): an unknown booking is logged and
      the task returns; a booking without email returns; a missing setting
      raises, which the task retries; otherwise one message to the booking's
      address carries its completion link. */
  function CompletionAttemptWith(bookings: seq<Booking>, id: nat, site: Option<string>, cfg: Config)
    : (a: Attempt)
    ensures Get(bookings, ById(id)) == NotFound ==> a == Return
    ensures Get(bookings, ById(id)).Found? ==>
      var b := bookings[Get(bookings, ById(id)).index];
      && (b.email == "" ==> a == Return)
      && (b.email != "" && site.None? ==> a == Fail)
      && (b.email != "" && site.Some? ==> a == Send(CompletionMessage(site.value, b, cfg)))
    ensures a.Send? ==>
      && site.Some? && Get(bookings, ById(id)).Found?
      && a == Send(CompletionMessage(site.value, bookings[Get(bookings, ById(id)).index], cfg))
  {
    match Get(bookings, ById(id))
    case NotFound => Return
    case MultipleFound => Fail
    case Found(i) =>
      var b := bookings[i];
      if b.email == "" then Return
      else if site.None? then Fail
      else Send(CompletionMessage(site.value, b, cfg))
  }

  /** `send_session_completion_email` as written reads `settings.SITE_URL`. */
  function CompletionAttempt(bookings: seq<Booking>, id: nat, cfg: Config): (a: Attempt)
    ensures Get(bookings, ById(id)) == NotFound ==> a == Return
    ensures a.Send? ==>
      && cfg.siteUrl.Some? && a.message.link.Some?
      && |a.message.link.value| > |cfg.siteUrl.value|
      && a.message.link.value[..|cfg.siteUrl.value|] == cfg.siteUrl.value
  {
    CompletionAttemptWith(bookings, id, cfg.siteUrl, cfg)
  }

  /** Since the settings never define `SITE_URL`, every attempt for a booking
      with an email raises: the prompt is retried four times and never sent. */
  lemma MissingSiteUrlNeverSends(bookings: seq<Booking>, i: nat, cfg: Config, outcomes: seq<bool>)
    requires cfg.siteUrl.None?
    requires i < |bookings| && bookings[i].email != ""
    requires forall j :: 0 <= j < |bookings| && j != i ==> bookings[j].id != bookings[i].id
    ensures Outcome(CompletionAttempt(bookings, bookings[i].id, cfg), outcomes)
         == Run(MaxRetries + 1, [], false)
  {
    assert ById(bookings[i].id)(bookings[i]);
  }

  /** The completion prompt as evidently intended: the link is built on
      `BASE_URL`, which the settings define. */
  function CompletionAttemptCorrected(bookings: seq<Booking>, id: nat, cfg: Config): (a: Attempt)
    ensures a != Fail || Get(bookings, ById(id)) == MultipleFound
    ensures Get(bookings, ById(id)) == NotFound ==> a == Return
  {
    CompletionAttemptWith(bookings, id, Some(cfg.baseUrl), cfg)
  }

  /** On a valid table the corrected prompt for a booking with an email is
      sent once per attempt to that address alone, and its link carries the
      booking's completion token, which looks up that same booking. */
  lemma CorrectedPromptReachesMentee(st: Store, i: nat, token: string, cfg: Config, outcomes: seq<bool>)
    requires Valid(st) && i < |st.bookings|
    requires st.bookings[i].email != "" && st.bookings[i].completionToken == Some(token)
    ensures var a := CompletionAttemptCorrected(st.bookings, st.bookings[i].id, cfg);
      && a == Send(CompletionMessage(cfg.baseUrl, st.bookings[i], cfg))
      && a.message.recipients == [st.bookings[i].email]
      && a.message.link == Some(cfg.baseUrl + CompletionPath + token + "/")
      && Get(st.bookings, ByCompletionToken(token)) == Found(i)
      && Outcome(a, outcomes).sent == SentBy(a, Outcome(a, outcomes).attempts)
  {
    var bs := st.bookings;
    assert ById(bs[i].id)(bs[i]);
    assert forall j :: 0 <= j < |bs| && ById(bs[i].id)(bs[j]) ==> j == i by {
      forall j | 0 <= j < |bs| && ById(bs[i].id)(bs[j])
        ensures j == i
      {
      }
    }
    assert Get(bs, ById(bs[i].id)) == Found(i);
    assert ByCompletionToken(token)(bs[i]);
    assert forall j :: 0 <= j < |bs| && ByCompletionToken(token)(bs[j]) ==> j == i by {
      forall j | 0 <= j < |bs| && ByCompletionToken(token)(bs[j])
        ensures j == i
      {
      }
    }
    assert Get(bs, ByCompletionToken(token)) == Found(i);
  }
}
