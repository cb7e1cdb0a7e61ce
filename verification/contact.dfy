/**
 * The contact form of core/views.py (`send_message` on a POST): a message is
 * refused when a field is missing or when the same address sent the same
 * text in the last five minutes; otherwise it is stored and two emails are
 * queued, one to the sender and one to the site's mailbox.
 */
module Contact {
  import opened Common
  import opened Text
  import opened Mail

  datatype ContactMessage = ContactMessage(fullName: string, email: string, message: string, createdAt: Instant)

  const DuplicateWindow: int := 5 * Minute
  const ThanksSubject: string := "Thank you for contacting us"
  const AlertSubjectPrefix: string := "New contact message from "

  /** The widths of the `full_name` column and of `EmailField`'s default;
      the message is a text column without a limit. */
  const FullNameWidth: nat := 100
  const EmailWidth: nat := 254

  /** `Crashed` is the server error raised when the name has no word to greet;
      `ValueTooLong` is the data error PostgreSQL raises when the name or the
      address runs past its column with something other than spaces. */
  datatype ContactOutcome = MissingFields | Duplicate | Accepted | Crashed | ValueTooLong

  datatype ContactStep = ContactStep(messages: seq<ContactMessage>, outcome: ContactOutcome, jobs: seq<Job>)

  /** `m` repeats `(email, message)` and was stored no earlier than five minutes before `now`. */
  predicate IsRecentCopy(m: ContactMessage, email: string, message: string, now: Instant) {
    m.email == email && m.message == message && m.createdAt >= now - DuplicateWindow
  }

  predicate HasRecentCopy(msgs: seq<ContactMessage>, email: string, message: string, now: Instant) {
    exists k :: 0 <= k < |msgs| && IsRecentCopy(msgs[k], email, message, now)
  }

  predicate AllGiven(fullName: Option<string>, email: Option<string>, message: Option<string>) {
    Truthy(fullName) && Truthy(email) && Truthy(message)
  }

  predicate FitsColumns(fullName: string, email: string) {
    FitsWidth(fullName, FullNameWidth) && FitsWidth(email, EmailWidth)
  }

  /** The stored row, with the name and address as their columns hold them,
      and the two queued emails of an accepted message, which carry the
      values as posted. */
  function Accept(msgs: seq<ContactMessage>, fullName: string, email: string, message: string,
                  now: Instant, cfg: Config): (r: ContactStep)
    ensures r.outcome == Accepted
    ensures r.messages ==
      msgs + [ContactMessage(StoredAs(fullName, FullNameWidth), StoredAs(email, EmailWidth), message, now)]
    ensures |r.jobs| == 2 && EmailCount(r.jobs) == 2
    ensures MailsTo(r.jobs[0], [email]) && MailsTo(r.jobs[1], [cfg.emailHostUser])
    ensures r.jobs[1].email.subject == AlertSubjectPrefix + fullName
  {
    var thanks := Email(ThanksSubject, [email], Some(cfg.defaultFromEmail), None, None);
    var alert := Email(AlertSubjectPrefix + fullName, [cfg.emailHostUser], Some(cfg.defaultFromEmail), None, None);
    var jobs := [SendEmail(thanks), SendEmail(alert)];
    assert jobs[..1] == [SendEmail(thanks)];
    var row := ContactMessage(StoredAs(fullName, FullNameWidth), StoredAs(email, EmailWidth), message, now);
    ContactStep(msgs + [row], Accepted, jobs)
  }

  /** `send_message` as written: the first word of the name is taken after the
      duplicate check, so a name made only of whitespace passes the guard and
      then fails; the row is saved next, unvalidated, so a value that runs
      past its column with anything but spaces fails there. Only an accepted message changes the table or
      queues mail. */
  function SendMessage(msgs: seq<ContactMessage>, fullName: Option<string>, email: Option<string>,
                       message: Option<string>, now: Instant, cfg: Config): (r: ContactStep)
    ensures r.outcome != Accepted ==> r.messages == msgs && r.jobs == []
    ensures r.outcome == MissingFields <==> !AllGiven(fullName, email, message)
    ensures r.outcome == Duplicate <==>
      AllGiven(fullName, email, message) && HasRecentCopy(msgs, email.value, message.value, now)
    ensures r.outcome == Crashed <==>
      && AllGiven(fullName, email, message)
      && !HasRecentCopy(msgs, email.value, message.value, now)
      && IsBlank(fullName.value)
    ensures r.outcome == ValueTooLong <==>
      && AllGiven(fullName, email, message)
      && !HasRecentCopy(msgs, email.value, message.value, now)
      && !IsBlank(fullName.value)
      && !FitsColumns(fullName.value, email.value)
    ensures r.outcome == Accepted ==>
      r == Accept(msgs, fullName.value, email.value, message.value, now, cfg)
  {
    if !AllGiven(fullName, email, message) then ContactStep(msgs, MissingFields, [])
    else if HasRecentCopy(msgs, email.value, message.value, now) then ContactStep(msgs, Duplicate, [])
    else if IsBlank(fullName.value) then ContactStep(msgs, Crashed, [])
    else if !FitsColumns(fullName.value, email.value) then ContactStep(msgs, ValueTooLong, [])
    else Accept(msgs, fullName.value, email.value, message.value, now, cfg)
  }

  /** A name of 101 characters passes every check of the view and is then
      refused by the 100-character column. */
  lemma LongNameIsRefused(cfg: Config)
    ensures var name := seq(FullNameWidth + 1, _ => 'a');
      SendMessage([], Some(name), Some("a@example.com"), Some("hello"), 0, cfg).outcome == ValueTooLong
  {
    var name := seq(FullNameWidth + 1, _ => 'a');
    assert !IsSpace(name[0]);
    assert name[FullNameWidth] != ' ';
  }

  /** A name padded with spaces past its column is accepted, and the table
      keeps it cut to the width. */
  lemma PaddedNameIsCut(cfg: Config)
    ensures var name := "Bob" + seq(98, _ => ' ');
      var r := SendMessage([], Some(name), Some("a@example.com"), Some("hello"), 0, cfg);
      r.outcome == Accepted && r.messages[0].fullName == "Bob" + seq(97, _ => ' ')
  {
    var name := "Bob" + seq(98, _ => ' ');
    assert !IsSpace(name[0]);
    assert FitsWidth(name, FullNameWidth);
    assert name[..FullNameWidth] == "Bob" + seq(97, _ => ' ');
  }

  /** A name of three spaces gets past the guard and ends in a server error. */
  lemma WhitespaceNameCrashes(cfg: Config)
    ensures SendMessage([], Some("   "), Some("a@example.com"), Some("hello"), 0, cfg).outcome == Crashed
  {
  }

  /** `send_message` as evidently intended: a name without a word is reported
      like a missing field instead of failing on its first word. */
  function SendMessageCorrected(msgs: seq<ContactMessage>, fullName: Option<string>, email: Option<string>,
                                message: Option<string>, now: Instant, cfg: Config): (r: ContactStep)
    ensures r.outcome != Crashed
    ensures r.outcome != Accepted ==> r.messages == msgs && r.jobs == []
    ensures SendMessage(msgs, fullName, email, message, now, cfg).outcome == Crashed ==>
      r == ContactStep(msgs, MissingFields, [])
    ensures SendMessage(msgs, fullName, email, message, now, cfg).outcome != Crashed ==>
      r == SendMessage(msgs, fullName, email, message, now, cfg)
  {
    var r := SendMessage(msgs, fullName, email, message, now, cfg);
    if r.outcome == Crashed then ContactStep(msgs, MissingFields, []) else r
  }

  /** Sending the same text from the same address again within five minutes
      is refused: nothing is stored and no email is queued. This needs the
      address to fit its column as posted (`PaddedAddressEscapesDuplicate`). */
  lemma ResendWithinWindowIsDuplicate(msgs: seq<ContactMessage>, fullName: Option<string>,
                                      fullName': Option<string>, email: Option<string>,
                                      message: Option<string>, now: Instant, later: Instant, cfg: Config)
    requires SendMessage(msgs, fullName, email, message, now, cfg).outcome == Accepted
    requires now <= later <= now + DuplicateWindow
    requires Truthy(fullName')
    requires |email.value| <= EmailWidth
    ensures var st := SendMessage(msgs, fullName, email, message, now, cfg).messages;
      SendMessage(st, fullName', email, message, later, cfg) == ContactStep(st, Duplicate, [])
  {
    var st := SendMessage(msgs, fullName, email, message, now, cfg).messages;
    assert IsRecentCopy(st[|msgs|], email.value, message.value, later);
  }

  /** After the window the same message is accepted again, provided no other
      copy falls inside the window at the time of the resend. */
  lemma ResendAfterWindowIsAccepted(msgs: seq<ContactMessage>, fullName: Option<string>,
                                    email: Option<string>, message: Option<string>,
                                    now: Instant, later: Instant, cfg: Config)
    requires SendMessage(msgs, fullName, email, message, now, cfg).outcome == Accepted
    requires later > now + DuplicateWindow
    requires !HasRecentCopy(msgs, email.value, message.value, later)
    ensures var st := SendMessage(msgs, fullName, email, message, now, cfg).messages;
      var again := SendMessage(st, fullName, email, message, later, cfg);
      again.outcome == Accepted && |again.messages| == |st| + 1 && EmailCount(again.jobs) == 2
  {
    var st := SendMessage(msgs, fullName, email, message, now, cfg).messages;
    assert !IsRecentCopy(st[|msgs|], email.value, message.value, later);
    assert forall k :: 0 <= k < |msgs| ==> st[k] == msgs[k];
  }

  /** An address padded with spaces past its column is stored cut, so the
      duplicate check, which compares the address as posted, never matches
      it: the same message is accepted again at once. */
  lemma PaddedAddressEscapesDuplicate(msgs: seq<ContactMessage>, fullName: Option<string>,
                                      email: Option<string>, message: Option<string>,
                                      now: Instant, later: Instant, cfg: Config)
    requires SendMessage(msgs, fullName, email, message, now, cfg).outcome == Accepted
    requires |email.value| > EmailWidth
    requires now <= later
    ensures var st := SendMessage(msgs, fullName, email, message, now, cfg).messages;
      SendMessage(st, fullName, email, message, later, cfg).outcome == Accepted
  {
    var st := SendMessage(msgs, fullName, email, message, now, cfg).messages;
    forall k | 0 <= k < |st|
      ensures !IsRecentCopy(st[k], email.value, message.value, later)
    {
      if k < |msgs| {
        assert st[k] == msgs[k];
        assert !IsRecentCopy(msgs[k], email.value, message.value, now);
      } else {
        assert |st[k].email| <= EmailWidth;
      }
    }
  }
}
