/**
 * Whole flows across the modules: the mentor link a new booking emails out
 * routes back to the booking it was made for and confirms it once; a new
 * account's emailed token verifies it within fifteen minutes.
 */
module Scenarios {
  import opened Common
  import opened Mail
  import opened Sessions
  import opened Bookings
  import opened Users
  import opened AccountViews
  import BookingLemmas

  /** `uuid4().hex`: thirty-two lower-case hex digits. */
  predicate IsHexToken(t: string) {
    |t| == 32 && forall i :: 0 <= i < |t| ==> ('0' <= t[i] <= '9') || ('a' <= t[i] <= 'f')
  }

  /** The `<str:token>` segment of `confirm-session/<str:token>/` in a link
      on `origin`: a non-empty segment without '/'. */
  function RouteToken(origin: string, url: string): (t: Option<string>)
    ensures t.Some? ==> ConfirmLink(origin, t.value) == url && t.value != [] && '/' !in t.value
  {
    var head := origin + ConfirmPathPrefix;
    if |url| > |head| + 1 && url[..|head|] == head && url[|url| - 1] == '/' then
      var seg := url[|head|..|url| - 1];
      if '/' in seg then None
      else
        assert url == head + seg + "/";
        Some(seg)
    else None
  }

  /** The emailed link routes back to the token it was built from. */
  lemma RouteTokenOfLink(origin: string, t: string)
    requires t != [] && '/' !in t
    ensures RouteToken(origin, ConfirmLink(origin, t)) == Some(t)
  {
    var head := origin + ConfirmPathPrefix;
    var url := ConfirmLink(origin, t);
    assert url == head + t + "/";
    assert url[..|head|] == head;
    assert url[|head|..|url| - 1] == t;
  }

  lemma HexTokenRoutes(t: string)
    requires IsHexToken(t)
    ensures t != [] && '/' !in t
  {
  }

  /** The mentor invite of a new booking carries a link whose token confirms
      that booking while the 48-hour window is open, sends the mentee one
      email, and a second visit is "already confirmed". */
  lemma {:induction false} InviteLinkConfirmsOnce(st: Store, req: BookingRequest, now: Instant, later: Instant,
                                                  again: Instant, origin: string, mentorToken: string,
                                                  completionToken: string, cfg: Config)
    requires Bookings.Valid(st)
    requires IsFreshToken(st, mentorToken) && IsFreshToken(st, completionToken)
    requires IsHexToken(mentorToken) && mentorToken != completionToken
    requires now <= later <= now + TokenValidityHours * Hour
    requires later <= again <= now + TokenValidityHours * Hour
    ensures var created := Create(st, Some(req), now, origin, mentorToken, completionToken, cfg);
      var token := RouteToken(origin, created.jobs[2].email.link.value);
      && token == Some(mentorToken)
      && var confirmed := Confirm(created.store, token.value, later, cfg);
      && confirmed.outcome == SessionConfirmed
      && confirmed.store.bookings[|st.bookings|].mentorConfirmed
      && |confirmed.jobs| == 1 && MailsTo(confirmed.jobs[0], [req.email])
      && Confirm(confirmed.store, token.value, again, cfg) == Step(confirmed.store, AlreadyConfirmed, [])
  {
    var created := Create(st, Some(req), now, origin, mentorToken, completionToken, cfg);
    HexTokenRoutes(mentorToken);
    RouteTokenOfLink(origin, mentorToken);
    var n := |st.bookings|;
    var bs := created.store.bookings;
    assert ByMentorToken(mentorToken)(bs[n]);
    forall j | 0 <= j < |bs| && ByMentorToken(mentorToken)(bs[j])
      ensures j == n
    {
    }
    assert Get(bs, ByMentorToken(mentorToken)) == Found(n);
    var confirmed := Confirm(created.store, mentorToken, later, cfg);
    assert IsTokenValid(bs[n], later);
    assert ByMentorToken(mentorToken)(confirmed.store.bookings[n]);
    BookingLemmas.ConfirmIsSingleUse(created.store, mentorToken, later, again, cfg);
  }

  /** An unused, unexpired token whose value no other row carries, owned by
      the one user with its id, verifies that user. */
  lemma VerifyOwnedToken(acc: Accounts, n: nat, m: nat, later: Instant)
    requires n < |acc.tokens| && m < |acc.users|
    requires !acc.tokens[n].used && !IsExpired(acc.tokens[n], later)
    requires forall k :: 0 <= k < |acc.tokens| && k != n ==> acc.tokens[k].token != acc.tokens[n].token
    requires acc.users[m].id == acc.tokens[n].userId
    requires forall k :: 0 <= k < |acc.users| && k != m ==> acc.users[k].id != acc.users[m].id
    ensures VerifyEmail(acc, acc.tokens[n].token, later).1 == AccountVerified
    ensures VerifyEmail(acc, acc.tokens[n].token, later).0.users == acc.users[m := acc.users[m].(isActive := true)]
  {
    var t := acc.tokens[n];
    assert ByUnusedToken(t.token)(acc.tokens[n]);
    assert Get(acc.tokens, ByUnusedToken(t.token)) == Found(n);
    assert ByUserId(t.userId)(acc.users[m]);
    assert Get(acc.users, ByUserId(t.userId)) == Found(m);
  }

  /** Appending a user with a fresh key and a fresh unused token for it, on
      a valid store, makes that token verify the new user. */
  lemma VerifyAppended(acc: Accounts, accounts: Accounts, u: User, t: VerificationToken, later: Instant)
    requires Users.Valid(acc)
    requires accounts.users == acc.users + [u] && accounts.tokens == acc.tokens + [t]
    requires u.id == acc.nextUserId && t.userId == u.id && !t.used && !IsExpired(t, later)
    requires forall i :: 0 <= i < |acc.tokens| ==> acc.tokens[i].token != t.token
    ensures VerifyEmail(accounts, t.token, later).1 == AccountVerified
    ensures VerifyEmail(accounts, t.token, later).0.users == acc.users + [u.(isActive := true)]
  {
    var n, m := |acc.tokens|, |acc.users|;
    assert forall k :: 0 <= k < |accounts.tokens| && k != n ==> accounts.tokens[k] == acc.tokens[k];
    assert forall k :: 0 <= k < |accounts.users| && k != m ==> accounts.users[k] == acc.users[k];
    VerifyOwnedToken(accounts, n, m, later);
    assert accounts.users[m := accounts.users[m].(isActive := true)] == acc.users + [u.(isActive := true)];
  }

  /** A signup on a valid store with a fresh token, followed within fifteen
      minutes by the emailed verification link, activates the new account. */
  lemma SignupThenVerify(acc: Accounts, form: SignupForm, now: Instant, later: Instant,
                         rnd: Randomness, cfg: Config)
    requires Users.Valid(acc) && IsRandomness(rnd)
    requires forall i :: 0 <= i < |acc.tokens| ==> acc.tokens[i].token != rnd.token
    requires Signup(acc, false, form, now, rnd, cfg).outcome == VerificationSent
    requires now <= later <= now + VerificationLifetime
    ensures var accounts := Signup(acc, false, form, now, rnd, cfg).accounts;
      && VerifyEmail(accounts, rnd.token, later).1 == AccountVerified
      && VerifyEmail(accounts, rnd.token, later).0.users
         == acc.users + [SignupUser(acc, ChosenUsername(acc.users, form), form).(isActive := true)]
  {
    var accounts := Signup(acc, false, form, now, rnd, cfg).accounts;
    SignupSendsVerification(acc, false, form, now, rnd, cfg);
    var u := SignupUser(acc, ChosenUsername(acc.users, form), form);
    var t := VerificationToken(rnd.token, acc.nextUserId, now, false);
    VerifyAppended(acc, accounts, u, t, later);
  }
}
