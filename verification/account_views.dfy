/**
 * The account flows of accounts/views.py: picking a free username, the
 * availability check, signup, issuing a verification token by email, and
 * consuming it. Randomness (`random.randint`, `uuid4`) arrives as oracle
 * parameters; the verification email is returned rather than sent.
 */
module AccountViews {
  import opened Common
  import opened Text
  import opened Mail
  import opened Users

  /** The usernames stored in the user table. */
  function Usernames(users: seq<User>): set<string> {
    set i | 0 <= i < |users| && users[i].username.Some? :: users[i].username.value
  }

  // ---------------------------------------------------------------------------
  // Usernames
  // ---------------------------------------------------------------------------

  /** The `k`-th candidate `generate_unique_username` tries: the base itself,
      then the base followed by 1, 2, 3, ... */
  function Probe(base: string, k: nat): (name: string)
    ensures k == 0 ==> name == base
    ensures k > 0 ==> |name| > |base| && name[..|base|] == base && name[|base|..] == Decimal(k)
  {
    if k == 0 then base else base + Decimal(k)
  }

  lemma ProbeInjective(base: string, i: nat, j: nat)
    requires Probe(base, i) == Probe(base, j)
    ensures i == j
  {
    if i > 0 && j > 0 {
      DecimalInjective(i, j);
    }
  }

  /** The candidates tried before the `k`-th. */
  function Probed(base: string, k: nat): set<string> {
    set j | 0 <= j < k :: Probe(base, j)
  }

  lemma ProbedStep(base: string, k: nat)
    ensures Probed(base, k + 1) == Probed(base, k) + {Probe(base, k)}
    ensures Probe(base, k) !in Probed(base, k)
  {
    if Probe(base, k) in Probed(base, k) {
      var j :| 0 <= j < k && Probe(base, j) == Probe(base, k);
      ProbeInjective(base, j, k);
    }
  }

  /** `name` is the first free candidate: every earlier one is taken. */
  ghost predicate IsFirstFree(base: string, taken: set<string>, name: string) {
    exists k: nat {:trigger Probe(base, k)} :: name == Probe(base, k) && name !in taken &&
      forall j :: 0 <= j < k ==> Probe(base, j) in taken
  }

  /** Two first-free names for the same base and table are the same name. */
  lemma FirstFreeIsUnique(base: string, taken: set<string>, a: string, b: string)
    requires IsFirstFree(base, taken, a) && IsFirstFree(base, taken, b)
    ensures a == b
  {
    var ka: nat :| a == Probe(base, ka) && a !in taken && forall j :: 0 <= j < ka ==> Probe(base, j) in taken;
    var kb: nat :| b == Probe(base, kb) && b !in taken && forall j :: 0 <= j < kb ==> Probe(base, j) in taken;
  }

  /** The first free candidate from the `k`-th on: a reference definition of
      the counter search. */
  function FirstFreeFrom(base: string, taken: set<string>, k: nat): (name: string)
    requires forall j :: 0 <= j < k ==> Probe(base, j) in taken
    ensures IsFirstFree(base, taken, name)
    decreases taken - Probed(base, k)
  {
    if Probe(base, k) !in taken then Probe(base, k)
    else
      ProbedStep(base, k);
      FirstFreeFrom(base, taken, k + 1)
  }

  function FirstFree(base: string, taken: set<string>): (name: string)
    ensures name !in taken
    ensures base !in taken ==> name == base
    ensures IsFirstFree(base, taken, name)
  {
    FirstFreeFrom(base, taken, 0)
  }

  /** `generate_unique_username`: the slug of the two names if no user has it,
      otherwise the slug followed by the smallest counter that is free. */
  method GenerateUniqueUsername(users: seq<User>, firstName: string, lastName: string)
    returns (username: string)
    ensures username !in Usernames(users)
    ensures IsFirstFree(Slugify(firstName + lastName), Usernames(users), username)
    ensures username == FirstFree(Slugify(firstName + lastName), Usernames(users))
  {
    username := ProbeUntilFree(Slugify(firstName + lastName), Usernames(users));
  }

  /** The counter loop of `generate_unique_username`: try the base, then the
      base with 1, 2, ... appended, until a name is free. */
  method ProbeUntilFree(base: string, taken: set<string>) returns (username: string)
    ensures username !in taken
    ensures username == FirstFree(base, taken)
  {
    username := base;
    var counter: nat := 0;
    while username in taken
      invariant username == Probe(base, counter)
      invariant forall j :: 0 <= j < counter ==> Probe(base, j) in taken
      decreases taken - Probed(base, counter)
    {
      ProbedStep(base, counter);
      assert Probe(base, counter) in taken;
      counter := counter + 1;
      username := base + Decimal(counter);
    }
    FirstFreeIsUnique(base, taken, username, FirstFree(base, taken));
  }

  const SuggestionDraws: nat := 5

  /** One `random.randint(100, 999)` draw per attempt, and the hex digits of a
      fresh uuid for the fallback. */
  predicate IsDrawSequence(draws: seq<int>) {
    |draws| == SuggestionDraws && forall i :: 0 <= i < |draws| ==> 100 <= draws[i] <= 999
  }

  predicate IsHexDigits(s: string) {
    forall i :: 0 <= i < |s| ==> IsDigit(s[i]) || ('a' <= s[i] <= 'f')
  }

  lemma ThreeDigits(n: nat)
    requires 100 <= n <= 999
    ensures |Decimal(n)| == 3
  {
    assert |Decimal(n / 10)| == 2 by {
      assert |Decimal(n / 100)| == 1;
    }
  }

  /** The `i`-th draw gives the first free suggestion: its name is not taken
      and every earlier draw's name is. */
  predicate IsFirstFreeDraw(base: string, taken: set<string>, draws: seq<int>, i: int)
    requires forall j :: 0 <= j < |draws| ==> 100 <= draws[j] <= 999
  {
    && 0 <= i < |draws|
    && base + Decimal(draws[i]) !in taken
    && forall j :: 0 <= j < i ==> base + Decimal(draws[j]) in taken
  }

  /** The suggestion loop over the draws, with the hex fallback after them. */
  function SuggestFrom(base: string, taken: set<string>, draws: seq<int>, hex: string): (name: string)
    requires forall i :: 0 <= i < |draws| ==> 100 <= draws[i] <= 999
    requires |hex| == 6
    ensures name == base + hex <==> forall i :: 0 <= i < |draws| ==> base + Decimal(draws[i]) in taken
    ensures name != base + hex ==>
      exists i :: IsFirstFreeDraw(base, taken, draws, i) && name == base + Decimal(draws[i])
    ensures (exists i :: 0 <= i < |draws| && base + Decimal(draws[i]) !in taken) ==> name !in taken
  {
    if draws == [] then base + hex
    else if base + Decimal(draws[0]) !in taken then
      ThreeDigits(draws[0]);
      assert IsFirstFreeDraw(base, taken, draws, 0);
      base + Decimal(draws[0])
    else
      var rest := draws[1..];
      var name := SuggestFrom(base, taken, rest, hex);
      assert forall i :: 0 <= i < |rest| ==> rest[i] == draws[i + 1];
      FirstFreeDrawShift(base, taken, draws);
      name
  }

  /** Past a taken first draw, the first free draw of the rest is the first
      free draw of all. */
  lemma FirstFreeDrawShift(base: string, taken: set<string>, draws: seq<int>)
    requires forall i :: 0 <= i < |draws| ==> 100 <= draws[i] <= 999
    requires draws != [] && base + Decimal(draws[0]) in taken
    ensures forall i :: IsFirstFreeDraw(base, taken, draws[1..], i) ==> IsFirstFreeDraw(base, taken, draws, i + 1)
  {
    forall i | IsFirstFreeDraw(base, taken, draws[1..], i)
      ensures IsFirstFreeDraw(base, taken, draws, i + 1)
    {
      assert forall j :: 0 < j <= i ==> draws[j] == draws[1..][j - 1];
    }
  }

  /** `suggest_username`: the first of five random three-digit extensions of
      the base that no user has, or else the base followed by six hex digits
      (which is not checked against the table). */
  function SuggestUsername(users: seq<User>, base: string, draws: seq<int>, hex: string): (name: string)
    requires IsDrawSequence(draws) && |hex| == 6 && IsHexDigits(hex)
    ensures name == base + hex <==>
      forall i :: 0 <= i < |draws| ==> base + Decimal(draws[i]) in Usernames(users)
    ensures name != base + hex ==>
      exists i :: IsFirstFreeDraw(base, Usernames(users), draws, i) && name == base + Decimal(draws[i])
    ensures (exists i :: 0 <= i < |draws| && base + Decimal(draws[i]) !in Usernames(users)) ==>
      name !in Usernames(users)
  {
    SuggestFrom(base, Usernames(users), draws, hex)
  }

  /** At most one draw is the first free one, so the suggestion is determined
      by the table and the draws. */
  lemma FirstFreeDrawIsUnique(base: string, taken: set<string>, draws: seq<int>, i: int, j: int)
    requires forall k :: 0 <= k < |draws| ==> 100 <= draws[k] <= 999
    requires IsFirstFreeDraw(base, taken, draws, i) && IsFirstFreeDraw(base, taken, draws, j)
    ensures i == j
  {
  }

  /** The JSON answer of `check_username`. */
  datatype Availability = Availability(available: bool, error: Option<string>)

  const EmptyUsernameError: string := "Username cannot be empty"

  /** `check_username`: the query parameter (default empty) is stripped and
      lower-cased; an empty result is unavailable with an error, any other is
      available exactly when no user has it. */
  function CheckUsername(users: seq<User>, param: Option<string>): (r: Availability)
    ensures Lower(Strip(param.GetOr(""))) == [] <==> r.error.Some?
    ensures r.error.Some? ==> !r.available && r.error.value == EmptyUsernameError
    ensures r.available <==>
      Lower(Strip(param.GetOr(""))) != [] && Lower(Strip(param.GetOr(""))) !in Usernames(users)
  {
    var name := Lower(Strip(param.GetOr("")));
    if name == [] then Availability(false, Some(EmptyUsernameError))
    else Availability(name !in Usernames(users), None)
  }

  // ---------------------------------------------------------------------------
  // Email verification
  // ---------------------------------------------------------------------------

  const VerifySubject: string := "Verify Your Account"
  const VerifyPath: string := "/accounts/verify-email/"

  function VerifyLink(cfg: Config, token: string): string {
    cfg.baseUrl + VerifyPath + token + "/"
  }

  function UnusedOf(userId: nat): VerificationToken -> bool {
    (t: VerificationToken) => t.userId == userId && !t.used
  }

  /** `filter(user=user, is_used=False).last()`: the unused token of the user
      with the highest key. */
  function LastUnused(tokens: seq<VerificationToken>, userId: nat): (r: Option<nat>)
    ensures r.None? <==> forall i :: 0 <= i < |tokens| ==> !UnusedOf(userId)(tokens[i])
    ensures r.Some? ==> r.value < |tokens| && UnusedOf(userId)(tokens[r.value])
    ensures r.Some? ==> forall i :: r.value < i < |tokens| ==> !UnusedOf(userId)(tokens[i])
  {
    var m := Matches(tokens, UnusedOf(userId));
    if m == [] then None
    else
      var k := m[|m| - 1];
      assert forall i :: k < i < |tokens| && UnusedOf(userId)(tokens[i]) ==> i in m;
      Some(k)
  }

  /** The user has an unused token that has not expired at `now`. */
  predicate HasLiveToken(acc: Accounts, userId: nat, now: Instant) {
    var last := LastUnused(acc.tokens, userId);
    last.Some? && !IsExpired(acc.tokens[last.value], now)
  }

  /** `send_verification_email`: nothing happens while the user's last unused
      token is still live; otherwise one new token, created at `now`, is
      stored and one email carrying its link goes to the user. */
  function SendVerification(acc: Accounts, user: User, now: Instant, newToken: string, cfg: Config)
    : (r: (Accounts, seq<Email>))
    ensures r.0.users == acc.users && r.0.nextUserId == acc.nextUserId
    ensures HasLiveToken(acc, user.id, now) ==> r == (acc, [])
    ensures !HasLiveToken(acc, user.id, now) ==>
      && r.0 == acc.(tokens := acc.tokens + [VerificationToken(newToken, user.id, now, false)])
      && |r.1| == 1
      && r.1[0].recipients == [user.email.GetOr("")]
      && r.1[0].subject == VerifySubject
      && r.1[0].link == Some(VerifyLink(cfg, newToken))
  {
    if HasLiveToken(acc, user.id, now) then (acc, [])
    else
      var t := VerificationToken(newToken, user.id, now, false);
      var mail := Email(VerifySubject, [user.email.GetOr("")], Some(cfg.defaultFromEmail), None,
                        Some(VerifyLink(cfg, newToken)));
      (acc.(tokens := acc.tokens + [t]), [mail])
  }

  /** Once a token has been issued, asking again within fifteen minutes of
      the issue neither stores a token nor sends an email. */
  lemma {:induction false} ReissueWithinLifetimeIsNoOp(acc: Accounts, user: User, now: Instant, later: Instant,
                                                      newToken: string, newToken': string, cfg: Config)
    requires SendVerification(acc, user, now, newToken, cfg).1 != []
    requires later - now <= VerificationLifetime
    ensures var acc' := SendVerification(acc, user, now, newToken, cfg).0;
      SendVerification(acc', user, later, newToken', cfg) == (acc', [])
  {
    var acc' := SendVerification(acc, user, now, newToken, cfg).0;
    var n := |acc.tokens|;
    assert UnusedOf(user.id)(acc'.tokens[n]);
    assert LastUnused(acc'.tokens, user.id) == Some(n);
  }

  datatype Verification = InvalidToken | TokenExpired | AccountVerified | VerifyServerError

  function ByUnusedToken(token: string): VerificationToken -> bool {
    (t: VerificationToken) => t.token == token && !t.used
  }

  function ByUserId(id: nat): User -> bool {
    (u: User) => u.id == id
  }

  /** `verify_email`: an unknown or used token is invalid; an expired one
      changes nothing; otherwise the owner becomes active and the token used. */
  function VerifyEmail(acc: Accounts, token: string, now: Instant): (r: (Accounts, Verification))
    ensures r.1 != AccountVerified ==> r.0 == acc
    ensures r.1 == InvalidToken <==> Get(acc.tokens, ByUnusedToken(token)) == NotFound
    ensures r.1 == TokenExpired <==>
      var f := Get(acc.tokens, ByUnusedToken(token));
      f.Found? && IsExpired(acc.tokens[f.index], now)
    ensures r.1 == AccountVerified ==>
      && Get(acc.tokens, ByUnusedToken(token)).Found?
      && var i := Get(acc.tokens, ByUnusedToken(token)).index;
      && Get(acc.users, ByUserId(acc.tokens[i].userId)).Found?
      && var j := Get(acc.users, ByUserId(acc.tokens[i].userId)).index;
      && !IsExpired(acc.tokens[i], now)
      && r.0.users == acc.users[j := acc.users[j].(isActive := true)]
      && r.0.tokens == acc.tokens[i := acc.tokens[i].(used := true)]
      && r.0.nextUserId == acc.nextUserId
  {
    match Get(acc.tokens, ByUnusedToken(token))
    case NotFound => (acc, InvalidToken)
    case MultipleFound => (acc, VerifyServerError)
    case Found(i) =>
      var t := acc.tokens[i];
      if IsExpired(t, now) then (acc, TokenExpired)
      else
        match Get(acc.users, ByUserId(t.userId))
        case Found(j) =>
          var users' := acc.users[j := acc.users[j].(isActive := true)];
          var tokens' := acc.tokens[i := t.(used := true)];
          (acc.(users := users', tokens := tokens'), AccountVerified)
        case _ => (acc, VerifyServerError)
  }

  /** A token verifies an account at most once: presenting it again is invalid. */
  lemma {:induction false} VerifyIsSingleUse(acc: Accounts, token: string, now: Instant, later: Instant)
    requires Valid(acc)
    requires VerifyEmail(acc, token, now).1 == AccountVerified
    ensures VerifyEmail(VerifyEmail(acc, token, now).0, token, later) == (VerifyEmail(acc, token, now).0, InvalidToken)
  {
    var acc' := VerifyEmail(acc, token, now).0;
    var i := Get(acc.tokens, ByUnusedToken(token)).index;
    forall k | 0 <= k < |acc'.tokens|
      ensures !ByUnusedToken(token)(acc'.tokens[k])
    {
      if k != i {
        assert acc'.tokens[k] == acc.tokens[k];
      }
    }
  }

  // ---------------------------------------------------------------------------
  // Signup
  // ---------------------------------------------------------------------------

  /** The POST fields of the signup form; a missing field reads as empty. */
  datatype SignupForm = SignupForm(
    firstName: Option<string>,
    lastName: Option<string>,
    username: Option<string>,
    email: Option<string>,
    password: Option<string>)

  /** `request.POST.get(name, "").strip()`. */
  function Field(v: Option<string>): string {
    Strip(v.GetOr(""))
  }

  /** Oracle values: the random draws of `suggest_username`, the uuid hex
      digits of its fallback, and the uuid of a new verification token. */
  datatype Randomness = Randomness(draws: seq<int>, hex: string, token: string)

  predicate IsRandomness(rnd: Randomness) {
    IsDrawSequence(rnd.draws) && |rnd.hex| == 6 && IsHexDigits(rnd.hex)
  }

  datatype SignupOutcome =
    | AlreadySignedIn
    | UsernameTaken(suggestion: string)
    | EmailTaken
    | VerificationSent
    | SignupServerError

  datatype SignupStep = SignupStep(accounts: Accounts, outcome: SignupOutcome, mails: seq<Email>)

  /** The username signup uses: the one typed, or a generated free one. */
  function ChosenUsername(users: seq<User>, form: SignupForm): string {
    if Field(form.username) == "" then
      FirstFree(Slugify(Field(form.firstName) + Field(form.lastName)), Usernames(users))
    else Field(form.username)
  }

  lemma UsernameTakenIff(users: seq<User>, name: string)
    ensures name in Usernames(users) <==> Taken(users, Some(name), UsernameOf)
  {
    if Taken(users, Some(name), UsernameOf) {
      var i :| 0 <= i < |users| && users[i].username == Some(name);
      assert users[i].username.value in Usernames(users);
    }
  }

  /** The user `create_user` builds from the form, inactive as signup asks. */
  function SignupCandidate(acc: Accounts, username: string, form: SignupForm): User {
    NewUser(acc.nextUserId, Some(username), Some(Field(form.email)), Some(Field(form.password)), SignupExtra(form))
  }

  /** That user as the table would hold it. */
  function SignupUser(acc: Accounts, username: string, form: SignupForm): User {
    Stored(SignupCandidate(acc, username, form))
  }

  function SignupExtra(form: SignupForm): ExtraFields {
    ExtraFields(Some(Field(form.firstName)), Some(Field(form.lastName)), Some(false), None, None)
  }

  /** `create_user` accepts the signup user: it has a username or an email,
      every value fits its column, and neither the username nor the email, as
      the table would hold them, is stored already. */
  predicate Creatable(acc: Accounts, username: string, form: SignupForm) {
    && (username != "" || Field(form.email) != "")
    && FitsColumns(SignupCandidate(acc, username, form))
    && !Taken(acc.users, SignupUser(acc, username, form).username, UsernameOf)
    && !Taken(acc.users, SignupUser(acc, username, form).email, EmailOf)
  }

  /** Creation and the verification email once the view's guards have passed;
      a refusal by `create_user` is an uncaught error. */
  function Register(acc: Accounts, username: string, form: SignupForm, now: Instant,
                    rnd: Randomness, cfg: Config): (r: SignupStep)
    ensures r.outcome == VerificationSent <==> Creatable(acc, username, form)
    ensures r.outcome != VerificationSent ==> r == SignupStep(acc, SignupServerError, [])
    ensures r.outcome == VerificationSent ==> r.accounts.users == acc.users + [SignupUser(acc, username, form)]
    ensures r.outcome == VerificationSent ==> r.accounts.nextUserId == acc.nextUserId + 1
    ensures |r.mails| <= 1
  {
    var created := CreateUser(acc, Some(username), Some(Field(form.email)), Some(Field(form.password)),
                              SignupExtra(form));
    if !created.1.UserCreated? then SignupStep(acc, SignupServerError, [])
    else
      var sent := SendVerification(created.0, created.1.user, now, rnd.token, cfg);
      assert created.1.user == SignupUser(acc, username, form);
      assert sent.0.users == acc.users + [created.1.user];
      SignupStep(sent.0, VerificationSent, sent.1)
  }

  /** `signup_view` on a POST, as written: a typed username that is taken gets
      a suggestion and no user; an email stored exactly as typed is refused;
      any other form goes to `create_user`. The email guard compares the
      address as typed while `create_user` stores it with its domain
      lower-cased. */
  function Signup(acc: Accounts, authenticated: bool, form: SignupForm, now: Instant,
                  rnd: Randomness, cfg: Config): (r: SignupStep)
    requires IsRandomness(rnd)
    ensures authenticated ==> r == SignupStep(acc, AlreadySignedIn, [])
    ensures r.outcome == AlreadySignedIn <==> authenticated
    ensures r.outcome != VerificationSent ==> r.accounts == acc && r.mails == []
    ensures
      && !authenticated
      && !(Field(form.username) != "" && Field(form.username) in Usernames(acc.users))
      && !Taken(acc.users, Some(Field(form.email)), EmailOf)
      ==> r == Register(acc, ChosenUsername(acc.users, form), form, now, rnd, cfg)
    ensures r.outcome.UsernameTaken? <==>
      !authenticated && Field(form.username) != "" && Field(form.username) in Usernames(acc.users)
    ensures r.outcome == EmailTaken <==>
      && !authenticated
      && !(Field(form.username) != "" && Field(form.username) in Usernames(acc.users))
      && Taken(acc.users, Some(Field(form.email)), EmailOf)
    ensures r.outcome == VerificationSent ==>
      r.accounts.users == acc.users + [SignupUser(acc, ChosenUsername(acc.users, form), form)]
  {
    if authenticated then SignupStep(acc, AlreadySignedIn, [])
    else
      var typed := Field(form.username);
      if typed != "" && typed in Usernames(acc.users) then
        SignupStep(acc, UsernameTaken(SuggestUsername(acc.users, typed, rnd.draws, rnd.hex)), [])
      else if Taken(acc.users, Some(Field(form.email)), EmailOf) then SignupStep(acc, EmailTaken, [])
      else Register(acc, ChosenUsername(acc.users, form), form, now, rnd, cfg)
  }

  /** A username that was typed, or generated, reaches `create_user` only when
      no user has it. */
  lemma ChosenUsernameIsFree(acc: Accounts, form: SignupForm)
    requires !(Field(form.username) != "" && Field(form.username) in Usernames(acc.users))
    ensures !Taken(acc.users, Some(ChosenUsername(acc.users, form)), UsernameOf)
  {
    UsernameTakenIff(acc.users, ChosenUsername(acc.users, form));
  }

  /** The username signup picks never ends in a space: a typed one is
      stripped, and a generated one ends in a slug character or a digit. */
  lemma ChosenUsernameIsUnpadded(users: seq<User>, form: SignupForm)
    ensures Unpadded(ChosenUsername(users, form))
  {
    if Field(form.username) == "" {
      var base := Slugify(Field(form.firstName) + Field(form.lastName));
      var k: nat :| ChosenUsername(users, form) == Probe(base, k);
      SlugIsUnpadded(base);
      ProbeIsUnpadded(base, k);
    } else {
      StripIsUnpadded(form.username.GetOr(""));
    }
  }

  lemma SlugIsUnpadded(s: string)
    requires IsSlug(s)
    ensures Unpadded(s)
  {
    if s != [] {
      assert IsSlugChar(s[|s| - 1]);
    }
  }

  lemma ProbeIsUnpadded(base: string, k: nat)
    requires Unpadded(base)
    ensures Unpadded(Probe(base, k))
  {
    if k > 0 {
      var name, digits := Probe(base, k), Decimal(k);
      assert name[|base|..] == digits;
      assert name[|name| - 1] == digits[|digits| - 1];
    }
  }

  /** Every value signup hands to `create_user` is stripped or built from
      stripped parts. */
  lemma SignupCandidateIsUnpadded(acc: Accounts, form: SignupForm)
    ensures var u := SignupCandidate(acc, ChosenUsername(acc.users, form), form);
      && Unpadded(u.username.value) && Unpadded(u.email.value)
      && Unpadded(u.firstName) && Unpadded(u.lastName)
  {
    ChosenUsernameIsUnpadded(acc.users, form);
    StripIsUnpadded(form.email.GetOr(""));
    StripIsUnpadded(form.firstName.GetOr(""));
    StripIsUnpadded(form.lastName.GetOr(""));
    if Field(form.email) != "" {
      NormalizeEmailIsUnpadded(Field(form.email));
    }
  }

  /** Signup strips every value it passes on, so a value fits its column
      exactly when it is no longer than the column, and the table holds the
      user as built: no value is ever cut. */
  lemma SignupStoredAsTyped(acc: Accounts, form: SignupForm)
    ensures var u := SignupCandidate(acc, ChosenUsername(acc.users, form), form);
      && (FitsColumns(u) <==>
            |ChosenUsername(acc.users, form)| <= UsernameWidth && |u.email.value| <= EmailWidth
            && |Field(form.firstName)| <= NameWidth && |Field(form.lastName)| <= NameWidth)
      && (FitsColumns(u) ==> SignupUser(acc, ChosenUsername(acc.users, form), form) == u)
  {
    SignupCandidateIsUnpadded(acc, form);
    UnpaddedIsStoredAsGiven(SignupCandidate(acc, ChosenUsername(acc.users, form), form));
  }

  /** On a valid store a created account always gets its verification email:
      a fresh key has no token yet. */
  lemma RegisterSendsVerification(acc: Accounts, username: string, form: SignupForm, now: Instant,
                                  rnd: Randomness, cfg: Config)
    requires Valid(acc) && Creatable(acc, username, form)
    ensures |Register(acc, username, form, now, rnd, cfg).mails| == 1
    ensures Register(acc, username, form, now, rnd, cfg).mails[0].link == Some(VerifyLink(cfg, rnd.token))
    ensures Register(acc, username, form, now, rnd, cfg).mails[0].recipients
         == [SignupUser(acc, username, form).email.GetOr("")]
    ensures Register(acc, username, form, now, rnd, cfg).accounts.tokens
         == acc.tokens + [VerificationToken(rnd.token, acc.nextUserId, now, false)]
  {
    var created := CreateUser(acc, Some(username), Some(Field(form.email)), Some(Field(form.password)),
                              SignupExtra(form));
    assert Truthy(Some(username)) || Truthy(Some(Field(form.email)));
    assert created.1.UserCreated?;
    var u := created.1.user;
    assert u.id == acc.nextUserId && created.0.tokens == acc.tokens;
    assert forall i :: 0 <= i < |acc.tokens| ==> !UnusedOf(u.id)(acc.tokens[i]);
    assert !HasLiveToken(created.0, u.id, now);
    var sent := SendVerification(created.0, u, now, rnd.token, cfg);
    assert Register(acc, username, form, now, rnd, cfg) == SignupStep(sent.0, VerificationSent, sent.1);
  }

  /** Signup's successful path, on a valid store: one new inactive user, one
      new token for it, and one email carrying the token's link. */
  lemma SignupSendsVerification(acc: Accounts, authenticated: bool, form: SignupForm,
                                now: Instant, rnd: Randomness, cfg: Config)
    requires Valid(acc) && IsRandomness(rnd)
    requires Signup(acc, authenticated, form, now, rnd, cfg).outcome == VerificationSent
    ensures |Signup(acc, authenticated, form, now, rnd, cfg).mails| == 1
    ensures Signup(acc, authenticated, form, now, rnd, cfg).mails[0].link == Some(VerifyLink(cfg, rnd.token))
    ensures !Signup(acc, authenticated, form, now, rnd, cfg).accounts.users[|acc.users|].isActive
    ensures Signup(acc, authenticated, form, now, rnd, cfg).accounts.tokens
         == acc.tokens + [VerificationToken(rnd.token, acc.nextUserId, now, false)]
  {
    var name := ChosenUsername(acc.users, form);
    assert Signup(acc, authenticated, form, now, rnd, cfg) == Register(acc, name, form, now, rnd, cfg);
    RegisterSendsVerification(acc, name, form, now, rnd, cfg);
  }

  lemma LastAtOfSplit(local: string, domain: string)
    requires '@' !in domain
    ensures LastIndexOf(local + "@" + domain, '@') == Some(|local|)
  {
    var e := local + "@" + domain;
    var k := |local|;
    assert e[k] == '@';
  }

  lemma NormalizedSplit(local: string, domain: string)
    ensures Normalized(local + "@" + domain, |local|) == local + "@" + Lower(domain)
  {
    var e := local + "@" + domain;
    assert e[..|local|] == local;
    assert e[|local| + 1..] == domain;
  }

  lemma NormalizeLowersDomain(local: string, domain: string)
    requires '@' !in domain
    requires Strip(local + "@" + domain) == local + "@" + domain
    ensures NormalizeEmail(local + "@" + domain) == local + "@" + Lower(domain)
  {
    LastAtOfSplit(local, domain);
    NormalizeAt(local + "@" + domain, |local|);
    NormalizedSplit(local, domain);
  }

  /** So with an upper-case letter in the domain the stored form of an
      address differs from the address as typed. */
  lemma UpperDomainIsRewritten(local: string, domain: string, i: nat)
    requires '@' !in domain
    requires Strip(local + "@" + domain) == local + "@" + domain
    requires i < |domain| && IsUpperAscii(domain[i])
    ensures NormalizeEmail(local + "@" + domain) != local + "@" + domain
  {
    NormalizeLowersDomain(local, domain);
    assert Lower(domain)[i] != domain[i];
    if local + "@" + Lower(domain) == local + "@" + domain {
      SameSuffixAfter(local + "@", Lower(domain), domain);
    }
  }

  lemma SameSuffixAfter(p: string, a: string, b: string)
    requires p + a == p + b
    ensures a == b
  {
    assert a == (p + a)[|p|..];
    assert b == (p + b)[|p|..];
  }

  /** The email guard of `signup_view` as written misses an address stored in
      its normalised form: with a free username, an address whose normalised
      form is stored but whose typed form is not passes the guard, and the
      unique column then refuses it with a server error. By
      `UpperDomainIsRewritten`, "bob@EXAMPLE.com" against a stored
      "bob@example.com" is such an address. */
  lemma EmailGuardMissesStoredForm(acc: Accounts, form: SignupForm, now: Instant, rnd: Randomness, cfg: Config)
    requires IsRandomness(rnd)
    requires Field(form.username) != "" && Field(form.username) !in Usernames(acc.users)
    requires Field(form.email) != ""
    requires !Taken(acc.users, Some(Field(form.email)), EmailOf)
    requires Taken(acc.users, Some(NormalizeEmail(Field(form.email))), EmailOf)
    ensures Signup(acc, false, form, now, rnd, cfg) == SignupStep(acc, SignupServerError, [])
  {
    var name := ChosenUsername(acc.users, form);
    SignupStoredAsTyped(acc, form);
    assert SignupCandidate(acc, name, form).email == Some(NormalizeEmail(Field(form.email)));
    assert !Creatable(acc, name, form);
  }

  // ---------------------------------------------------------------------------
  // check_username against signup
  // ---------------------------------------------------------------------------

  /** For a typed name that is already lower-case, `check_username` reports it
      available exactly when signup's username guard lets it through. */
  lemma CheckAgreesWithSignup(acc: Accounts, form: SignupForm, now: Instant, rnd: Randomness, cfg: Config)
    requires IsRandomness(rnd)
    requires Field(form.username) != "" && Lower(Field(form.username)) == Field(form.username)
    ensures CheckUsername(acc.users, form.username).available <==>
      !Signup(acc, false, form, now, rnd, cfg).outcome.UsernameTaken?
  {
  }

  /** A typed name with a capital letter is looked up lower-cased by
      `check_username` but as typed by signup: with only that name stored, the
      check reports it available while signup refuses it as taken. "Bob"
      against a stored "Bob" is such a name. */
  lemma CheckDisagreesWithSignup(acc: Accounts, form: SignupForm, now: Instant, rnd: Randomness, cfg: Config)
    requires IsRandomness(rnd)
    requires Field(form.username) != "" && Lower(Field(form.username)) != Field(form.username)
    requires Usernames(acc.users) == {Field(form.username)}
    ensures CheckUsername(acc.users, form.username).available
    ensures Signup(acc, false, form, now, rnd, cfg).outcome.UsernameTaken?
  {
    var typed := Field(form.username);
    assert typed in Usernames(acc.users);
    assert Lower(typed) != [] && Lower(typed) !in Usernames(acc.users);
  }

  /** `check_username` as evidently intended: the stripped name is looked up
      as signup will look it up, without lower-casing. */
  function CheckUsernameCorrected(users: seq<User>, param: Option<string>): (r: Availability)
    ensures Strip(param.GetOr("")) == [] <==> r.error.Some?
    ensures r.error.Some? ==> !r.available && r.error.value == EmptyUsernameError
    ensures r.available <==> Strip(param.GetOr("")) != [] && Strip(param.GetOr("")) !in Usernames(users)
  {
    var name := Strip(param.GetOr(""));
    if name == [] then Availability(false, Some(EmptyUsernameError))
    else Availability(name !in Usernames(users), None)
  }

  /** The corrected check agrees with signup's username guard on every
      non-empty name. */
  lemma CheckCorrectedAgreesWithSignup(acc: Accounts, form: SignupForm, now: Instant, rnd: Randomness,
                                       cfg: Config)
    requires IsRandomness(rnd)
    requires Field(form.username) != ""
    ensures CheckUsernameCorrected(acc.users, form.username).available <==>
      !Signup(acc, false, form, now, rnd, cfg).outcome.UsernameTaken?
  {
  }

  /** `signup_view` as evidently intended: the email guard looks for the
      address in the form `create_user` will store, so the unique column can
      no longer refuse it; a form that neither guard stops behaves as
      written. What remains of the server error is a value longer than its
      column, or a form with neither a username nor an email. */
  function SignupCorrected(acc: Accounts, authenticated: bool, form: SignupForm, now: Instant,
                           rnd: Randomness, cfg: Config): (r: SignupStep)
    requires IsRandomness(rnd)
    ensures r.outcome == SignupServerError ==>
      var name := ChosenUsername(acc.users, form);
      !FitsColumns(SignupCandidate(acc, name, form)) || (name == "" && Field(form.email) == "")
    ensures r.outcome != VerificationSent ==> r.accounts == acc && r.mails == []
    ensures r.outcome == EmailTaken <==>
      && !authenticated
      && !(Field(form.username) != "" && Field(form.username) in Usernames(acc.users))
      && Taken(acc.users, SignupCandidate(acc, ChosenUsername(acc.users, form), form).email, EmailOf)
    ensures !Taken(acc.users, SignupCandidate(acc, ChosenUsername(acc.users, form), form).email, EmailOf) &&
            !Taken(acc.users, Some(Field(form.email)), EmailOf) ==>
      r == Signup(acc, authenticated, form, now, rnd, cfg)
  {
    if authenticated then SignupStep(acc, AlreadySignedIn, [])
    else
      var typed := Field(form.username);
      if typed != "" && typed in Usernames(acc.users) then
        SignupStep(acc, UsernameTaken(SuggestUsername(acc.users, typed, rnd.draws, rnd.hex)), [])
      else
        var name := ChosenUsername(acc.users, form);
        if Taken(acc.users, SignupCandidate(acc, name, form).email, EmailOf) then SignupStep(acc, EmailTaken, [])
        else
          ChosenUsernameIsFree(acc, form);
          SignupStoredAsTyped(acc, form);
          Register(acc, name, form, now, rnd, cfg)
  }
}
