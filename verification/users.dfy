/**
 * The account records of accounts/models.py: users created inactive by the
 * custom manager, their display name, and email-verification tokens with a
 * fifteen-minute lifetime. Password hashing is not modelled: the password a
 * user was created with is kept as given.
 */
module Users {
  import opened Common
  import opened Text

  const VerificationLifetime: int := 15 * Minute

  datatype User = User(
    id: nat,
    username: Option<string>,
    email: Option<string>,
    password: Option<string>,
    firstName: string,
    lastName: string,
    isActive: bool,
    isStaff: bool,
    isSuperuser: bool)

  /** The keyword arguments `create_user` passes on to the model. */
  datatype ExtraFields = ExtraFields(
    firstName: Option<string>,
    lastName: Option<string>,
    isActive: Option<bool>,
    isStaff: Option<bool>,
    isSuperuser: Option<bool>)

  datatype VerificationToken = VerificationToken(token: string, userId: nat, createdAt: Instant, used: bool)

  /** The user table and the verification-token table, each in primary-key order. */
  datatype Accounts = Accounts(users: seq<User>, tokens: seq<VerificationToken>, nextUserId: nat)

  /** The database constraints: unique user keys below `nextUserId`, unique
      usernames, unique emails (NULLs excepted), unique token values. */
  predicate Valid(acc: Accounts) {
    && (forall i :: 0 <= i < |acc.users| ==> acc.users[i].id < acc.nextUserId)
    && (forall i, j :: 0 <= i < j < |acc.users| ==> acc.users[i].id != acc.users[j].id)
    && (forall i, j :: 0 <= i < j < |acc.users| && acc.users[i].username.Some? ==>
          acc.users[i].username != acc.users[j].username)
    && (forall i, j :: 0 <= i < j < |acc.users| && acc.users[i].email.Some? ==>
          acc.users[i].email != acc.users[j].email)
    && (forall i, j :: 0 <= i < j < |acc.tokens| ==> acc.tokens[i].token != acc.tokens[j].token)
    && (forall i :: 0 <= i < |acc.tokens| ==> acc.tokens[i].userId < acc.nextUserId)
  }

  /** The position of the last `c` in `s`. */
  function LastIndexOf(s: string, c: char): (r: Option<nat>)
    ensures r.None? <==> c !in s
    ensures r.Some? ==> r.value < |s| && s[r.value] == c && c !in s[r.value + 1..]
  {
    if s == [] then None
    else if s[|s| - 1] == c then Some(|s| - 1)
    else
      var r := LastIndexOf(s[..|s| - 1], c);
      assert r.Some? ==> s[r.value + 1..] == s[..|s| - 1][r.value + 1..] + [s[|s| - 1]];
      r
  }

  /** `BaseUserManager.normalize_email`: with an '@' in the stripped address,
      the part after the last '@' is lower-cased; without one the address is
      returned exactly as given. */
  function NormalizeEmail(e: string): (r: string)
    ensures '@' !in Strip(e) ==> r == e
    ensures '@' in Strip(e) ==> '@' in r && Lower(r) == Lower(Strip(e))
    ensures '@' in Strip(e) ==>
      var t, k := Strip(e), LastIndexOf(Strip(e), '@').value;
      |r| == |t| && r[..k + 1] == t[..k + 1] && r[k + 1..] == Lower(t[k + 1..])
  {
    var t := Strip(e);
    match LastIndexOf(t, '@')
    case None => e
    case Some(k) =>
      LowerOfNormalized(t, k);
      NormalizedChars(t, k);
      Normalized(t, k)
  }

  /** The normalised shape keeps the local part and the '@' exactly and
      lower-cases the domain. */
  lemma NormalizedChars(t: string, k: nat)
    requires k < |t| && t[k] == '@'
    ensures |Normalized(t, k)| == |t|
    ensures Normalized(t, k)[..k + 1] == t[..k + 1]
    ensures Normalized(t, k)[k + 1..] == Lower(t[k + 1..])
  {
    var r := Normalized(t, k);
    assert r[..k + 1] == t[..k] + "@";
  }

  lemma LowerOfNormalized(t: string, k: nat)
    requires k < |t| && t[k] == '@'
    ensures var r := t[..k] + "@" + Lower(t[k + 1..]);
      r[k] == '@' && Lower(r) == Lower(t)
  {
    var r := t[..k] + "@" + Lower(t[k + 1..]);
    assert |r| == |t|;
    forall i | 0 <= i < |t|
      ensures LowerChar(r[i]) == LowerChar(t[i])
    {
      if i > k {
        assert r[i] == Lower(t[k + 1..])[i - k - 1];
      }
    }
  }

  lemma LowerKeepsAt(s: string)
    ensures '@' in Lower(s) <==> '@' in s
  {
    if '@' in s {
      var i :| 0 <= i < |s| && s[i] == '@';
      assert Lower(s)[i] == '@';
    }
    if '@' in Lower(s) {
      var i :| 0 <= i < |s| && Lower(s)[i] == '@';
      assert s[i] == '@';
    }
  }

  lemma LowerKeepsSpaceFreeEnd(s: string)
    requires s != [] && !IsSpace(s[|s| - 1])
    ensures !IsSpace(Lower(s)[|s| - 1])
  {
  }

  lemma StripOfTrimmed(s: string)
    requires s == [] || (!IsSpace(s[0]) && !IsSpace(s[|s| - 1]))
    ensures Strip(s) == s
  {
  }

  /** The shape `normalize_email` gives an address: stripped, '@' at `k`, tail lower-cased. */
  function Normalized(t: string, k: nat): string
    requires k < |t|
  {
    t[..k] + "@" + Lower(t[k + 1..])
  }

  lemma NormalizedIsStripped(t: string, k: nat)
    requires k < |t| && t[k] == '@'
    requires !IsSpace(t[0]) && !IsSpace(t[|t| - 1])
    ensures Strip(Normalized(t, k)) == Normalized(t, k)
  {
    var r := Normalized(t, k);
    if k + 1 < |t| {
      assert r[|r| - 1] == LowerChar(t[|t| - 1]);
    }
    StripOfTrimmed(r);
  }

  lemma NormalizedLastAt(t: string, k: nat)
    requires k < |t| && t[k] == '@' && '@' !in t[k + 1..]
    ensures LastIndexOf(Normalized(t, k), '@') == Some(k)
  {
    var r := Normalized(t, k);
    var tail := Lower(t[k + 1..]);
    LowerKeepsAt(t[k + 1..]);
    assert r[k + 1..] == tail;
    LastIndexOfAt(r, '@', k);
  }

  lemma {:induction false} LastIndexOfAt(s: string, c: char, k: nat)
    requires k < |s| && s[k] == c && c !in s[k + 1..]
    ensures LastIndexOf(s, c) == Some(k)
    decreases |s|
  {
    if k < |s| - 1 {
      assert s[|s| - 1] in s[k + 1..];
      var s' := s[..|s| - 1];
      assert s'[k + 1..] == s[k + 1..|s| - 1];
      LastIndexOfAt(s', c, k);
    }
  }

  /** Normalising an address twice is normalising it once. */
  lemma NormalizeEmailIdempotent(e: string)
    ensures NormalizeEmail(NormalizeEmail(e)) == NormalizeEmail(e)
  {
    var t := Strip(e);
    var at := LastIndexOf(t, '@');
    if at.Some? {
      var k := at.value;
      assert NormalizeEmail(e) == Normalized(t, k);
      NormalizedIdempotent(t, k);
    }
  }

  lemma NormalizedIdempotent(t: string, k: nat)
    requires k < |t| && t[k] == '@' && '@' !in t[k + 1..]
    requires !IsSpace(t[0]) && !IsSpace(t[|t| - 1])
    ensures NormalizeEmail(Normalized(t, k)) == Normalized(t, k)
  {
    var r := Normalized(t, k);
    NormalizedIsStripped(t, k);
    NormalizedLastAt(t, k);
    NormalizeAt(r, k);
    NormalizedTwice(t, k);
  }

  /** On a stripped address whose last '@' is at `k`, `normalize_email`
      yields the normalised shape. */
  lemma NormalizeAt(e: string, k: nat)
    requires Strip(e) == e && LastIndexOf(e, '@') == Some(k)
    ensures k < |e| && NormalizeEmail(e) == Normalized(e, k)
  {
  }

  /** Re-lowering the tail changes nothing. */
  lemma NormalizedTwice(t: string, k: nat)
    requires k < |t|
    ensures Normalized(Normalized(t, k), k) == Normalized(t, k)
  {
    var tail := Lower(t[k + 1..]);
    var r := t[..k] + "@" + tail;
    assert r[..k] == t[..k];
    assert r[k + 1..] == tail;
    LowerIdempotent(t[k + 1..]);
  }

  /** The widths of the user table's character columns: `username` and
      `first_name`/`last_name` as declared, `email` as `EmailField`'s default. */
  const UsernameWidth: nat := 150
  const EmailWidth: nat := 254
  const NameWidth: nat := 30

  /** PostgreSQL accepts every value into its column. */
  predicate FitsColumns(u: User) {
    && (u.username.Some? ==> FitsWidth(u.username.value, UsernameWidth))
    && (u.email.Some? ==> FitsWidth(u.email.value, EmailWidth))
    && FitsWidth(u.firstName, NameWidth)
    && FitsWidth(u.lastName, NameWidth)
  }

  function StoredOption(v: Option<string>, w: nat): Option<string> {
    if v.Some? then Some(StoredAs(v.value, w)) else None
  }

  /** The row as the table holds it: each character column cut to its width. */
  function Stored(u: User): (s: User)
    ensures s.id == u.id && s.password == u.password
    ensures s.isActive == u.isActive && s.isStaff == u.isStaff && s.isSuperuser == u.isSuperuser
    ensures s.username.Some? <==> u.username.Some?
    ensures s.username.Some? ==> |s.username.value| <= UsernameWidth && s.username.value <= u.username.value
    ensures s.email.Some? <==> u.email.Some?
    ensures s.email.Some? ==> |s.email.value| <= EmailWidth && s.email.value <= u.email.value
    ensures |s.firstName| <= NameWidth && s.firstName <= u.firstName
    ensures |s.lastName| <= NameWidth && s.lastName <= u.lastName
  {
    u.(username := StoredOption(u.username, UsernameWidth),
       email := StoredOption(u.email, EmailWidth),
       firstName := StoredAs(u.firstName, NameWidth),
       lastName := StoredAs(u.lastName, NameWidth))
  }

  /** A row whose values do not end in a space is stored exactly as given
      once it fits. */
  lemma UnpaddedIsStoredAsGiven(u: User)
    requires u.username.Some? ==> Unpadded(u.username.value)
    requires u.email.Some? ==> Unpadded(u.email.value)
    requires Unpadded(u.firstName) && Unpadded(u.lastName)
    ensures FitsColumns(u) <==>
      && (u.username.Some? ==> |u.username.value| <= UsernameWidth)
      && (u.email.Some? ==> |u.email.value| <= EmailWidth)
      && |u.firstName| <= NameWidth && |u.lastName| <= NameWidth
    ensures FitsColumns(u) ==> Stored(u) == u
  {
    if u.username.Some? {
      UnpaddedFits(u.username.value, UsernameWidth);
    }
    if u.email.Some? {
      UnpaddedFits(u.email.value, EmailWidth);
    }
    UnpaddedFits(u.firstName, NameWidth);
    UnpaddedFits(u.lastName, NameWidth);
  }

  /** A stripped value does not end in a space. */
  lemma StripIsUnpadded(s: string)
    ensures Unpadded(Strip(s))
  {
  }

  /** Normalising never adds a trailing space: the address keeps its last
      character, lower-cased when it lies in the domain. */
  lemma NormalizeEmailIsUnpadded(e: string)
    requires Unpadded(e)
    ensures Unpadded(NormalizeEmail(e))
  {
    var t := Strip(e);
    var at := LastIndexOf(t, '@');
    if at.Some? {
      StripIsUnpadded(e);
      NormalizedIsUnpadded(t, at.value);
    }
  }

  lemma NormalizedIsUnpadded(t: string, k: nat)
    requires k < |t| && Unpadded(t)
    ensures Unpadded(Normalized(t, k))
  {
    var tail := t[k + 1..];
    var r := Normalized(t, k);
    if tail == [] {
      assert r[|r| - 1] == '@';
    } else {
      assert tail[|tail| - 1] == t[|t| - 1];
      assert r[|r| - 1] == Lower(tail)[|tail| - 1];
    }
  }

  /** `CustomUserManager.create_user`: refuses a user with neither username
      nor email; otherwise normalises the email and saves the user inactive,
      whatever `extra` says. The save fails when a value runs past its column
      with anything but spaces (a data error) or when the username or the
      email, as the column would hold it, is already stored (the database's
      unique constraints). */
  datatype Creation = UserCreated(user: User) | MissingIdentity | ValueTooLong | DuplicateValue

  function NewUser(id: nat, username: Option<string>, email: Option<string>,
                   password: Option<string>, extra: ExtraFields): (u: User)
    ensures u.id == id && u.username == username && u.password == password
    ensures Truthy(email) ==> u.email == Some(NormalizeEmail(email.value))
    ensures !Truthy(email) ==> u.email == email
    ensures !u.isActive
    ensures u.isStaff == extra.isStaff.GetOr(false) && u.isSuperuser == extra.isSuperuser.GetOr(false)
  {
    var e := if Truthy(email) then Some(NormalizeEmail(email.value)) else email;
    User(id, username, e, password, extra.firstName.GetOr(""), extra.lastName.GetOr(""),
         false, extra.isStaff.GetOr(false), extra.isSuperuser.GetOr(false))
  }

  /** Some stored user already has this value in the column the selector reads. */
  predicate Taken(users: seq<User>, value: Option<string>, column: User -> Option<string>) {
    value.Some? && exists i :: 0 <= i < |users| && column(users[i]) == value
  }

  function UsernameOf(u: User): Option<string> { u.username }

  function EmailOf(u: User): Option<string> { u.email }

  function CreateUser(acc: Accounts, username: Option<string>, email: Option<string>,
                      password: Option<string>, extra: ExtraFields): (r: (Accounts, Creation))
    ensures !Truthy(username) && !Truthy(email) ==> r == (acc, MissingIdentity)
    ensures r.1.UserCreated? ==>
      && r.0 == acc.(users := acc.users + [r.1.user], nextUserId := acc.nextUserId + 1)
      && r.1.user == Stored(NewUser(acc.nextUserId, username, email, password, extra))
      && !r.1.user.isActive
    ensures r.1.UserCreated? <==>
      && (Truthy(username) || Truthy(email))
      && FitsColumns(NewUser(acc.nextUserId, username, email, password, extra))
      && !Taken(acc.users, Stored(NewUser(acc.nextUserId, username, email, password, extra)).username, UsernameOf)
      && !Taken(acc.users, Stored(NewUser(acc.nextUserId, username, email, password, extra)).email, EmailOf)
    ensures r.1 == ValueTooLong <==>
      (Truthy(username) || Truthy(email)) && !FitsColumns(NewUser(acc.nextUserId, username, email, password, extra))
    ensures !r.1.UserCreated? ==> r.0 == acc
  {
    if !Truthy(username) && !Truthy(email) then (acc, MissingIdentity)
    else
      var given := NewUser(acc.nextUserId, username, email, password, extra);
      var u := Stored(given);
      if !FitsColumns(given) then (acc, ValueTooLong)
      else if Taken(acc.users, u.username, UsernameOf) || Taken(acc.users, u.email, EmailOf) then (acc, DuplicateValue)
      else (acc.(users := acc.users + [u], nextUserId := acc.nextUserId + 1), UserCreated(u))
  }

  /** `create_superuser`: staff and superuser default to true and is_active is
      asked for, but `create_user` still saves the user inactive. */
  function CreateSuperuser(acc: Accounts, username: Option<string>, email: Option<string>,
                           password: Option<string>, extra: ExtraFields): (r: (Accounts, Creation))
    ensures r.1.UserCreated? ==>
      && !r.1.user.isActive
      && r.1.user.isStaff == extra.isStaff.GetOr(true)
      && r.1.user.isSuperuser == extra.isSuperuser.GetOr(true)
    ensures !Truthy(username) && !Truthy(email) ==> r == (acc, MissingIdentity)
  {
    var extra' := extra.(isStaff := Some(extra.isStaff.GetOr(true)),
                         isSuperuser := Some(extra.isSuperuser.GetOr(true)),
                         isActive := Some(extra.isActive.GetOr(true)));
    CreateUser(acc, username, email, password, extra')
  }

  /** A successful creation keeps the database constraints. */
  lemma CreateUserKeepsValid(acc: Accounts, username: Option<string>, email: Option<string>,
                             password: Option<string>, extra: ExtraFields)
    requires Valid(acc)
    ensures Valid(CreateUser(acc, username, email, password, extra).0)
  {
    var r := CreateUser(acc, username, email, password, extra);
    if r.1.UserCreated? {
      AppendKeepsValid(acc, r.1.user);
    }
  }

  /** Saving a row with the next key and a username and email no stored
      row has keeps the constraints. */
  lemma AppendKeepsValid(acc: Accounts, u: User)
    requires Valid(acc)
    requires u.id == acc.nextUserId
    requires !Taken(acc.users, u.username, UsernameOf) && !Taken(acc.users, u.email, EmailOf)
    ensures Valid(acc.(users := acc.users + [u], nextUserId := acc.nextUserId + 1))
  {
    var users := acc.users + [u];
    var n := |acc.users|;
    assert forall i :: 0 <= i < n ==> users[i] == acc.users[i];
    forall i | 0 <= i < n && acc.users[i].username.Some?
      ensures acc.users[i].username != u.username
    {
      assert UsernameOf(acc.users[i]) == acc.users[i].username;
    }
    forall i | 0 <= i < n && acc.users[i].email.Some?
      ensures acc.users[i].email != u.email
    {
      assert EmailOf(acc.users[i]) == acc.users[i].email;
    }
  }

  /** `CustomUser.__str__`: the username when it is non-empty, else the email. */
  function DisplayName(u: User): (r: Option<string>)
    ensures Truthy(u.username) ==> r == u.username
    ensures !Truthy(u.username) ==> r == u.email
  {
    if Truthy(u.username) then u.username else u.email
  }

  /** `EmailVerificationToken.is_expired` at `now`: strictly more than fifteen
      minutes have passed since the token was created. */
  predicate IsExpired(t: VerificationToken, now: Instant) {
    now - t.createdAt > VerificationLifetime
  }

  lemma ExpiryBoundary(t: VerificationToken)
    ensures !IsExpired(t, t.createdAt)
    ensures !IsExpired(t, t.createdAt + 15 * Minute)
    ensures IsExpired(t, t.createdAt + 15 * Minute + 1)
  {
  }

  lemma ExpiryIsPermanent(t: VerificationToken, now: Instant, later: Instant)
    requires now <= later && IsExpired(t, now)
    ensures IsExpired(t, later)
  {
  }
}
