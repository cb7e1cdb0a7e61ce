/**
 * `UsernameOrEmailBackend.authenticate` of accounts/auth_backends.py: the
 * login name is stripped and lower-cased, then matched against the username
 * column exactly and the email column case-insensitively. An ambiguous match
 * falls back to the username alone. The user found is returned only when the
 * password checks and the account is active. Password hashing is outside the
 * model: the check arrives as a parameter.
 */
module Auth {
  import opened Common
  import opened Text
  import opened Users

  datatype AuthResult =
    | Authenticated(user: User)
    | Denied
    /** A lookup error the backend does not catch. */
    | AuthError

  /** The key the backend looks up. */
  function LoginKey(name: string): string {
    Lower(Strip(name))
  }

  /** `Q(username=key) | Q(email__iexact=key)`; `key` is already lower-case. */
  function ByNameOrEmail(key: string): User -> bool {
    (u: User) => u.username == Some(key) || (u.email.Some? && Lower(u.email.value) == key)
  }

  function ByName(key: string): User -> bool {
    (u: User) => u.username == Some(key)
  }

  /** The user the lookup settles on, before the password-and-active gate. */
  function Resolve(users: seq<User>, key: string): (r: Fetch)
    ensures r.Found? ==> r.index < |users| && ByNameOrEmail(key)(users[r.index])
    ensures r.NotFound? <==>
      (forall i :: 0 <= i < |users| ==> !ByNameOrEmail(key)(users[i])) ||
      (Get(users, ByNameOrEmail(key)) == MultipleFound && Get(users, ByName(key)) == NotFound)
    ensures r.MultipleFound? ==> Get(users, ByName(key)) == MultipleFound
    ensures Get(users, ByNameOrEmail(key)) == MultipleFound && r.Found? ==> users[r.index].username == Some(key)
  {
    match Get(users, ByNameOrEmail(key))
    case Found(i) => Found(i)
    case NotFound => NotFound
    case MultipleFound => Get(users, ByName(key))
  }

  /** `authenticate`. `username` and `password` are the keyword arguments;
      `passwordMatches` stands for `check_password`. The `kwargs` fallback on
      `USERNAME_FIELD` never applies, because that field is `username`,
      which the named parameter already captures. */
  function Authenticate(users: seq<User>, username: Option<string>, password: Option<string>,
                        passwordMatches: (User, string) -> bool): (r: AuthResult)
    ensures username.None? || password.None? ==> r == Denied
    ensures r.Authenticated? ==>
      && username.Some? && password.Some?
      && r.user.isActive
      && passwordMatches(r.user, password.value)
      && exists i :: 0 <= i < |users| && users[i] == r.user && ByNameOrEmail(LoginKey(username.value))(r.user)
    ensures r == AuthError ==>
      username.Some? && password.Some? && Get(users, ByName(LoginKey(username.value))) == MultipleFound
    ensures username.Some? && password.Some? &&
            (forall i :: 0 <= i < |users| ==> !ByNameOrEmail(LoginKey(username.value))(users[i])) ==>
      r == Denied
    ensures r.Authenticated? <==>
      && username.Some? && password.Some?
      && var f := Resolve(users, LoginKey(username.value));
      && f.Found?
      && passwordMatches(users[f.index], password.value) && users[f.index].isActive
  {
    if username.None? || password.None? then Denied
    else
      var key := LoginKey(username.value);
      match Resolve(users, key)
      case NotFound => Denied
      case MultipleFound => AuthError
      case Found(i) =>
        var u := users[i];
        assert ByNameOrEmail(key)(u);
        if passwordMatches(u, password.value) && u.isActive then Authenticated(u) else Denied
  }

  /** With unique usernames the backend never fails. */
  lemma ValidNeverErrs(acc: Accounts, username: Option<string>, password: Option<string>,
                       passwordMatches: (User, string) -> bool)
    requires Valid(acc)
    ensures Authenticate(acc.users, username, password, passwordMatches) != AuthError
  {
    if username.Some? && password.Some? {
      var key := LoginKey(username.value);
      var us := acc.users;
      forall i, j | 0 <= i < |us| && 0 <= j < |us| && ByName(key)(us[i]) && ByName(key)(us[j])
        ensures i == j
      {
      }
      GetUnique(us, ByName(key));
    }
  }

  /** Login names that differ only in surrounding whitespace and letter case
      behave alike. */
  lemma LoginIgnoresCaseAndSpace(users: seq<User>, a: string, b: string, password: Option<string>,
                                 passwordMatches: (User, string) -> bool)
    requires LoginKey(a) == LoginKey(b)
    ensures Authenticate(users, Some(a), password, passwordMatches)
         == Authenticate(users, Some(b), password, passwordMatches)
  {
  }

  /** When exactly one user matches the key, by username or by email, the
      login succeeds for that user exactly when the password checks and the
      account is active. */
  lemma UniqueMatchDecides(users: seq<User>, i: nat, name: string, password: string,
                           passwordMatches: (User, string) -> bool)
    requires i < |users| && ByNameOrEmail(LoginKey(name))(users[i])
    requires forall j :: 0 <= j < |users| && ByNameOrEmail(LoginKey(name))(users[j]) ==> j == i
    ensures Authenticate(users, Some(name), Some(password), passwordMatches) ==
      if passwordMatches(users[i], password) && users[i].isActive then Authenticated(users[i]) else Denied
  {
    assert Get(users, ByNameOrEmail(LoginKey(name))) == Found(i);
  }

  /** A unique username match settles an ambiguous lookup. */
  lemma ResolvePrefersName(acc: Accounts, i: nat, j: nat, key: string)
    requires Valid(acc)
    requires i < |acc.users| && j < |acc.users| && i != j
    requires acc.users[i].username == Some(key)
    requires ByNameOrEmail(key)(acc.users[j])
    ensures Resolve(acc.users, key) == Found(i)
  {
    var us := acc.users;
    var x, y := if i < j then i else j, if i < j then j else i;
    assert ByNameOrEmail(key)(us[x]) && ByNameOrEmail(key)(us[y]);
    assert Get(us, ByNameOrEmail(key)) == MultipleFound;
    forall k, l | 0 <= k < |us| && 0 <= l < |us| && ByName(key)(us[k]) && ByName(key)(us[l])
      ensures k == l
    {
    }
    GetUnique(us, ByName(key));
    assert ByName(key)(us[i]);
  }

  /** When the key names one user by username and another by email, the
      username wins, subject to the password-and-active gate. */
  lemma UsernameMatchWins(acc: Accounts, i: nat, j: nat, name: string, password: string,
                          passwordMatches: (User, string) -> bool)
    requires Valid(acc)
    requires i < |acc.users| && j < |acc.users| && i != j
    requires acc.users[i].username == Some(LoginKey(name))
    requires ByNameOrEmail(LoginKey(name))(acc.users[j])
    ensures Authenticate(acc.users, Some(name), Some(password), passwordMatches) ==
      if passwordMatches(acc.users[i], password) && acc.users[i].isActive then Authenticated(acc.users[i])
      else Denied
  {
    ResolvePrefersName(acc, i, j, LoginKey(name));
  }

  /** An inactive account never authenticates, whatever the password. */
  lemma InactiveNeverAuthenticates(users: seq<User>, name: string, password: string,
                                   passwordMatches: (User, string) -> bool)
    requires forall i :: 0 <= i < |users| ==> !users[i].isActive
    ensures !Authenticate(users, Some(name), Some(password), passwordMatches).Authenticated?
  {
  }

  /** A username holding an upper-case letter can never be matched as a
      username, since the key is lower-cased first: this backend finds such
      a user only through the email column. */
  lemma UpperCaseUsernameIsUnreachable(u: User, name: string, k: nat)
    requires u.username.Some? && k < |u.username.value| && IsUpperAscii(u.username.value[k])
    ensures !ByName(LoginKey(name))(u)
  {
  }
}
