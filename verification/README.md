# DNarai mentorship app: booking, contact, account and task model

This project models, in Dafny, the decision logic of the DNarai Django
application. Mentees book leadership sessions, and a mentor confirms each one
through an emailed link. Visitors send contact messages, which are
de-duplicated over a five-minute window. New accounts are created inactive
and are activated by a fifteen-minute email token. Users log in with a
username or an email address. Two Celery tasks send the emails and prompt for
session completion.

Every view is a pure transition. It takes the tables as sequences in
primary-key order (`Bookings.Store`, `Users.Accounts`, a list of
`Contact.ContactMessage`), the current instant as an integer count of seconds,
and the request's fields. It returns the new tables, an outcome tag standing
for the HTTP response, and the jobs it queues (`Mail.Job`: an email or the
delayed completion prompt). Django's `get()` is `Common.Get`, which
distinguishes no match, one match and several matches. The database is
PostgreSQL. A `varchar` column refuses a value that runs past its width with a
character other than a space, and the model gives such a save its own outcome
(`ValueTooLong`), using the widths the models declare. A value that runs past
the width with spaces only is accepted and stored cut to the width
(`Common.StoredAs`).

The modules:
- `Common`: options, the clock and `Get`.
- `Text`: `strip`, `lower`, `split` emptiness, decimal rendering and ASCII `slugify`.
- `Mail`: the settings and queued emails.
- `Sessions`: the booking record.
- `Bookings` and `BookingLemmas`: the booking views and their invariants.
- `Contact`: `send_message`.
- `Users`: the account manager and tokens.
- `AccountViews`: usernames, signup and verification.
- `Auth`: the login backend.
- `Tasks`: the task bodies and the retry budget.
- `Scenarios`: end-to-end flows.

Values that the source draws at random or from outside are parameters of the model:
- `uuid4().hex` tokens;
- the five `random.randint(100, 999)` draws and the six hex characters of a suggested username;
- whether each SMTP send succeeds;
- the host a link is built on;
- `check_password`.

Where the code and its documentation disagree, the model follows the code.
`mark_session_not_held` sets `is_session_completed` to `False` (and still
stamps `completed_at`), and the model does the same.

## Model

| member | source | states |
|---|---|---|
| Common.Get | accounts/auth_backends.py:16-27 | A `get()` lookup: no match iff no row satisfies the filter. A single match names the only satisfying row. "Multiple" iff two distinct rows satisfy it. |
| Common.GetUnique | accounts/auth_backends.py:22-27 | A filter that at most one row satisfies never raises `MultipleObjectsReturned`. |
| Text.StripIsSlice | accounts/auth_backends.py:14 | `str.strip()` keeps exactly the text between the leading and the trailing white space. The result is one contiguous run of the input, only white space comes before and after it, and neither of its ends is white space. |
| Text.StripIdempotent | accounts/views.py:73-77 | Stripping twice is stripping once. |
| Text.Lower | accounts/auth_backends.py:14 | `lower()` keeps the length and lowers each character in place. No ASCII capital survives, and every other character is unchanged. |
| Text.LowerIdempotent | accounts/views.py:58 | Lower-casing twice is lower-casing once. |
| Text.BlankIffStripsToEmpty | core/views.py:171 | `split()` yields no word exactly when `strip()` yields the empty string. |
| Text.Decimal | accounts/views.py:43 | An f-string renders a count as a non-empty run of decimal digits, one digit exactly for counts below ten. |
| Text.DecimalInjective | accounts/views.py:43 | Distinct counts render differently, so `base1` and `base2` never collide. |
| Text.Slugify | accounts/views.py:38 | `slugify` returns a slug: lower-case ASCII word characters and single dashes, with no dash or underscore at either end. The letters and digits of the input's ASCII part all survive, lower-cased and in their order, and no other letter or digit appears. Where the '_' and '-' go is stated by `Text.SlugifyKeepsWords` and `Text.SlugifyJoinsWords`. |
| Text.SlugifyIdempotent | accounts/views.py:38 | Slugifying a slug returns it unchanged. |
| Text.SlugifyKeepsWords | accounts/views.py:38 | The '_' of the input survive `slugify` except at either end: dropping the dashes from the slug leaves exactly the input's lower-cased ASCII letters, digits and '_', less the leading and trailing '_'. |
| Text.SlugifyJoinsWords | accounts/views.py:38 | Two non-empty words of lower-case letters and digits separated by a space slugify to the words joined by one '-'. |
| Common.StoredDropsPadding | core/models.py:77 | A value a column accepts loses only spaces on the way in: it is the stored value followed by spaces. |
| Common.UnpaddedFits | accounts/models.py:28-31 | A value that does not end in a space fits its column iff it is no longer than the width, and is then stored unchanged. |
| Mail.MentorAddress | core/views.py:60 | The mentor address is `DEFAULT_MENTOR_EMAIL` when set, else "admin@example.com". |
| Sessions.NewSessionDuration | core/models.py:15 | A duration created without minutes lasts 30 minutes; otherwise it lasts the minutes given. |
| Sessions.TimedeltaOf | core/models.py:20-21 | `get_timedelta` is exactly `duration_minutes` whole minutes. |
| Sessions.NewBooking | core/models.py:49-59 | A new booking keeps the form's fields and is not confirmed, not completed and held unknown. `confirmed_at`, `completed_at` and `last_reminder_sent_at` are null. Creation time and token time are `now`, and both tokens are set. |
| Sessions.SessionEnd | core/models.py:39-69 | The session ends exactly one duration after the preferred time, never before it. Every booking has a duration, because `session_duration` is a required foreign key. |
| Sessions.TokenExpiryIsPermanent | core/models.py:71-73 | Once the token window has closed, it stays closed at every later instant. |
| Sessions.TokenWindowBoundary | core/models.py:71-73 | The default 48-hour window includes its creation instant and its last instant, and excludes the next second. |
| Bookings.Create | core/views.py:31-75 | An invalid form changes nothing. A valid one appends one pristine booking carrying both tokens and stamped `now`, and leaves earlier rows untouched. It queues three jobs: the completion prompt at the session end, one email to the mentee, and one email to the mentor address whose link is built on the mentor token. |
| Bookings.Confirm | core/views.py:89-113 | An unknown token gives "not found". An expired token gives "expired" before the already-confirmed check. Either refusal changes nothing and sends nothing. Success sets only the confirmed flag and `confirmed_at = now`, and queues one email to the mentee. |
| Bookings.Complete | core/views.py:116-130 | The expiry guard, then the already-completed guard, on the completion token. Success sets only the completed flag and `completed_at = now`. Nothing is ever sent. |
| Bookings.MarkHeld | core/views.py:134-141 | Unguarded: the booking is marked held and completed at `now`, and no other field changes. |
| Bookings.MarkNotHeld | core/views.py:145-152 | Unguarded: the booking is marked not held, its completed flag is cleared, and `completed_at` becomes `now`. No other field changes. |
| BookingLemmas.ValidLookupsAreUnique | core/views.py:91 | With distinct tokens in the table, a lookup by either token never finds two rows. |
| BookingLemmas.CreateKeepsValid | core/views.py:34-38 | Saving a booking with fresh tokens keeps ids and tokens unique. |
| BookingLemmas.ConfirmKeepsValid | core/views.py:89-101 | Confirmation keeps the table valid and never meets two rows. |
| BookingLemmas.CompleteKeepsValid | core/views.py:116-128 | Completion keeps the table valid and never meets two rows. |
| BookingLemmas.MarksKeepValid | core/views.py:134-151 | The held and not-held marks keep the table valid and never meet two rows. |
| BookingLemmas.TransitionsKeepValid | core/views.py:89-151 | Every token-driven view preserves the uniqueness invariant. |
| BookingLemmas.ConfirmIsSingleUse | core/views.py:93-101 | After a confirmation the same link changes nothing and sends nothing. It answers "already confirmed" exactly while the window is open, and "expired" afterwards. |
| BookingLemmas.CompleteIsSingleUse | core/views.py:120-128 | After a completion the same link changes nothing and answers "already completed" or "expired". |
| BookingLemmas.ConfirmLeavesCompletionAlone | core/views.py:116-128 | Confirming through the mentor link does not change what the completion link answers later. |
| BookingLemmas.MarkHeldOverwrites | core/views.py:134-141 | The held link succeeds again on a second visit and moves `completed_at` to the second visit's time. |
| BookingLemmas.NotHeldClearsCompletion | core/views.py:145-151 | The not-held link undoes a completion recorded by the held link. |
| Contact.Accept | core/views.py:171-198 | An accepted message appends exactly one record, holding the name and address as their columns store them, and queues exactly two emails: the thanks to the sender, and the alert to `EMAIL_HOST_USER` whose subject names the sender. |
| Contact.SendMessage | core/views.py:155-202 | Any missing field gives "fill out all fields". A copy of the same email and message at most five minutes old gives "duplicate". A whitespace-only name crashes. A name that runs past 100 characters, or an address past 254, with a character other than a space fails on save with a data error. Each of these leaves the table alone and sends nothing. Otherwise the message is accepted, and a value padded past its column is stored cut to the width. |
| Contact.LongNameIsRefused | core/models.py:77 | A 101-character name passes every check of the view and is then refused by its column. |
| Contact.PaddedNameIsCut | core/models.py:77 | "Bob" followed by 98 spaces passes every check, is accepted, and is stored as "Bob" followed by 97 spaces. |
| Contact.WhitespaceNameCrashes | core/views.py:162-171 | A name of spaces passes the emptiness guard and then crashes on `split()[0]`. |
| Contact.SendMessageCorrected | core/views.py:162-171 | With the name guard applied to the stripped name, no input crashes on the first word, and every input that did not crash behaves as written. |
| Contact.ResendWithinWindowIsDuplicate | core/views.py:163-168 | Resending an accepted message within five minutes, from an address no longer than its column, is refused as a duplicate. |
| Contact.PaddedAddressEscapesDuplicate | core/views.py:163-174 | An accepted address padded past 254 characters is stored cut, so the duplicate filter, which compares the address as posted, never matches it, and the same message is accepted again at once. |
| Contact.ResendAfterWindowIsAccepted | core/views.py:163-168 | Resending once the window has passed, with no other recent copy, is accepted again. |
| Users.NormalizeEmail | accounts/models.py:12-13 | With an '@' in the stripped address, the stored address is the stripped one with everything up to its last '@' kept exactly and the domain after it lower-cased. Without one, the address is stored as given. |
| Users.NormalizeEmailIdempotent | accounts/models.py:12-13 | Normalising a stored address again changes nothing. |
| Users.NewUser | accounts/models.py:9-16 | The row carries the username and password given and the normalised email (a falsy email is kept as is). It is inactive whatever the extra fields say. |
| Users.CreateUser | accounts/models.py:9-31 | Neither a username nor an email is refused. A value that runs past its column (username 150, email 254, first and last name 30) with a character other than a space is refused by the save. Otherwise the row is stored with each value cut to its column, and a new inactive user is appended exactly when neither its stored username nor its stored email is taken. Nothing else changes. |
| Users.Stored | accounts/models.py:28-31 | The row as the table holds it: the identity, password and flags are kept, and each character value becomes a prefix of itself no longer than its column. |
| Users.UnpaddedIsStoredAsGiven | accounts/models.py:28-31 | A row whose values do not end in a space fits iff every value is within its width, and is then stored exactly as given. |
| Users.CreateSuperuser | accounts/models.py:20-24 | Staff and superuser default to true, but the created user is still inactive. |
| Users.CreateUserKeepsValid | accounts/models.py:9-18 | User creation keeps keys, usernames and emails unique. |
| Users.AppendKeepsValid | accounts/models.py:28-29 | Appending a row whose username and email are free keeps the unique columns unique. |
| Users.DisplayName | accounts/models.py:41-42 | `__str__` is the username when non-empty, else the email. |
| Users.ExpiryBoundary | accounts/models.py:51-52 | A token is live at its creation and at exactly fifteen minutes, and expired one second later. |
| Users.ExpiryIsPermanent | accounts/models.py:51-52 | An expired token stays expired. |
| AccountViews.FirstFree | accounts/views.py:39-43 | The reference name: the first of `base`, `base1`, `base2`, … that is not taken. It is the base itself when that is free. |
| AccountViews.FirstFreeIsUnique | accounts/views.py:39-43 | There is only one first free name. |
| AccountViews.GenerateUniqueUsername | accounts/views.py:37-44 | The counter loop returns a username no user has: the slug itself if free, else the slug followed by the least free counter. |
| AccountViews.SuggestFrom | accounts/views.py:47-51 | The hex fallback is used exactly when every draw is taken. Otherwise the suggestion is the base plus the first draw whose name is free. |
| AccountViews.SuggestUsername | accounts/views.py:46-51 | Against the user table: the base plus six hex characters exactly when all five draws are taken, else the base plus the first free draw, which no user has. |
| AccountViews.FirstFreeDrawIsUnique | accounts/views.py:47-50 | Only one draw is the first free one, so the table and the draws determine the suggestion. |
| AccountViews.CheckUsername | accounts/views.py:57-62 | An empty stripped, lower-cased name gives the error "Username cannot be empty" and is unavailable. Otherwise the name is available iff no user has it. |
| AccountViews.CheckAgreesWithSignup | accounts/views.py:57-62 | For a typed name already in lower case, the check reports it available exactly when signup's username guard lets it through. |
| AccountViews.CheckDisagreesWithSignup | accounts/views.py:58-82 | A typed name holding a capital, stored as typed, is reported available by the check while signup refuses it as taken. |
| AccountViews.CheckUsernameCorrected | accounts/views.py:57-62 | The corrected check looks the stripped name up without lower-casing. An empty name is an error, and otherwise the name is available iff no user has it. |
| AccountViews.CheckCorrectedAgreesWithSignup | accounts/views.py:57-82 | The corrected check agrees with signup's username guard on every non-empty name. |
| AccountViews.LastUnused | accounts/views.py:118 | `.last()` of the user's unused tokens: it is none iff the user has no unused token, else the latest such row. |
| AccountViews.SendVerification | accounts/views.py:117-130 | With a live unused token nothing happens. Otherwise exactly one unused token stamped `now` is appended and one email goes to the user's address, with the verify link built on `BASE_URL`. The users table never changes. |
| AccountViews.ReissueWithinLifetimeIsNoOp | accounts/views.py:118-121 | Within fifteen minutes of issuing a token, asking again sends nothing and creates nothing. |
| AccountViews.VerifyEmail | accounts/views.py:133-150 | An unknown or used token gives "invalid" and an expired one gives "expired"; both change nothing. Success activates the token's owner and marks the token used, touching no other row. |
| AccountViews.VerifyIsSingleUse | accounts/views.py:134-147 | A token that verified once is "invalid" on every later visit, and changes nothing. |
| AccountViews.Register | accounts/views.py:99-109 | Registration succeeds iff `create_user` accepts the user. On success the user is appended, the next key advances, and at most one verification email is sent. When `create_user` raises instead (no identity, a value that runs past its column with a character other than a space, or a unique column already holding the value), the result is a server error and nothing changes. |
| AccountViews.Signup | accounts/views.py:68-109 | A signed-in visitor is redirected. A typed username that is taken gets a suggestion. An email stored as typed is refused. Any refusal creates no user and sends nothing. A form that passes both guards is exactly a `Register` of the chosen username, so it succeeds iff `create_user` accepts it. The redirect happens iff the visitor is signed in. |
| AccountViews.SignupStoredAsTyped | accounts/views.py:73-106 | Signup strips every value it passes on, so the user it builds fits iff every value is within its width, and the table then holds that user unchanged. |
| AccountViews.ChosenUsernameIsFree | accounts/views.py:79-94 | Past the username guard, the username signup uses is free. |
| AccountViews.RegisterSendsVerification | accounts/views.py:99-108 | A successful registration sends exactly one email, to the stored address, with the link of the one new token, which belongs to the new user. |
| AccountViews.SignupSendsVerification | accounts/views.py:68-109 | A successful signup leaves the new user inactive and emails one verify link for a token issued to that user. |
| AccountViews.NormalizeLowersDomain | accounts/models.py:12-13 | A stripped `local@domain` with one '@' is stored as `local@lower(domain)`. |
| AccountViews.UpperDomainIsRewritten | accounts/models.py:12-13 | A capital letter in the domain makes the stored address differ from the typed one. |
| AccountViews.EmailGuardMissesStoredForm | accounts/views.py:96-106 | An address whose typed form is free but whose normalised form is stored passes the guard and then fails on the unique column. |
| AccountViews.SignupCorrected | accounts/views.py:96-106 | With the guard on the stored form, the unique email column can no longer refuse the user. Creation can still fail only on a value longer than its column or on a form with neither a username nor an email. Every form that neither guard stops behaves as written. |
| Auth.Resolve | accounts/auth_backends.py:16-27 | The match on username or case-insensitive email is taken when it is unique. When it is ambiguous, only an exact username match is taken, and none gives "not found". |
| Auth.Authenticate | accounts/auth_backends.py:6-31 | A missing name or password, or no match at all, is refused. A user is returned exactly when the lookup settles on one, their password checks and they are active. A returned user matched the normalised key. An error arises only from a duplicated username. |
| Auth.UniqueMatchDecides | accounts/auth_backends.py:14-31 | When exactly one user matches the key by username or email, that user is returned iff the password checks and the account is active, and otherwise the login is refused. |
| Auth.ValidNeverErrs | accounts/auth_backends.py:22-27 | With unique usernames the backend never raises. |
| Auth.LoginIgnoresCaseAndSpace | accounts/auth_backends.py:14 | Login names equal after stripping and lower-casing authenticate alike. |
| Auth.ResolvePrefersName | accounts/auth_backends.py:22-25 | When the key is one user's username and another user's email, the username owner is chosen. |
| Auth.UsernameMatchWins | accounts/auth_backends.py:22-31 | In that case the result is the username owner if the password checks and the account is active, else a refusal. |
| Auth.InactiveNeverAuthenticates | accounts/auth_backends.py:29-31 | Inactive accounts never authenticate, whatever the password. |
| Auth.UpperCaseUsernameIsUnreachable | accounts/auth_backends.py:14-18 | A username holding a capital letter never matches as a username, because the key is lower-cased first. |
| Tasks.MessageOf | DNarai/tasks.py:18-24 | A falsy sender becomes `DEFAULT_FROM_EMAIL` and a falsy text becomes the fixed fallback. Subject and recipients pass through. |
| Tasks.DefaultsAreStable | DNarai/tasks.py:18-22 | The defaults apply once: a built message passes through unchanged. |
| Tasks.Outcome | DNarai/tasks.py:12 | The reference run stops at the first attempt that ends the task, within 1 + 3 attempts. It completes iff some attempt in the budget ends it, and it sends one message per attempt made. |
| Tasks.Execute | DNarai/tasks.py:12 | The retry loop computes exactly the reference run, with at most four attempts. |
| Tasks.FailingBodyIsRetriedOut | DNarai/tasks.py:30-32 | A body that always raises is run four times and sends nothing. |
| Tasks.SendEmailTaskDelivers | DNarai/tasks.py:24-32 | The generic task completes iff one of its first four sends succeeds, and hands the same message to the backend once per attempt. |
| Tasks.CompletionLink | DNarai/tasks.py:54 | The completion link is the site address, then the completion path, then the booking's completion token as one segment ("None" when absent), then a closing '/'. |
| Tasks.CompletionMessage | DNarai/tasks.py:47-60 | The prompt has the fixed subject and the default sender, goes to the booking's email alone, and carries the completion link. |
| Tasks.CompletionAttemptWith | DNarai/tasks.py:40-70 | An unknown booking returns without retry, and so does a booking without email. A missing site setting raises and is retried. Otherwise one prompt goes to the booking's address. |
| Tasks.CompletionAttempt | DNarai/tasks.py:40-70 | As written: an unknown booking returns, and any prompt sent carries a link on `SITE_URL`. |
| Tasks.MissingSiteUrlNeverSends | DNarai/tasks.py:54-58 | Without `SITE_URL`, every prompt for a booking with an email raises on all four attempts and is never sent. |
| Tasks.CompletionAttemptCorrected | DNarai/tasks.py:52-60 | With the link built on `BASE_URL`, an attempt only raises on a duplicated id, and an unknown booking still returns. |
| Tasks.CorrectedPromptReachesMentee | DNarai/tasks.py:41-62 | On a valid table the corrected prompt goes to the booking's address alone. Its link carries the completion token, which looks up that same booking. |
| Scenarios.RouteToken | core/views.py:61-63 | A token the confirm route extracts from a URL rebuilds that exact URL. |
| Scenarios.RouteTokenOfLink | core/views.py:61-63 | The emailed mentor link routes back to the token it was built from. |
| Scenarios.InviteLinkConfirmsOnce | core/views.py:34-110 | On a valid table, the mentor link of a new booking confirms that booking within 48 hours and sends the mentee one email. A second visit is "already confirmed". |
| Scenarios.VerifyOwnedToken | accounts/views.py:135-147 | An unused, unexpired, unique token owned by a unique user verifies exactly that user. |
| Scenarios.VerifyAppended | accounts/views.py:135-147 | A token appended with a new user verifies that user. |
| Scenarios.SignupThenVerify | accounts/views.py:99-147 | A successful signup followed within fifteen minutes by its emailed token activates exactly the new account. |

## Left out

- Templates, `render`, `HttpResponse`, redirects, `messages`, the AJAX branch and the `login_required` decorators: responses are outcome tags.
- URL routing: the model does not check that a route exists for `complete_session_view` or for the `/complete-session/<token>/` link the completion prompt carries (no route exists for either).
- The GET branches of the views, which only render forms.
- `index`, `booking_success_view` and `custom_404`, which only render templates.
- Celery itself: the broker, `delay`, `apply_async`, the 60-second retry delay and beat. A queued task is a `Mail.Job` record, and a run of a task is the attempt sequence of `Tasks`.
- The reminder sweep configured in the settings, because no such task exists.
- `make_naive` and time zones: every instant is one integer UTC clock in seconds.
- SMTP delivery and the dual email backend: whether a send succeeds is an oracle.
- The sending inside `send_verification_email` is an emitted email record.
- Password hashing: `check_password` is a parameter and passwords are kept as given.
- `login_view`, `logout_view` and the password-reset views and forms.
- `uuid4` and `random.randint`: their values are parameters, with the range and alphabet they can take.
- The admin site, form widgets, settings parsing and front-end scripts.
- Text.Lower: only ASCII capitals are lowered, not the full Unicode mapping of Python's `str.lower`.
- Text.Slugify: models ASCII input only. Non-ASCII characters are dropped rather than decomposed by NFKD first.
- Bookings.Create: a form that sets lifecycle fields itself (`fields="__all__"`) is not modelled. The new row takes the model defaults.
- Tasks.CompletionAttemptWith: reads the table once; changes between retries are not modelled.
- AccountViews.SendVerification: a user without an email is modelled as the recipient "" rather than Python's `[None]`.
- Sessions.SessionEnd: the fallback to the bare preferred time (core/models.py:69) is not modelled. It cannot run, because `session_duration` is a required foreign key and reading a missing one raises before the test.
- Contact.SendMessageCorrected: corrects the blank-name crash only. A value that runs past its column with a character other than a space still fails with a data error, as in the code as written.
- AccountViews.SignupCorrected: corrects the email guard only. A value longer than its column still fails creation with a server error, as in the code as written.
- Contact.ResendWithinWindowIsDuplicate: holds for addresses of at most 254 characters only. A longer address padded with spaces is stored cut and escapes the duplicate filter (`Contact.PaddedAddressEscapesDuplicate`).
- Auth.Authenticate: the `kwargs` fallback on `USERNAME_FIELD` is not modelled. It never applies, because that field is `username` and the named parameter captures it.

## Findings

| source | as written | input that shows it | evidently intended | confidence | as-written member | corrected member |
|---|---|---|---|---|---|---|
| DNarai/tasks.py:54-58 | The completion prompt reads `settings.SITE_URL`, which the settings never define. The AttributeError is caught, so every attempt is retried, and the prompt is never sent. | any booking with an email, with `SITE_URL` unset | build the link on `BASE_URL`, which the settings define | not executed | Tasks.MissingSiteUrlNeverSends | Tasks.CompletionAttemptCorrected |
| core/views.py:162-171 | The emptiness guard tests the raw `full_name`, so a name of white space passes, and `full_name.split()[0]` then raises IndexError. | full_name "   ", any email and message | refuse a blank name like a missing one | not executed | Contact.WhitespaceNameCrashes | Contact.SendMessageCorrected |
| accounts/views.py:96-106 | The email guard looks for the address as typed, while `create_user` stores the normalised address, so an address that differs only in the case of its domain passes the guard and fails on the unique column. | "bob@EXAMPLE.com" with "bob@example.com" stored | look for the address in its stored form | not executed | AccountViews.EmailGuardMissesStoredForm | AccountViews.SignupCorrected |
| accounts/views.py:57-62 | `check_username` lower-cases the name before looking it up, while signup looks the typed name up as typed and stores it with its case. So the check reports a stored name that holds a capital as available, and signup then refuses it as taken. | "Bob" with a user "Bob" stored | look the name up as signup does | not executed | AccountViews.CheckDisagreesWithSignup | AccountViews.CheckUsernameCorrected |
