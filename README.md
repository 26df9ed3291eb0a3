# auth_app in Dafny

A Dafny model of the credential and session core of a Django authentication app
(`auth_app`), with its properties proved.

The app keeps users, server-side sessions, roles, business elements, access
rules (five permission flags per role and element) and role assignments. It
issues a JWT at login and stores it in a session row. It resolves a request's
user in two places:

- a strict authentication class that turns every failure into a typed error;
- a lenient middleware that tries the bearer token first, then the
  `session_id` cookie, and swallows failures into "no user".

Views revoke sessions with `filter(...).update(is_active=False)`: logout,
password change, and the two administrative deactivations. A `seed_data`
command fills the fixed catalog (five business elements, four roles, a 4 × 5
access-rule table), the demo users and the admin's session. It uses
`get_or_create`, so a second run changes nothing.

Modules, one per file:

- `Base`: optional values, the clock and HTTP status codes, and the textual
  form of identifiers. `IdText` stands for `str(id)`; `ParseId` is the ORM's
  conversion back, and fails on text that is not an identifier.
- `Models`: the record datatypes, `is_expired` against the lookups' freshness
  filter, `check_password`, the row `create_user` builds, soft delete, the
  uniqueness constraints and the read-only user and role queries.
- `Sessions`: the session lookups, the row `create_session` inserts, and
  revocation. `Revoke` and `Count` specify it; the loop `RevokeRows` carries
  it out.
- `Store`: the class `Db`, holding every table as a sequence field plus the
  next identifier, and `Valid()`, which covers primary keys, unique columns
  and foreign keys. Its methods are the user manager, `set_password`,
  `delete` (soft, or hard with its cascades), session insertion, revocation
  and role assignment. The module also holds `get_or_create` on table values.
- `Authentication`: splitting the `Authorization` header, the issued claims,
  `authenticate_credentials` and `authenticate`.
- `Middleware`: `authenticate_by_token`, `authenticate_by_session` and their
  precedence.
- `Exceptions`: the 403 → 401 remap for callers who are not signed in.
- `Serializers`: the registration, login and password-change validators, the
  profile update's writable fields, and the profile and session
  representations.
- `Views`: registration, login, logout, password change and the two session
  deactivations, as methods on `Store.Db`, plus what the revocations mean for
  later requests.
- `Seed`: the data tables, one loop per table, and `Handle`.

The JWT codec is a pair of function parameters: `decode` gives
`Ok(claims) | Expired | Invalid` at the current instant, and `encode` signs.
bcrypt is also a pair of parameters: `hash` for `hashpw` with its salt, and
`verify` for `checkpw`, which can report a malformed hash. The clock is an
integer number of seconds passed in as `now`. Seven days is 604800 s. Record
identifiers come from uuid4 in the app and from a counter (`nextId`) in the
model.

Some behaviour of the code is recorded as written:

- Logout reads the cookie `sessionid`, while login sets `session_id`
  (`Views.LogoutCookie`, `Views.LoginCookie`).
- The cookie channel never reads the user's `is_active`
  (`Middleware.CookieIgnoresActiveFlag`).
- `is_expired` compares with `<` and the lookups with `>`, so a session
  expiring at this very instant is neither (`Models.ExpiryBoundaryGap`).
- Registration assigns only the one default role that `.first()` finds under
  the `-created_at` ordering. After seeding an empty role table, that role is
  `user`, not `admin` (`Seed.RegistrationRoleAfterSeeding`, `Seed.Handle`).
- A logout `sessionid` cookie or a bulk-deactivation `user_id` that is not an
  identifier raises after any earlier update has been applied (status 500 in
  the model).

## Model

| member | source | states |
|---|---|---|
| Base.DigitChar | auth_app/authentication.py:54 | the character written for a decimal digit is a digit of that value |
| Base.IdText | auth_app/authentication.py:54 | `str(id)` is a non-empty string of digits |
| Base.ParseId | auth_app/middleware.py:62-69 | text converts to an identifier exactly when it is non-empty and all digits; anything else is the conversion error |
| Base.ParseIdText | auth_app/views.py:67-69 | reading back the text of an identifier (a cookie value, a `user_id` claim) gives that identifier |
| Base.IdTextInjective | auth_app/authentication.py:54 | distinct identifiers have distinct texts |
| Models.LiveVersusExpired | auth_app/models.py:101-102 | a session the lookups accept is never `is_expired`; an active session that is not expired is accepted exactly when it does not expire at this instant |
| Models.ExpiryBoundaryGap | auth_app/models.py:101-102 | an active session with `expires_at == now` is neither expired nor accepted by the `expires_at__gt=now` lookups |
| Models.CheckPassword | auth_app/models.py:69-73 | true only when bcrypt reports a match; a mismatch or a malformed stored hash gives false instead of an exception |
| Models.NewUser | auth_app/models.py:15-20 | the built row carries the email, the given extra fields (first, last and middle name, flags) or the model defaults (active, not staff, empty names), and the hash of the password only when a non-empty password was given, otherwise the empty password |
| Models.NewUserIgnoresSuperuser | auth_app/models.py:16 | whatever `is_superuser` is passed, the row built is the same |
| Models.SoftDeleted | auth_app/models.py:76-79 | a soft delete deactivates the user and stamps `deleted_at` with now, and leaves every other column as it was |
| Models.RuleOfPairIsUnique | auth_app/models.py:169 | under `unique_together = ['role', 'element']` two rules with the same pair are the same row |
| Models.FindUser | auth_app/authentication.py:39 | `User.objects.get(id=..., is_active=True)` finds a row with that id (active when asked); nothing is found only when every row with that id is inactive and activity was required |
| Models.FindActiveUserByEmail | auth_app/views.py:49-52 | the login lookup finds an active user with that email, or reports that every user with that email is inactive |
| Models.FindUserUnique | auth_app/models.py:38 | with unique primary keys, the lookup returns the one row carrying the id |
| Models.LatestDefaultRole | auth_app/views.py:31 | `filter(is_default=True).first()` under `-created_at` gives a default role with no later-created default role, and nothing exactly when no role is default |
| Sessions.Find | auth_app/authentication.py:29-34 | a lookup returns a stored session that is active, unexpired (`expires_at > now`) and matches the (user, token) or the id; it returns nothing exactly when no stored session does |
| Sessions.NewSession | auth_app/authentication.py:61-70 | `create_session` binds the issued token to the user, active, with `expires_at` seven days after creation |
| Sessions.NewSessionLifetime | auth_app/authentication.py:63 | a new session passes both lookups exactly until seven days after issuance and counts as expired only after that instant |
| Sessions.Revoke | auth_app/views.py:86 | `update(is_active=False)` keeps the table's length and rewrites exactly the rows the filter selects, deactivating them |
| Sessions.Count | auth_app/views.py:319 | the count `update()` reports is at most the table's size, and zero exactly when the filter selects no row |
| Sessions.RevokeRows | auth_app/views.py:318-319 | the row-by-row update produces exactly the revoked table and the reported count |
| Sessions.RevokeLeavesNothingSelected | auth_app/views.py:318-319 | afterwards no selected row is active, and the filters that select active rows select nothing at all |
| Sessions.RevokeIdempotent | auth_app/views.py:86 | running the same revocation twice leaves the table as the first run did |
| Sessions.RevokeOnlyDeactivates | auth_app/views.py:140-145 | revocation never reactivates a session, never touches an unselected row, and changes no column other than `is_active` |
| Sessions.CountIsDeactivations | auth_app/views.py:318-321 | for the active-only filters the reported count is exactly the number of rows moved from active to inactive |
| Sessions.SequentialBulkCounts | auth_app/views.py:318-321 | two bulk deactivations of one user in a row report counts that add up to the first one's: the second reports zero |
| Sessions.RevokeOthersKeepsCurrent | auth_app/views.py:140-145 | the password-change revocation leaves other users' sessions and the sessions with the current token as they were, and deactivates the user's other sessions |
| Sessions.RevokedNotFound | auth_app/authentication.py:29-37 | once every session a lookup would select has been revoked, the lookup finds nothing |
| Store.FindUserByEmail | auth_app/management/commands/seed_data.py:129 | `User.objects.get(email=...)` finds a row with that email, and nothing exactly when the email is not stored |
| Store.FindRoleByName | auth_app/management/commands/seed_data.py:44-50 | the role lookup by name finds a role with that name or reports that none has it |
| Store.FindElement | auth_app/management/commands/seed_data.py:22-28 | the element lookup by (name, type) finds a matching element or reports that none matches |
| Store.FindRule | auth_app/management/commands/seed_data.py:85-95 | the rule lookup by (role, element) finds that pair's rule or reports that none exists |
| Store.HasAssignment | auth_app/models.py:193 | holds exactly when some assignment links that user to that role |
| Store.SessionsOf | auth_app/management/commands/seed_data.py:132-133 | `filter(user=...)` holds exactly the user's sessions, active or not |
| Store.FindElementAppend | auth_app/management/commands/seed_data.py:22-28 | an element appended later never changes what a successful lookup finds, and is found only when nothing earlier matched |
| Store.FindRoleByNameAppend | auth_app/management/commands/seed_data.py:44-50 | the same for the role lookup by name |
| Store.FindRuleAppend | auth_app/management/commands/seed_data.py:85-95 | the same for the rule lookup by (role, element) |
| Store.FindUserByEmailAppend | auth_app/management/commands/seed_data.py:109-117 | the same for the user lookup by email |
| Store.SessionsOfAppend | auth_app/management/commands/seed_data.py:132-139 | appending a session adds it to its own user's sessions and to no one else's |
| Store.WithoutUser | auth_app/models.py:80-81 | a hard delete keeps exactly the other users |
| Store.SessionsNotOf | auth_app/models.py:86 | CASCADE keeps exactly the sessions of other users |
| Store.AssignmentsNotOf | auth_app/models.py:178 | CASCADE keeps exactly the assignments of other users |
| Store.ClearAssigner | auth_app/models.py:181-187 | SET_NULL clears `assigned_by` where it named the deleted user and leaves every other assignment as it was |
| Store.AssignmentsAfterDeleteValid | auth_app/models.py:181-187 | after the two cascades the assignments reference only existing users and roles, and stay unique |
| Store.HardDeleteKeepsValid | auth_app/models.py:80-81 | a hard delete with its cascades keeps every key, uniqueness and reference invariant of users, sessions and assignments |
| Store.GetOrCreateElement | auth_app/management/commands/seed_data.py:22-28 | the element with that (name, type) is found unchanged when it exists, otherwise created with the description under a fresh id and appended; either way it is what the lookup then finds, and validity is kept |
| Store.GetOrCreateRole | auth_app/management/commands/seed_data.py:44-50 | the role is found by name unchanged, or created with the description and default flag; the unique role names are kept |
| Store.GetOrCreateRule | auth_app/management/commands/seed_data.py:85-95 | the (role, element) rule is found unchanged, or created with the five flags; the defaults never touch an existing rule; the pair stays unique and references stay valid |
| Store.GetOrCreateUser | auth_app/management/commands/seed_data.py:109-117 | the user is found by email unchanged, or inserted with the defaults and no password; the unique emails are kept |
| Store.Db.CreateUser | auth_app/models.py:12-22 | an empty email is refused and a taken email hits the unique constraint, and neither stores anything; otherwise exactly the built row is appended under a fresh id, and the store stays valid |
| Store.Db.CreateSuperuser | auth_app/models.py:24-33 | `is_staff` other than True is refused before anything else, and nothing is stored; otherwise the user is created staff, active by default |
| Store.Db.SetPassword | auth_app/models.py:64-67 | exactly that user's password becomes the hash of the new one; every other row and column is unchanged |
| Store.Db.Delete | auth_app/models.py:75-81 | a soft delete rewrites only that user's row and keeps sessions and assignments; a hard delete removes the user, its sessions and its assignments and clears it as assigner; the store stays valid |
| Store.Db.InsertSession | auth_app/authentication.py:61-70 | exactly the new session is appended, under an id no stored session has |
| Store.Db.RevokeWhere | auth_app/views.py:318-319 | the session table becomes the revoked table and the reported count is the number of selected rows; the store stays valid |
| Store.Db.AssignRole | auth_app/views.py:33 | a second assignment of the same (user, role) is refused with nothing stored; otherwise exactly the new assignment is appended |
| Authentication.Split | auth_app/authentication.py:15 | `split(' ')` gives at least one piece, no piece holds the separator, and there are two or more pieces exactly when the text holds one |
| Authentication.SplitJoin | auth_app/authentication.py:15 | joining the pieces back with the separator gives the original header text |
| Authentication.BearerToken | auth_app/authentication.py:10-15 | there is a token exactly when the header starts with `"Bearer "`; it is the piece after the prefix up to the next space, and holds no space |
| Authentication.BearerTokenOf | auth_app/authentication.py:15 | `"Bearer " + token` gives back the token when it holds no space |
| Authentication.IssueClaims | auth_app/authentication.py:51-59 | the claims carry the user's id as non-empty text that reads back as the id, the email, and an expiry seven days after issuance |
| Authentication.AuthenticateCredentials | auth_app/authentication.py:21-49 | never anonymous; an expired signature and an invalid token fail; a missing `user_id` or malformed id escapes; success returns the same token and an active stored user whose id the claim names, with a live session binding the token to that user |
| Authentication.Authenticate | auth_app/authentication.py:9-19 | anonymous exactly when the header lacks the `"Bearer "` prefix; only the missing `user_id` escapes; a success returns an active stored user with a live session for the header's own token; wherever the code as written does not raise the validation error it agrees with `AuthenticateAsWritten`, and that error becomes the bad-format failure |
| Authentication.AuthenticateAsWritten | auth_app/authentication.py:9-19 | anonymous exactly when the prefix is missing; raises exactly when the resolver raises, including the validation error on an id that is not an identifier, which the `except (IndexError, ValueError)` does not catch |
| Authentication.MalformedIdEscapesAsWritten | auth_app/authentication.py:14-19 | a token whose `user_id` is `"abc"` makes the code as written raise, where the intended handler answers with the bad-format failure |
| Authentication.AuthenticatedIff | auth_app/authentication.py:29-40 | in both directions: the resolver yields (u, token) exactly when the token decodes to a non-empty `user_id` naming u, a live session binds the token to u, and u is an active stored user |
| Authentication.LoginThenAuthenticate | auth_app/views.py:57-58 | with the session a login inserted, a request carrying its token resolves to that user and token until the seventh day |
| Authentication.RevokedTokenRejected | auth_app/views.py:84-86 | after logout revokes a token's sessions, that token fails as an expired session |
| Middleware.ByToken | auth_app/middleware.py:27-55 | no bearer prefix, an expired or invalid token give no user; it raises exactly when the payload has no `user_id` or a non-empty one that is not an identifier, so a missing session and an unknown or inactive user give no user; a user is returned only when active and stored, named by the claim, with a live session for the same id and token |
| Middleware.BySession | auth_app/middleware.py:57-70 | a missing or empty cookie, text that is not an identifier, or an id with no live session give no user; with unique session ids, a live session named by the cookie gives a user exactly when its user row exists, and then that user whatever its active flag; only a live session whose user row is gone escapes |
| Middleware.AuthenticateUser | auth_app/middleware.py:15-25 | the token channel's answer wins unless it is "no user", and then the cookie channel decides; the result is "no user" exactly when both channels give none |
| Middleware.BySessionNeverEscapes | auth_app/middleware.py:62-70 | when every session belongs to a stored user, the cookie channel never raises |
| Middleware.CookieIgnoresActiveFlag | auth_app/middleware.py:62-68 | in any store with unique ids, the cookie naming a live session of an inactive user returns that user, while the token channel returns that user for no token at all |
| Middleware.TokenChannelAgreesWithStrict | auth_app/middleware.py:41-50 | in both directions: the lenient token channel finds u exactly when the strict resolver authenticates u with the header's token |
| Middleware.LoginCookieResolves | auth_app/views.py:67-70 | the `session_id` cookie a login sets resolves to the login's user for the session's seven days |
| Middleware.BySessionAsWritten | auth_app/middleware.py:57-70 | raises exactly when the cookie is non-empty text that is not an identifier (the validation error is neither `Session.DoesNotExist` nor `ValueError`), and otherwise agrees with `BySession` |
| Middleware.MalformedCookieEscapesAsWritten | auth_app/middleware.py:62-70 | a `session_id` cookie `"abc"` makes the code as written raise, where the intended handler gives no user |
| Exceptions.BaseHandler | auth_app/exceptions.py:6 | API exceptions keep their status; Http404 and PermissionDenied become 404 and 403; anything else is left unhandled |
| Exceptions.Handle | auth_app/exceptions.py:4-14 | an unhandled exception stays unhandled, a non-403 response and any response to a signed-in caller pass unchanged, and a 403 to a caller who is not signed in becomes the 401 NotAuthenticated response |
| Exceptions.NoForbiddenForAnonymous | auth_app/exceptions.py:8-12 | a caller who is not signed in never receives 403, and only such a 403 is ever rewritten |
| Exceptions.RemapIsFinal | auth_app/exceptions.py:11-12 | rendering the handler's own response again gives the same response |
| Serializers.FieldErrors | auth_app/serializers.py:28-32 | the fields in error are exactly the declared fields whose required, blank and length checks fail |
| Serializers.RegistrationErrors | auth_app/serializers.py:4-32 | the email passes only when present, non-blank and not already stored |
| Serializers.ValidateRegistration | auth_app/serializers.py:34-39 | valid exactly when the field checks pass and the passwords agree; a mismatch alone is a non-field error; the validated data drops `password_confirm`, keeps the given values, and holds email, names and a password of at least 8 characters |
| Serializers.RegistrationExtra | auth_app/serializers.py:41-44 | `create_user` receives the names and the middle name when given, and no active, staff or superuser flags |
| Serializers.RegistrationRejects | auth_app/serializers.py:5-16 | a password shorter than 8 characters, or a taken email, is rejected |
| Serializers.ValidateLogin | auth_app/serializers.py:60-73 | valid exactly when both email and password are present and non-empty, and then carries both unchanged |
| Serializers.ValidatePasswordChange | auth_app/serializers.py:166-193 | valid exactly when all three fields are present and non-blank, the new password has at least 8 characters and the confirmation matches; a mismatch alone is a non-field error |
| Serializers.OldPasswordHasNoMinimum | auth_app/serializers.py:167-171 | any non-empty old password is accepted alongside an acceptable new pair |
| Serializers.UpdateProfile | auth_app/serializers.py:46-58 | a partial update replaces only the names given and keeps id, email, password, flags and deletion stamp |
| Serializers.ProfileIgnoresReadOnly | auth_app/serializers.py:58 | sending `id`, `email`, `created_at` or `updated_at` changes nothing about the update |
| Serializers.ProfileOf | auth_app/serializers.py:49-57 | the profile shows the user's own id and email |
| Serializers.ProfileHidesPassword | auth_app/serializers.py:49-57 | the profile does not depend on the password hash |
| Serializers.SessionOf | auth_app/serializers.py:152-164 | the session representation shows its id, user, expiry and active flag |
| Serializers.SessionViewHidesToken | auth_app/serializers.py:156-163 | sessions differing only in their tokens serialize identically |
| Views.Register | auth_app/views.py:25-37 | invalid input is a 400 that stores no user and no assignment; otherwise a 201 that stores the validated user and at most one assignment, to the latest default role if there is one; the store stays valid |
| Views.Login | auth_app/views.py:40-75 | the status is 200, 400 or 401; 400 exactly when the input is invalid; 200 exactly when the input is valid, an active user has the email and the password matches; a 401 creates no session; success returns the issued token and the profile, stores exactly one session bound to that token and sets `session_id` to its id |
| Views.Logout | auth_app/views.py:82-94 | the bearer branch revokes only the active sessions carrying the token; the `sessionid` cookie, when set, revokes that session; a cookie that is not an identifier raises after the bearer branch |
| Views.ChangePassword | auth_app/views.py:122-147 | invalid input or a wrong old password is a 400 that changes neither passwords nor sessions; success rehashes only that user's password and revokes the user's other active sessions, and none when there is no bearer header |
| Views.DeactivateSession | auth_app/views.py:303-308 | an existing session is set inactive whatever its state, and nothing else changes; an unknown key is a 404 that changes nothing |
| Views.DeactivateAllUserSessions | auth_app/views.py:310-322 | a missing or empty `user_id` is a 400 that changes nothing; otherwise every active session of that user is deactivated and their number reported |
| Views.PasswordChangeKeepsOnlyCurrent | auth_app/views.py:137-145 | after a password change made with token t, t resolves exactly as before and any other token of the user fails |
| Views.PasswordChangeKeepsCurrent | auth_app/views.py:137-145 | the token the change was made with resolves exactly as before |
| Views.PasswordChangeRevokesOthers | auth_app/views.py:137-145 | any other token of the user fails as an expired session |
| Seed.ElementRow | auth_app/management/commands/seed_data.py:13-19 | each element type has its row in `elements_data` |
| Seed.RoleRow | auth_app/management/commands/seed_data.py:36-41 | each role has its row in `roles_data` |
| Seed.RuleTableShape | auth_app/management/commands/seed_data.py:59-83 | the rule table has 20 rows, the four roles crossed with the five element types in table order |
| Seed.RuleTableIsComplete | auth_app/management/commands/seed_data.py:59-83 | every (role, element type) pair appears exactly once, as the rules' uniqueness requires |
| Seed.AdminHoldsEverything | auth_app/management/commands/seed_data.py:60-64 | admin holds all five permissions on every element |
| Seed.OnlyAdminOnAccessRules | auth_app/management/commands/seed_data.py:64-82 | no role other than admin holds any permission on `access_rule` |
| Seed.GuestReadsAllProductsAndShopsOnly | auth_app/management/commands/seed_data.py:78-82 | guest holds only `read_all`, and only on product and shop |
| Seed.DefaultRoles | auth_app/management/commands/seed_data.py:37-40 | admin and user are default roles; manager and guest are not |
| Seed.RegistrationRoleAfterSeeding | auth_app/views.py:31 | on the four roles a run creates on an empty role table (`SeedRoleRows` ensures it creates exactly those), the role registration assigns is `user` |
| Seed.CreatedRolesDefaultAsData | auth_app/management/commands/seed_data.py:36-50 | every role the command creates is a default role exactly when it is admin or user |
| Seed.RuleRow | auth_app/management/commands/seed_data.py:84-94 | the tuple's columns map in order to read, read_all, create, update, delete |
| Seed.SeedElementRows | auth_app/management/commands/seed_data.py:21-33 | every element type ends up present; the table only grows, by at most five rows, and stays valid; every new row carries the name, type code and description of an `elements_data` row; a store that already has them is left unchanged |
| Seed.SeedRoleRows | auth_app/management/commands/seed_data.py:43-55 | every role ends up present; the table only grows, by at most four rows, and keeps unique names; every new row carries the name, description and default flag of a `roles_data` row; from an empty table it creates exactly the four roles in table order; a store that already has them is left unchanged |
| Seed.SeedRuleRows | auth_app/management/commands/seed_data.py:84-99 | every (role, element) pair ends up with its rule; every new rule comes from the table with its own flags; existing rules are never changed; a seeded store is left unchanged |
| Seed.SeedUser | auth_app/management/commands/seed_data.py:108-126 | a user whose email exists is left untouched; otherwise exactly one user and exactly one assignment are added |
| Seed.SeedUserIsGetOrCreate | auth_app/management/commands/seed_data.py:108-123 | that pass equals `get_or_create` by email, then, only when created, `set_password` + `save` and `UserRoles.objects.create` under the next id |
| Seed.SeedUserRows | auth_app/management/commands/seed_data.py:108-126 | every listed email ends up stored; each new user has the row's fields, the hash of its password and its role; one assignment per new user; existing users are untouched; a seeded store is left unchanged |
| Seed.AdminSession | auth_app/management/commands/seed_data.py:128-139 | the admin's one session is kept whatever its state; with none, a session bound to a freshly issued token is added; two or more raise MultipleObjectsReturned |
| Seed.SeedCatalog | auth_app/management/commands/seed_data.py:13-99 | elements, roles and rules end up seeded and valid; all three tables only grow; every new element, role and rule comes from its data row; on an empty role table registration's default role becomes `user`; a seeded catalog is left unchanged |
| Seed.SeedPeople | auth_app/management/commands/seed_data.py:101-143 | users end up seeded even when the session step raises; users, assignments and sessions only grow, one assignment per new user, and every new user comes from a data row with its role; the admin session is seeded unless the session step raises, and then sessions are unchanged; a seeded store is left unchanged |
| Seed.Handle | auth_app/management/commands/seed_data.py:10-143 | the store stays valid; however the run ends, every table only grows, catalog and users are seeded, every new row comes from the data, and on an empty role table the default role becomes `user`; a normal end leaves the store seeded; a run on a seeded store changes nothing at all |

## Left out

- JWT signing and verification and bcrypt are foreign libraries, so they are function parameters (`Decoder`, `Encoder`, `Hasher`, `Verifier`). The model does not capture bcrypt's random salt: one `hash` parameter is used throughout a call.
- uuid4 is an increasing counter; the model relies only on fresh identifiers being distinct. `str(uuid)` is decimal text.
- On a malformed identifier Django's UUID field raises a validation error. Where the handler evidently meant to catch it (`authenticate`, the cookie channel) the model takes the intended behaviour and records the code as written under "## Findings"; elsewhere (the token channel, logout's cookie, bulk deactivation) it escapes.
- `normalize_email`, the email format check of `EmailField` and the whitespace trimming of text fields are not modelled; emails are compared as given.
- `auto_now`/`auto_now_add` timestamps and the `ordering` options are not modelled. Tables keep creation order; `LatestDefaultRole` relies on that, and `created_at` ties are not modelled.
- `MultipleObjectsReturned` from `get` on duplicate rows is modelled only for the admin session. The other lookups return the first match, and the uniqueness invariants rule out duplicates of users and roles.
- The permission classes (`CustomPermission`, `IsAdminUser`) live in a file that is not part of this model. Only the rule record and the seeded table are modelled, not the authorization decision.
- The mock endpoints (`ProductView`, `OrderView`, `UserManagementView`) and the ModelViewSet CRUD boilerplate are left out; they return constants or are framework code.
- `UserProfileView` is left out as a view; its update is modelled as `Serializers.UpdateProfile` on a user value.
- `admin.py` and `urls.py` are declarative configuration and are left out.
- HTTP framing is left out: response bodies, message texts, cookie attributes, `delete_cookie`, and `__call__` assigning `request.user`.
- Request data is a map from field name to text; JSON values of other types are not modelled.
- The seed command's stdout messages are left out. The command is not atomic: in the model, as in the code, the writes before a failing admin-session step stay.
- Concurrent requests and database races are left out; each view is one sequential step on the store.
- Store.Db.CreateSuperuser: states the refusal and the created user's flags; the outcome for an empty or taken email is left to `Store.Db.CreateUser`, which it calls.

## Findings

| source | as written | input that shows it | evidently intended | confidence | as-written member | corrected member |
|---|---|---|---|---|---|---|
| auth_app/authentication.py:14-19 | `except (IndexError, ValueError)` does not catch the validation error the UUID id column raises, so a token whose `user_id` is not an identifier ends the request with a server error | a validly signed token with `user_id` `"abc"` and a bearer header | the bad-format authentication failure, as for the other malformed tokens | medium; not executed | Authentication.AuthenticateAsWritten, Authentication.MalformedIdEscapesAsWritten | Authentication.Authenticate |
| auth_app/middleware.py:62-70 | `except (Session.DoesNotExist, ValueError)` does not catch that validation error, so a `session_id` cookie that is not an identifier makes every request raise | cookie `session_id=abc` with no bearer header | no user, as for an unknown session | medium; not executed | Middleware.BySessionAsWritten, Middleware.MalformedCookieEscapesAsWritten | Middleware.BySession, Middleware.BySessionNeverEscapes |
