# VirtualCardsApi authentication and record core, in Dafny

VirtualCardsApi is a small banking-style web service. Users sign in with an email
and a password and receive a signed bearer token. Every protected endpoint runs the
token through a session guard, then a role-based permission gate, and then
operates on the user and card tables. This project models the core of that service:

- **Revocation registry** (`Security`). A set of `(token, expiry)` pairs that prunes
  itself on every call, as a class with a `set` field. It is also modelled as a replay
  of call histories, which is how the time-window properties are stated.
- **Password hashing and token codec** (`Crypto`). The bcrypt context and the JWT
  library are foreign code, so they are modelled as small concrete stand-ins.
  The rest of the model relies only on these facts about them:
  - a hash verifies exactly the hashed password (real bcrypt looks only at the
    first 72 bytes of a password; see "## Left out");
  - a token decodes, with the right key and algorithm, to its claims before its
    `exp` and fails as expired from then on;
  - anything else fails.
  A token is identified by its algorithm, claims and key, not by its exact text.
- **Session guard and token issuance** (`Dependencies`): password authentication,
  access-token creation with its 15-minute default, the current-user guard, and the
  active-user check.
- **Permission matrix and gate** (`Permission`): the literal role → resource → actions
  table, the default-deny check, the 403 gate, and the start-up bootstrap of the
  first administrator.
- **User table and card table** (`Users`, `Cards`). The SQL tables become classes
  with a `map` from primary key to row. The unique constraints on username and email
  are part of the user table invariant. A commit that would break one of them is an
  `IntegrityError` outcome.
- **Login and logout endpoints** (`Auth`). These tie issuance, guard and registry
  together, and carry two of the findings below.

Time is an integer count of seconds passed in as `now`, so every operation that
reads the clock takes it as a parameter. Card dates are day numbers, with "today"
passed in.

## Model

| member | source | states |
|---|---|---|
| Crypto.Hash | app/api/dependencies.py:25-26 | the digest of a password verifies that password and carries the chosen salt |
| Crypto.VerifyOnlyHashedPassword | app/api/dependencies.py:21-22 | a digest verifies the password it was made from and no other, whatever the salt |
| Crypto.Encode | app/api/dependencies.py:53 | encoding yields a signed token that carries exactly the given claims |
| Crypto.Decode | app/api/dependencies.py:71-75 | a decoded token was signed with the configured key and algorithm; its `exp` is a timestamp later than now; its `sub`, if present, is a string |
| Crypto.DecodeEncode | app/api/dependencies.py:71-75 | round trip: a token decodes to its own claims strictly before its `exp` and fails as expired from `exp` on |
| Crypto.ForgeryRejected | app/api/dependencies.py:71-75 | a token signed with another key or another algorithm never decodes |
| Security.TokenBlacklist.constructor | app/core/security.py:23-24 | the registry starts empty |
| Security.TokenBlacklist.AddToken | app/core/security.py:26-29 | the new contents are the old ones plus `(token, now + minutes)`, pruned at now; the default is 5 minutes; every entry left expires after now |
| Security.TokenBlacklist.IsBlacklisted | app/core/security.py:31-33 | prunes at now first, then answers true iff some remaining entry names exactly that token |
| Security.TokenBlacklist.CleanupExpired | app/core/security.py:35-37 | keeps exactly the entries whose expiry is strictly later than now |
| Security.LivePartition | app/core/security.py:35-37 | pruning removes exactly the entries with expiry ≤ now and keeps every other entry |
| Security.LiveIdempotent | app/core/security.py:35-37 | pruning twice at one instant is pruning once |
| Security.LiveThenLater | app/core/security.py:26-37 | pruning early, inserting, then pruning later equals one later prune |
| Security.StepLeavesOnlyLive | app/core/security.py:26-37 | after any add or query, every stored entry expires strictly after that call's instant |
| Security.QueryKeepsUnexpired | app/core/security.py:31-37 | a query never adds an entry and never removes an unexpired entry, for any token |
| Security.AddInserts | app/core/security.py:26-29 | an add leaves its own pair in the registry iff the lifetime is positive, and otherwise only prunes |
| Security.ReplayIsLiveHistory | app/core/security.py:26-37 | over a chronological history, the registry holds exactly the inserted pairs still in force at the last call |
| Security.RevokedUntilLatestExpiry | app/core/security.py:28-33 | a token is reported revoked iff one of its insertions expires after the current instant, so it stays revoked until its latest expiry |
| Security.RevocationWindow | app/core/security.py:26-37 | a token added once, at s for m minutes, is reported revoked at u iff u < s + m minutes |
| Security.ReAddNeverShortens | app/core/security.py:28-33 | a further add never makes a token that is revoked at a later instant unrevoked there |
| Security.EntrySurvives | app/core/security.py:35-37 | an entry survives every sequence of calls made before its expiry |
| Users.UserByUsername | app/crud/user.py:29-33 | finds a row iff some row has that username, and the found row has it |
| Users.UserById | app/crud/user.py:36-40 | finds a row iff the key is present, and then it is that row |
| Users.ToggleTwice | app/crud/user.py:86 | flipping `disabled` changes only that flag, and flipping twice restores the row |
| Users.Revised | app/crud/user.py:125-146 | a profile update never changes the id, the disabled flag or the role; the password changes only when one is given, and then to a digest of that password |
| Users.NoChangesKeepsRow | app/crud/user.py:125-146 | an update with no field given leaves the row unchanged |
| Users.NewPasswordStoredHashed | app/crud/user.py:129-130 | a new password is stored only as its digest, which verifies that password and no other |
| Users.CollectApplies | app/crud/user.py:125-146 | setting the collected attributes one by one, in the source's order, gives the field-by-field revision |
| Users.UserTable.AddNewUser | app/crud/user.py:13-26 | a row that repeats another row's username or email is rejected with nothing changed; otherwise it is stored under a fresh key and the constraints still hold |
| Users.UserTable.DeleteAccountByUsername | app/crud/user.py:51-62 | reports whether a row had the username, removes exactly that row and keeps all the others unchanged |
| Users.UserTable.DeleteUserById | app/crud/user.py:65-76 | reports whether the key existed and removes exactly that row |
| Users.UserTable.ChangeUsersActivity | app/crud/user.py:79-90 | reports whether the key existed; if it did, exactly that row has its flag flipped |
| Users.UserTable.ChangeUsersRole | app/crud/user.py:93-104 | reports whether the key existed; if it did, exactly that row gets the given role, whatever the string |
| Users.UserTable.ChangeUserInfo | app/crud/user.py:107-149 | unknown username: false, nothing changes; otherwise the row becomes its revision, unless that would repeat another row's username or email, in which case the commit is rejected with nothing changed |
| Cards.CardById | app/crud/card.py:40-51 | finds a card iff the id exists and the caller's carrier owns it or the carrier is -1 |
| Cards.CardsOf | app/crud/card.py:24-29 | exactly the cards whose owner equals the carrier id; -1 is not a wildcard here |
| Cards.ListingIgnoresAnyCarrier | app/crud/card.py:24-45 | a card of another owner is found by id under -1 but is not among the cards listed for -1 |
| Cards.AnyCarrierListingExample | app/crud/card.py:24-45 | one table where the -1 lookup by id finds a card while the -1 listing is empty |
| Cards.RenewOutcome | app/crud/card.py:80-86 | a successful expiry change leaves the card unfrozen with the new date after today, and nothing else changed |
| Cards.RenewOnlyOnce | app/crud/card.py:81-84 | after a renewal, the same card cannot be renewed again, because it is no longer frozen |
| Cards.ScopedCallsIsolateOwners | app/crud/card.py:56-59 | a caller scoped to one owner never changes or deletes another owner's card |
| Cards.AnyCarrierWidens | app/crud/card.py:42-45 | whatever an owner's scope finds, the -1 scope finds too, and it is the same card |
| Cards.CardTable.AddNewCard | app/crud/card.py:12-21 | the card is stored under a fresh key for that carrier, not frozen, every other row is kept, and the next key advances by one |
| Cards.CardTable.DeleteCardById | app/crud/card.py:54-68 | returns true iff a card in scope existed, and only then removes it |
| Cards.CardTable.ChangeCardExpiresDate | app/crud/card.py:72-92 | succeeds iff the card is in scope, frozen and the new date is after today; then only that card is renewed, otherwise nothing changes |
| Dependencies.GetUserAsWritten | app/api/dependencies.py:29-34 | as written, the lookup never finds a user, and fails with an attribute error exactly when the email is registered |
| Dependencies.RegisteredEmailCrashesLookup | app/api/dependencies.py:30-31 | for every registered email, the lookup as written fails |
| Dependencies.GetUser | app/api/dependencies.py:29-34 | finds a user iff some row has the email, and the found row has it |
| Dependencies.GetUserFindsTheRow | app/api/dependencies.py:29-34 | under unique emails, the lookup returns exactly the row that holds the email |
| Dependencies.AuthenticateUser | app/api/dependencies.py:37-43 | returns a user iff a row has the email and its digest verifies the password, so an unknown email and a wrong password fail alike |
| Dependencies.AuthenticateStoredPassword | app/api/dependencies.py:37-43 | a user whose stored digest was made from a password authenticates with that password and with no other |
| Dependencies.ZeroDeltaIsDefault | app/api/dependencies.py:48-51 | a zero lifetime is falsy and gets the same 15 minutes as no lifetime |
| Dependencies.CreateAccessToken | app/api/dependencies.py:46-54 | the token is signed with the configured key and algorithm; it keeps every given claim, adds only `exp`, and `exp` is now plus the lifetime (15 minutes if none or zero) |
| Dependencies.IssuedTokenLifetime | app/api/dependencies.py:46-54 | an issued token decodes to its claims at every instant before its expiry and fails as expired from then on |
| Dependencies.ResolveSession | app/api/dependencies.py:57-85 | a revoked token fails with "Token has been revoked" before any decoding; every other failure is 401 "Could not validate credentials"; success means the token decoded with a subject equal to the returned row's email |
| Dependencies.GuardOutcomes | app/api/dependencies.py:71-85 | an undecodable token and a missing subject give the same 401; otherwise the outcome is exactly the lookup of the subject |
| Dependencies.CheckIfActive | app/api/dependencies.py:17-19 | a user is rejected iff it is disabled, and the rejection is a 400 |
| Dependencies.ActiveOnly | app/api/dependencies.py:88-92 | never yields a disabled user; a disabled user becomes 400 "Inactive user", and anything else passes through unchanged |
| Dependencies.GetCurrentUser | app/api/dependencies.py:57-85 | prunes the registry at now and returns the guard's outcome for the registry's answer |
| Dependencies.GetCurrentActiveUser | app/api/dependencies.py:88-92 | the guard followed by the active check; never returns a disabled user |
| Dependencies.DisabledNeverActive | app/api/dependencies.py:88-92 | a disabled user is never active: a bad token fails with 401 first, and a valid token of a disabled user fails with 400 |
| Permission.CheckPermission | app/api/permission.py:29-41 | allowed iff the role (with "user" when absent) is in the table, the resource is under it and the action is listed exactly; an allowed role is always admin, manager or user |
| Permission.UnknownRoleDenied | app/api/permission.py:33-34 | a role outside the table is denied everything |
| Permission.MissingRoleIsUser | app/api/permission.py:31 | a caller without a role attribute is judged exactly as "user" |
| Permission.AbsentResourcesDenied | app/api/permission.py:19-25 | "user" has no users or check resource, and "manager" has no check resource |
| Permission.PrivilegeMonotone | app/api/permission.py:13-26 | everything a user may do a manager may do, and everything a manager may do an admin may do |
| Permission.AdminOnlyCapabilities | app/api/permission.py:13-26 | the capabilities of admin but not of manager are exactly seven: three on users, two on cards, one on transactions, the health check |
| Permission.ManagerOverUserCapabilities | app/api/permission.py:13-26 | the capabilities of manager but not of user are exactly the three show_all actions |
| Permission.Authorize | app/api/permission.py:45-48 | passes the same user iff the check allows it, rejects an active user who lacks the permission with 403 "Not enough permissions", and passes earlier failures through |
| Permission.RequirePermission | app/api/permission.py:43-50 | the gate equals the guard, then the active check, then the permission check, and prunes the registry at now |
| Permission.GateStopsDisabledFirst | app/api/permission.py:45-48 | a disabled user is stopped with 400 before the table is consulted; the gate never admits a disabled user; a 403 means an active user without the permission |
| Permission.UnknownRoleRowPassesNoGate | app/api/permission.py:33-34 | an active row whose role was set to a string outside the table passes no gate |
| Permission.FirstAdmin | app/api/permission.py:65-74 | the bootstrap row is named and addressed "admin", has role admin, is enabled, and its digest verifies the default password |
| Permission.Admins | app/api/permission.py:56-58 | exactly the keys of the admin-role rows |
| Permission.CreateFirstAdmin | app/api/permission.py:53-77 | one admin: nothing changes; several: the single-row query fails and nothing changes; none: exactly one admin row is added under a fresh key, unless a row already holds username or email "admin", in which case the commit is rejected |
| Permission.BootstrapLeavesOneAdmin | app/api/permission.py:55-76 | after the bootstrap insert there is exactly one admin, so a second bootstrap finds it and changes nothing |
| Permission.BootstrapAdminAuthenticates | app/api/permission.py:65-67 | the bootstrap admin authenticates by email "admin" with the default password and with no other |
| Auth.LoginAsWritten | app/api/endpoints/auth.py:22-37 | fails with 401 "Incorrect username or password" iff authentication fails; otherwise the issued token names the account's username |
| Auth.LoginAsWrittenTokenRejected | app/api/endpoints/auth.py:34-36 | a token from the login as written is never accepted by the guard when the username is nobody's email |
| Auth.LoginAsWrittenAdminAccepted | app/api/endpoints/auth.py:34-36 | the exception: the bootstrap admin's username is also its email, so its token from the login as written resolves to that account until it expires |
| Auth.LoginAsWrittenCounterexample | app/api/endpoints/auth.py:34-36 | for the account alice / alice@example.com, the login succeeds and its token decodes, yet the guard rejects it |
| Auth.Login | app/api/endpoints/auth.py:22-37 | fails iff authentication fails; otherwise the issued token names the email that signed in |
| Auth.LoginThenGuard | app/api/endpoints/auth.py:33-36 | round trip: while not revoked, a login token resolves to the account that signed in before its expiry and is rejected from then on |
| Auth.LogoutFor | app/api/endpoints/auth.py:75-87 | runs the (account, logout) gate; only when it passes is the presented token revoked, and only the registry changes |
| Auth.LogoutAsWritten | app/api/endpoints/auth.py:75-87 | the outcome is the (account, logout) gate's; when the gate passes, the token is revoked for 15 minutes, and otherwise the registry is only pruned |
| Auth.LogoutAsWrittenForgetsEarly | app/api/endpoints/auth.py:81-85 | 20 minutes after logout as written, inside the announced 30, a token not revoked otherwise is no longer reported revoked, and the guard treats it as never revoked |
| Auth.Logout | app/api/endpoints/auth.py:75-87 | the outcome is the (account, logout) gate's; when the gate passes, the token is revoked for the announced 30 minutes, and otherwise the registry is only pruned |
| Auth.LogoutEntryInForce | app/api/endpoints/auth.py:81-85 | the logout's entry survives any calls made before s + 30 minutes and answers the next query there |
| Auth.LoggedOutTokenRejected | app/api/endpoints/auth.py:81-85 | after logout at s, the guard rejects the token as revoked at every instant before s + 30 minutes; a token expiring by then is rejected at every instant after too |

## Left out

- HTTP routing, dependency injection, response headers and the response bodies of the endpoints are not modelled. Errors are values (`HttpError`), not exceptions.
- The database session, async execution and concurrency are not modelled. Each table operation is one atomic step on an in-memory map, and a commit that breaks a unique constraint is a returned `IntegrityError`.
- Which key a rejected insert would have consumed is not modelled: a rejected insert leaves the key counter unchanged.
- The wall clock is a parameter. `add_token` reads the clock twice; the model reads it once. The trace lemmas assume a clock that never goes back.
- The registry compares naive local time, while tokens carry UTC timestamps. The model uses one clock for both.
- Crypto.Hash: the one-wayness of bcrypt and its random salt are not modelled. The salt is a parameter and the digest keeps the password.
- Crypto.Decode: only the `exp` and `sub` claims are checked, with no leeway. The `iat`, `nbf`, `aud` and `iss` claims, and numeric strings as `exp`, are not modelled.
- Cards.CardsOf returns a set, so the order and the list form of the result are not modelled.
- `get_all_existing_cards` (app/crud/card.py:31-37) and `select_all_users` (app/crud/user.py:42-48) are unfiltered selects. They are the table's `rows.Values` and have no member of their own.
- app/models/card.py is not part of this model. A new card is taken to start unfrozen, and card fields are plain strings.
- The sign-in endpoint (input validation, password rules), the admin, account and transaction endpoints, app/crud/transaction.py, main.py and the scheduler are not part of this model.
- The logout endpoint's wrapping of unexpected exceptions into 400 "Logout failed" is not modelled, since no modelled step raises.
- Permission.CreateFirstAdmin: the console messages are not modelled.
- Dependencies.AuthenticateUser, Dependencies.ResolveSession, Dependencies.GetCurrentUser, Dependencies.GetCurrentActiveUser, Permission.RequirePermission, Permission.BootstrapAdminAuthenticates, Auth.LoginAsWritten, Auth.LoginAsWrittenAdminAccepted, Auth.LogoutFor, Auth.LogoutAsWritten and Auth.Logout are built on the corrected email lookup (Dependencies.GetUser). As written, the lookup raises an attribute error for every registered email (first finding). Authentication, the guard, login and every gated endpoint would then fail with a server error, not with the modelled 401 or user.
- Crypto.VerifyOnlyHashedPassword: bcrypt compares only the first 72 bytes of the UTF-8 password, and depending on its version passlib either truncates longer passwords silently or raises. So "and no other" holds for the stand-in, not for the library, when two passwords share their first 72 bytes. Dependencies.AuthenticateStoredPassword, Users.NewPasswordStoredHashed and Permission.BootstrapAdminAuthenticates reuse that half.
- Crypto.Jwt: a token is identified by its algorithm, claims and key. The registry in the source compares raw token strings, and the JWT library decodes base64 leniently, so several spellings of one signed token may be accepted. Revoking one spelling does not revoke the others. That comparison and its bypass are not modelled, so Security.RevocationWindow and Auth.LoggedOutTokenRejected are stated for the token value, not for each string that spells it.

## Findings

| source | as written | input that shows it | evidently intended | confidence | as-written member | corrected member |
|---|---|---|---|---|---|---|
| app/api/dependencies.py:29-34 | `get_user` calls `get_user_by_email` on the user CRUD object, and app/crud/user.py defines no such method; so every registered email raises an attribute error, and nobody can sign in or pass the guard | any email that some row holds | look the row up by email | high, not executed | Dependencies.GetUserAsWritten, Dependencies.RegisteredEmailCrashesLookup | Dependencies.GetUser, Dependencies.GetUserFindsTheRow |
| app/api/endpoints/auth.py:34-36 | login authenticates by email but puts the username in the token's `sub`; the guard looks `sub` up as an email, so the token is rejected unless the username is also some row's email (the bootstrap admin's is) | username "alice", email "alice@example.com", correct password; it only shows once the first finding is fixed, since before that login already fails at the lookup | the token names the email | high, not executed | Auth.LoginAsWritten, Auth.LoginAsWrittenCounterexample | Auth.Login, Auth.LoginThenGuard |
| app/api/endpoints/auth.py:81-85 | logout revokes for 15 minutes while its response says the token is rejected for 30 minutes; after the 15-minute prune, an unexpired token is accepted again | logout at s, same token presented at s + 20 minutes, before its own expiry (possible whenever the configured token lifetime exceeds 15 minutes); it only shows once the first finding is fixed, since before that the logout gate fails at the lookup and nothing is revoked, for a token whose `sub` resolves | revoke for the announced 30 minutes | medium (which of the two numbers is meant is not stated), not executed | Auth.LogoutAsWritten, Auth.LogoutAsWrittenForgetsEarly | Auth.Logout, Auth.LoggedOutTokenRejected |
