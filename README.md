# Refresh-session lifecycle of social-media-app-server, in Dafny

This project models the authentication core of the NestJS server
`social-media-app-server`: the token service that signs and verifies access
and refresh tokens, the user service over the user table, the authentication
service that reconciles refresh sessions on signup, login, refresh and logout,
the guard that turns an `Authorization` header into an authenticated user, and
the controller that carries the refresh token in the `___refresh_token`
cookie.

A refresh session is a row `(id, sub, username, ip, userAgent, valid)`. Rows
are never deleted: logout clears `valid`, and the reconciliation
(`retrieveRefreshToken`) either reuses a valid row, rejects an invalid one
with `SessionExpired` (refresh), resurrects an invalid one (signup and login),
or creates a row when none matches. Which row is consulted depends on whether
the payload carries a truthy `id` (refresh) or only the fingerprint
`(sub, ip, userAgent)` (signup and login).

Layout, one module per file:

- `common.dfy` (`Common`): `Option`, `Result`, the error taxonomy (one
  constructor per exception kind) and the HTTP status of each error.
- `codec.dfy` (`Codec`) and `crypto.dfy` (`Crypto`): symbolic stand-ins for
  jsonwebtoken and argon2 with real bodies. A token is a space-free string;
  it verifies under the secret it was signed with, never under another one,
  and only if it is exactly the signature of what it decodes to. A password
  verifies against its own hash and no other password does.
- `jwt_service.dfy` (`JwtService`): the configuration read by the token
  service's constructor, the default lifetimes (1200 s, 86400 s in
  development, 630720000 s for refresh tokens) and the four sign/verify
  operations.
- `tables.dfy` (`Tables`): the lowest-id scan both stores use for lookups
  that are not by primary key.
- `users.dfy` (`Users`): the user table as values, and the class
  `UserStore` with the user service's operations.
- `sessions.dfy` (`Sessions`): the session table as values, and the class
  `SessionStore` with the four store calls the authentication service makes.
- `auth_service.dfy` (`Auth`): the reconciliation and the four flows as
  functions from the tables before to the answer and the tables after, the
  lemmas about them, and the class `AuthService` whose methods change the
  stores step by step and are proved equal to those functions.
- `guard.dfy` (`Guard`): header parsing (`split(' ')[1]`), the
  protected-status rule, authentication and `AuthGuard.CanActivate`.
- `controller.dfy` (`Controller`): cookies and response bodies, and the
  class `AuthController`.

Quirks kept as the code has them:

- `refreshAuth` builds an `InvalidSessionRequestException` on a fingerprint
  mismatch but never throws it (src/auth/auth.service.ts:199-205), so a
  refresh token presented from another IP or user agent still succeeds
  (`Auth.RefreshIgnoresFingerprintMismatch`). The mismatch test also fires
  when the token's `valid` claim is not true. A variant that does throw is
  kept apart as `Auth.HardenedRefreshOutcome` / `Auth.AuthService.HardenedRefreshAuth`
  and is not used by the controller.
- The logout route builds a `BadRequestException` for a missing cookie and
  never throws it (src/auth/auth.controller.ts:164); the absent token goes on
  to the service, whose verification fails, and the answer is "Logged out
  with error".
- A handler marked `Public()` inside a controller marked `Protected()` stays
  protected, because the two statuses are combined with `||`
  (src/common/guards/auth.guard.ts:37).
- The reconciliation is check-then-create with no uniqueness constraint on
  the fingerprint; the model is sequential (see Left out).

## Model

| member | source | states |
|---|---|---|
| Common.HttpStatus | src/auth/auth.controller.ts:29-35 | the five domain errors, and only they, answer 400; `Unauthorized`, and only it, answers 401; every other error 500 |
| Crypto.Sign | src/auth/jwt/jwt.service.ts:24-30 | a signed token is non-empty and made of code characters only (no space) |
| Crypto.Verify | src/auth/jwt/jwt.service.ts:80-88 | any verification failure is `TokenInvalid` |
| Crypto.VerifySign | src/auth/jwt/jwt.service.ts:24-30 | verifying a token under the secret that signed it yields exactly the signed payload |
| Crypto.VerifyOtherSecret | src/auth/jwt/jwt.service.ts:70-88 | a token never verifies under a different secret |
| Crypto.VerifySound | src/auth/jwt/jwt.service.ts:70-88 | a token that verifies is exactly the signature, under that secret, of the claims it yields |
| Crypto.VerifyEmpty | src/auth/auth.controller.ts:164-166 | the empty token (an absent cookie) never verifies |
| Crypto.Hash | src/auth/auth.service.ts:107 | a hash is non-empty |
| Crypto.HashVerify | src/auth/auth.service.ts:156-159 | `argon2.verify`; characterised by `Crypto.HashVerifyExactly`: true if and only if the stored text is the password's hash under some salt |
| Crypto.HashVerifyOwn | src/auth/auth.service.ts:156-159 | a password verifies against its own hash, whatever the salt |
| Crypto.HashVerifyUnique | src/auth/auth.service.ts:156-159 | two passwords that verify against one hash are equal |
| Crypto.HashVerifyOther | src/auth/auth.service.ts:156-161 | any other password fails against a hash |
| Crypto.HashVerifyExactly | src/auth/auth.service.ts:156-159 | a stored text verifies a password if and only if it is that password's hash under some salt |
| JwtService.NewJwtConfig | src/auth/jwt/jwt.service.ts:18-22 | keeps both secrets; development mode exactly when NODE_ENV is "development" |
| JwtService.EffectiveExpiresIn | src/auth/jwt/jwt.service.ts:36-39 | a supplied `expiresIn` overrides the default, which applies only when none is supplied |
| JwtService.SignAccessToken | src/auth/jwt/jwt.service.ts:32-49 | lifetime is the override if given, else 86400 s in development and 1200 s otherwise; milliseconds are seconds times 1000; the token verifies as an access token to the payload |
| JwtService.SignRefreshToken | src/auth/jwt/jwt.service.ts:51-68 | lifetime is the override if given, else 630720000 s; milliseconds are seconds times 1000; the token verifies as a refresh token to the payload |
| JwtService.VerifyAccessToken | src/auth/jwt/jwt.service.ts:70-78 | failure is `TokenInvalid`; success only for the access secret's signature of the claims returned |
| JwtService.VerifyRefreshToken | src/auth/jwt/jwt.service.ts:80-88 | failure is `TokenInvalid`; success only for the refresh secret's signature of the claims returned |
| JwtService.AccessDefaultMilliseconds | src/auth/jwt/jwt.service.ts:36-41 | the default access lifetime is 86400000 ms in development and 1200000 ms otherwise |
| JwtService.RefreshDefaultMilliseconds | src/auth/jwt/jwt.service.ts:55-60 | the default refresh lifetime is 630720000000 ms |
| JwtService.NoCrossKindVerification | src/auth/jwt/jwt.service.ts:32-88 | with distinct secrets, an access token is refused as a refresh token and the other way round |
| JwtService.ForeignAccessTokenRefused | src/auth/jwt/jwt.service.ts:70-78 | an access token signed under another access secret is refused with `TokenInvalid` |
| Users.Present | src/user/user.service.ts:27-38 | a returned user has the row's fields, and its password exactly when asked `withPassword` |
| Users.Strip | src/auth/auth.service.ts:179 | removes the password and changes nothing else |
| Users.FindUser | src/user/user.service.ts:27-38 | `None` exactly when no row has the id; otherwise that row, presented |
| Users.FindUserByEmail | src/user/user.service.ts:40-51 | `None` exactly when no row has the email; otherwise a stored row with that email, presented |
| Users.CreateUser | src/user/user.service.ts:10-21 | fails with `UniqueViolation`, changing nothing, exactly when the email is taken; otherwise stores the row under the next id and returns it presented |
| Users.CreateUserKeepsValid | src/user/user.service.ts:10-21 | creation keeps ids under their keys, below the counter, and emails unique; the new id was unused |
| Users.UpdateUser | src/user/user.service.ts:53-64 | a DTO with no keys gives an empty `select`, refused as `InvalidQuery`; otherwise the update succeeds exactly when row `id` exists and no other row holds the DTO's email; a missing row is `RecordNotFound`, a taken email `UniqueViolation`, and any failure leaves the table unchanged; on success every field of row `id` is the DTO's value where the DTO has one and the old value otherwise |
| Users.DtoKeys | src/user/user.service.ts:57 | the keys listed are exactly the fields the DTO holds, each once |
| Users.SelectFrom | src/user/user.service.ts:57-60 | the reduce adds exactly the listed keys to what was there, each set to true |
| Users.ApplyUpdate | src/user/user.service.ts:54-56 | each field the DTO holds is replaced, every other field and the id are kept |
| Users.UpdateUserWritesOnlyRow | src/user/user.service.ts:53-64 | a successful update writes only row `id`, keeps the table valid, and answers exactly the DTO's keys with the DTO's values |
| Users.DecimalRoundTrip | src/user/user.service.ts:66-68 | the decimal rendering of an id reads back as that id |
| Users.DecimalString | src/user/user.service.ts:67 | an id renders as a non-empty run of decimal digits with no leading zero (0 renders as a single digit) |
| Users.RemoveMessage | src/user/user.service.ts:66-68 | the message is the fixed prefix, the id's decimal digits without leading zero, which read back as the id, and the fixed suffix |
| Users.UserStore.Create | src/user/user.service.ts:10-21 | answer and new table are those of `CreateUser`; the table stays valid |
| Users.UserStore.FindOne | src/user/user.service.ts:27-38 | answers `FindUser` on the current table; a found user has the asked id |
| Users.UserStore.FindOneByEmail | src/user/user.service.ts:40-51 | answers `FindUserByEmail`; a found user has the asked email |
| Users.UserStore.Update | src/user/user.service.ts:53-64 | answer and new table are those of `UpdateUser`; the table stays valid |
| Users.UserStore.FindAll | src/user/user.service.ts:23-25 | answers the fixed placeholder message |
| Users.UserStore.Remove | src/user/user.service.ts:66-68 | answers the removal message for the id and deletes nothing |
| Sessions.FindSessionById | src/auth/auth.service.ts:40-42 | `None` exactly when no row has the id; otherwise that row |
| Sessions.FindFirstSession | src/auth/auth.service.ts:44-52 | `None` exactly when no row has the fingerprint; otherwise a stored row with it, the lowest-id one |
| Sessions.CreateSession | src/auth/auth.service.ts:68-73 | fails with `UniqueViolation`, changing nothing, exactly when a given id is taken; otherwise adds one row from the data under the given id or the next one |
| Sessions.CreateSessionFresh | src/auth/auth.service.ts:68-73 | the created id was unused and the table stays valid |
| Sessions.UpdateSessionValid | src/auth/auth.service.ts:59-64 | `RecordNotFound`, changing nothing, exactly when the id is missing; otherwise that row with the new flag |
| Sessions.UpdateSessionValidFrame | src/auth/auth.service.ts:244-249 | setting the flag keeps the table valid, keeps its ids and touches no other row |
| Sessions.SessionStore.FindById | src/auth/auth.service.ts:40-42 | answers `FindSessionById` on the current rows |
| Sessions.SessionStore.FindByTriple | src/auth/auth.service.ts:44-52 | answers `FindFirstSession`; a found row has the fingerprint |
| Sessions.SessionStore.Create | src/auth/auth.service.ts:68-73 | answer and new table are those of `CreateSession`; the table stays valid |
| Sessions.SessionStore.SetValid | src/auth/auth.service.ts:59-64 | answer and new table are those of `UpdateSessionValid`; the table stays valid |
| Auth.AccessClaims | src/auth/auth.service.ts:115-120 | the access payload carries the subject, username, IP and user agent given, and no id and no `valid` claim |
| Auth.SessionClaims | src/auth/auth.service.ts:76 | the refresh payload carries the whole session row: id and `valid` are present and the row is recovered from the claims exactly |
| Auth.GetAccessToken | src/auth/auth.service.ts:84-87 | the token verifies as an access token to the payload; default lifetime in milliseconds |
| Auth.LookupSession | src/auth/auth.service.ts:39-53 | a row found is the stored row under its id |
| Auth.IdTruthy | src/auth/auth.service.ts:39 | an id counts as absent exactly when it is missing or 0 |
| Tables.FirstWhere | src/auth/auth.service.ts:44-52 | the row found is the lowest id in range satisfying the filter; none found means no row in range satisfies it |
| Auth.Reconcile | src/auth/auth.service.ts:55-74 | the table stays valid and no row disappears; a resolved session is valid and stored under its id; a failure writes nothing |
| Auth.RetrieveOutcome | src/auth/auth.service.ts:32-82 | fails exactly when the reconciliation does, with its error and table; otherwise the refresh token verifies to the whole resolved row, with a 630720000000 ms lifetime |
| Auth.LookupByIdOnly | src/auth/auth.service.ts:39-42 | with a truthy id the fingerprint plays no part: the row found is `findUnique` by that id, i.e. the row stored under it, and none when the id is not stored |
| Auth.LookupByFingerprint | src/auth/auth.service.ts:43-53 | without a truthy id, a row found has the fingerprint, and none is found exactly when no row has it |
| Auth.ReconcileExpired | src/auth/auth.service.ts:55-56 | an invalid row without `revalidate` is `SessionExpired` and nothing is written |
| Auth.ReconcileResurrects | src/auth/auth.service.ts:58-65 | an invalid row with `revalidate` is made valid: that row changes, no row is added, the counter stays |
| Auth.ReconcileReuses | src/auth/auth.service.ts:55-76 | a valid row is used as it is and nothing is written, whatever `revalidate` is |
| Auth.ReconcileCreates | src/auth/auth.service.ts:67-74 | with no row found, exactly one valid row is added from the payload (keeping a given id); on the fingerprint path it is then the only row with that fingerprint |
| Auth.ReconcileByMissingId | src/auth/auth.service.ts:39-74 | a truthy id that is not stored is created under that id |
| Auth.RevalidatingReconcileSucceeds | src/auth/auth.service.ts:55-74 | signup and login reconciliation (no id, `revalidate`) never fails |
| Auth.SignupOutcome | src/auth/auth.service.ts:89-140 | the password and email failures leave both tables unchanged |
| Auth.LoginOutcome | src/auth/auth.service.ts:142-190 | a successful login answers a user without password |
| Auth.RefreshOutcome | src/auth/auth.service.ts:192-238 | a refresh answers no user; a failed refresh writes nothing |
| Auth.FingerprintMismatch | src/auth/auth.service.ts:199-203 | the check passes exactly when the `valid` claim is present and true and the IP and user agent equal the request's |
| Auth.LogoutOutcome | src/auth/auth.service.ts:240-255 | the table stays valid; success answers true; a failure writes nothing |
| Auth.SignupRejectsMismatch | src/auth/auth.service.ts:94-96 | mismatched passwords fail with `IncorrectConfirmPassword` before any lookup, whatever the tables hold |
| Auth.SignupRejectsExisting | src/auth/auth.service.ts:99-105 | a registered email fails with `UserAlreadyExists` and both tables are unchanged |
| Auth.SignupSucceeds | src/auth/auth.service.ts:107-136 | a new email stores exactly one user under the next id with the hash of the password (which verifies), answers it without password, an access token for it with the default lifetime (86400000 ms in development, 1200000 ms otherwise), a 630720000000 ms refresh lifetime and a refresh token of a stored valid session on the request's fingerprint; the session table is exactly the one the reconciliation of the new user's payload leaves, nothing else written |
| Auth.LoginRejects | src/auth/auth.service.ts:147-161 | an unknown email or a wrong password is `InvalidCredential` and no session is touched |
| Auth.LoginSucceeds | src/auth/auth.service.ts:163-186 | the right password answers the user without password, an access token for that user with the default lifetime (86400000 ms in development, 1200000 ms otherwise), a 630720000000 ms refresh lifetime and a refresh token of a stored valid session on the request's fingerprint; the session table is exactly the one the reconciliation of the user's payload leaves, nothing else written |
| Auth.LoginResurrects | src/auth/auth.service.ts:171-177 | a logged-out session on the same fingerprint is made valid again by login, and nothing else changes |
| Auth.RefreshRejectsBadToken | src/auth/auth.service.ts:197 | a token that does not verify is `TokenInvalid` and nothing is written |
| Auth.RefreshIgnoresFingerprintMismatch | src/auth/auth.service.ts:199-227 | a refresh token naming a stored valid session succeeds from any IP and user agent, whatever its `sub` and `valid` claims, writes nothing, and yields a refresh token of the stored row and an access token bound to the request's fingerprint |
| Auth.RefreshOfInvalidSessionExpires | src/auth/auth.service.ts:215-227 | a refresh naming a stored invalid session is `SessionExpired` and writes nothing: refresh never resurrects |
| Auth.HardenedRefreshRejectsMismatch | src/auth/auth.service.ts:199-205 | the throwing variant fails with `InvalidSessionRequest`, writing nothing, exactly on a mismatch, and otherwise agrees with the code as written |
| Auth.LogoutInvalidates | src/auth/auth.service.ts:240-255 | a token that does not verify is `TokenInvalid` and writes nothing; otherwise the row named by the token's id, and only it, becomes invalid and the answer is true |
| Auth.RefreshAfterLogoutExpires | src/auth/auth.service.ts:192-255 | after a successful logout, refreshing with the same token is `SessionExpired` |
| Auth.AuthService.RetrieveRefreshToken | src/auth/auth.service.ts:32-82 | answer and new session table are those of `RetrieveOutcome` |
| Auth.AuthService.LocalSignup | src/auth/auth.service.ts:89-140 | answer and both new tables are those of `SignupOutcome` |
| Auth.AuthService.LocalLogin | src/auth/auth.service.ts:142-190 | answer and new session table are those of `LoginOutcome`; the user table is not written |
| Auth.AuthService.RefreshAuth | src/auth/auth.service.ts:192-238 | answer and new session table are those of `RefreshOutcome` |
| Auth.AuthService.HardenedRefreshAuth | src/auth/auth.service.ts:199-205 | answer and new session table are those of the throwing variant |
| Auth.AuthService.Logout | src/auth/auth.service.ts:240-255 | answer and new session table are those of `LogoutOutcome` |
| Guard.Split | src/common/guards/auth.guard.ts:23 | at least one field, no field holds the separator, and joining the fields gives back the string |
| Guard.SplitJoin | src/common/guards/auth.guard.ts:23 | splitting undoes joining separator-free fields |
| Guard.ExtractAccessToken | src/common/guards/auth.guard.ts:20-24 | a missing or empty header has no token; a token never holds a space |
| Guard.ExtractSecondField | src/common/guards/auth.guard.ts:23 | of a header of two or more space-free fields, exactly the second is taken |
| Guard.BearerToken | src/common/guards/auth.guard.ts:20-24 | `Bearer <token>` yields the token |
| Guard.NoSpaceNoToken | src/common/guards/auth.guard.ts:23 | a header with no space yields no token |
| Guard.DoubleSpaceEmptyToken | src/common/guards/auth.guard.ts:23 | `Bearer` followed by two spaces yields the empty token |
| Guard.ProtectedStatus | src/common/guards/auth.guard.ts:26-38 | a route is protected exactly when its handler or its controller is marked protected |
| Guard.PublicHandlerStaysProtected | src/common/decorators/access-specifiers.decorator.ts:3-5 | `Public()` on a handler does not lift `Protected()` on its controller |
| Guard.Authenticate | src/common/guards/auth.guard.ts:46-59 | every failure is `Unauthorized`; the user returned has no password |
| Guard.AuthenticateSignedToken | src/common/guards/auth.guard.ts:49-57 | a bearer access token whose subject is stored authenticates exactly that user, without password |
| Guard.AuthenticateSound | src/common/guards/auth.guard.ts:49-57 | authentication succeeds only when the header's token is the access secret's signature of claims whose subject is the user returned |
| Guard.RefreshTokenRefused | src/common/guards/auth.guard.ts:52 | with distinct secrets a refresh token presented as bearer is `Unauthorized` |
| Guard.AuthGuard.CanActivate | src/common/guards/auth.guard.ts:40-64 | an unprotected route passes and the request is untouched; a protected one passes with the authenticated user attached, or fails with `Unauthorized` leaving the request untouched |
| Controller.RefreshCookie | src/auth/auth.controller.ts:47-55 | the cookie is named `___refresh_token`, has path `/`, and is httpOnly, secure and `sameSite: none` |
| Controller.InsertRefreshTokenCookie | src/auth/auth.controller.ts:40-57 | sets the `___refresh_token` cookie (path `/`, httpOnly, secure, SameSite none) to the token, expiring the reported lifetime after now, and keeps the body |
| Controller.RemoveRefreshTokenCookie | src/auth/auth.controller.ts:59-72 | sets the same cookie to the empty value, expiring 5000 ms after now, and keeps the body |
| Controller.SetAndClearSameCookie | src/auth/auth.controller.ts:40-72 | setting and clearing address the same cookie and differ only in value and expiry |
| Controller.RestOf | src/auth/auth.controller.ts:87 | the body is the service's answer less its refresh token, and nothing else is lost |
| Controller.Issue | src/auth/auth.controller.ts:87-93 | an error is passed on unchanged; an answer puts its refresh token in the cookie with its lifetime and the rest in the body |
| Controller.CookieTruthy | src/auth/auth.controller.ts:132 | a cookie counts as missing exactly when it is absent or empty |
| Controller.RefreshResponse | src/auth/auth.controller.ts:124-149 | an absent or empty cookie is `Unauthorized` before the service is asked, and nothing is written; any other cookie yields the service's refresh answer issued as a response (error rethrown, token into the cookie) and the service's new session table |
| Controller.LogoutResponse | src/auth/auth.controller.ts:157-177 | the cookie is always the cleared refresh cookie lapsing five seconds from now; the message is "Logged out" exactly when the service succeeded, and "Logged out with error" otherwise; the session table is the one the service's logout leaves |
| Controller.LogoutWithoutCookie | src/auth/auth.controller.ts:164-176 | a logout without a cookie answers "Logged out with error" and writes nothing |
| Controller.RefreshWithClearedCookie | src/auth/auth.controller.ts:124-177 | the cookie value a logout leaves behind is refused by the refresh route |
| Controller.LoginResponseCarriesToken | src/auth/auth.controller.ts:99-122 | a successful login's cookie holds a refresh token that verifies, and its body holds the user without password |
| Controller.AuthController.LocalSignup | src/auth/auth.controller.ts:74-97 | the response is `Issue` of the signup answer; both tables are those of `SignupOutcome` |
| Controller.AuthController.LocalLogin | src/auth/auth.controller.ts:99-122 | the response is `Issue` of the login answer; the session table is that of `LoginOutcome` |
| Controller.AuthController.Refresh | src/auth/auth.controller.ts:124-149 | response and session table are those of `RefreshResponse` |
| Controller.AuthController.Logout | src/auth/auth.controller.ts:157-177 | response and session table are those of `LogoutResponse` |

## Left out

- Token timestamps: tokens carry no `iat`/`exp`, so verification never refuses an expired token; lifetimes are only reported. A string `expiresIn` such as `"2h"` and other signing options are not modelled.
- jsonwebtoken and argon2 are replaced by symbolic definitions (`Codec`, `Crypto`); nothing about cryptographic strength, base64url or JSON is modelled.
- The argon2 salt is random; it is a parameter (`salt`) of signup.
- Crypto.HashVerify: answers false for a malformed stored hash, where argon2 throws; login then fails with `InvalidCredential` instead of the library's error.
- Missing secrets in the configuration (an undefined secret makes jsonwebtoken throw) are not modelled; secrets are strings.
- Concurrency: the reconciliation's check-then-create (src/auth/auth.service.ts:39-74) can create two rows for one fingerprint when two requests interleave; the model runs one request at a time, so that race is not captured.
- Store behaviour: `findFirst` without ordering is taken to return the lowest matching id; a create with an explicit id moves the id counter past it (the database sequence collision is not modelled); an update whose `where` id is undefined is `InvalidQuery`.
- Store failures other than the modelled ones (connection errors, timeouts) are not modelled.
- The clock is the parameter `now` of the controller operations; `console.log` calls are left out.
- The user agent is modelled as a present string; a request without a `user-agent` header is not modelled.
- DTO validation decorators on `SignUpDto` and `LogInDto` are not modelled; their fields are taken as given.
- Exception classes and their messages: each exception is one `AuthError`; only the HTTP status the filters answer is modelled.
- Nest wiring: dependency injection, the reflector (the metadata reaches `CanActivate` as two parameters), guard registration and the ordering of the guard before the `@Protected()` logout handler.
- `fetchAuthUserDetails` (`/me`) returns the user the guard attached to the request unchanged; it is covered by `Guard.AuthGuard.CanActivate` and has no member of its own.
- src/user/user.controller.ts is not part of this model.
- Ids are natural numbers; non-integral or negative ids in a token payload are not modelled.
- Auth.HardenedRefreshOutcome: not a behaviour of the code; it is the throwing variant the mismatch check evidently aims at, kept beside the model of the code as written.
