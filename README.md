# payflex-microservice: identity sessions, in Dafny

This project models the account and session core of the payflex
microservices. It covers:

- the identity service's six auth services (request a verification code,
  verify it, register, log in, rotate a refresh token, reset a password);
- the stores those services work over: users, verification codes,
  refresh tokens and the Redis profile cache;
- the record schemas and their constraints;
- the zod request validators;
- the controllers that turn service results into HTTP responses;
- the three bearer-token middlewares (identity service, API gateway,
  transaction-history service);
- the API gateway's proxy path rewrite, its rate-limit answer and its
  catch-all 404.

Layout, one module per source file:

- `Common`: sequences as MongoDB collections, strings and decimal numbers.
  `FindFirst` is `findOne`, `Filter` is `deleteMany` read the other way
  round, `DeleteFirst` is `deleteOne`, and `KeysDistinct` is a unique
  index.
- `UserModel`, `VerificationCodeModel`, `RefreshTokenModel`: the three
  schemas, their defaults, enums, hooks and the `toJSON` transform.
- `GenerateToken`: `generateTokens`, with `jwt.sign` as a function
  parameter.
- `Http`: bodies, responses, thrown errors, the request cookie as
  `cookie-parser` decodes it (text, or a query operator), the
  `Authorization` header split and the `jwt.verify` outcome.
- `ValidationSchema`: `registerSchema`, `loginSchema`,
  `requestEmailOTPSchema`, `verifyOTPSchema` and `updatePasswordSchema`.
- `AuthServiceSpec`: each service as a pure transition from one `Stores`
  value to the next, with the outcome (a returned body or a thrown
  error) and the refresh cookie it sets.
- `AuthServiceInvariant`: the store invariant (unique emails and ids, one
  code per email, unique token values, one token per user, tokens owned
  by existing users). One lemma per service proves that the service keeps
  it, for every signer. Apart from it, `IssuedBefore` says that no stored
  token is one the signer gives from the current serial on; the login, the
  refresh and the TTL sweep keep it under the corrected issuer.
- `AuthService`: class `AuthStore`. Its fields are the collections and the
  cache. Its methods do each service's awaited steps in order, and each
  method is proved equal to its transition and to keep the invariant.
- `AuthServiceProperties`: what each service promises: refusals that
  change nothing, exact success states, single-use refresh tokens, and
  login after a password reset.
- `AuthController`, `IdentityAuthMiddleware`, `GatewayAuthMiddleware`,
  `HistoryAuthMiddleware`, `GatewayServer`: pure functions from a result
  or request to the response sent, the error forwarded, or the request
  admitted.

Foreign calls are parameters:

- bcrypt: `Hasher`;
- `jwt.sign`: `Signer`, a function of the token kind, the user and the
  serial number of the issue. As the code calls it, `jwt.sign` depends on
  the second of signing only (`SecondSigner`), so two issues for one user
  within one second give the same token (the generate-token.js:4-10
  finding below). The lemmas that need a new token to be new to the store
  require `IssuedBefore` of the stores they start from; the corrected
  issuer, which gives a new token per issue (`SerialInjective`), keeps
  `IssuedBefore` true across every service;
- `jwt.verify`: `Verifier`;
- `moment` parsing: `DateParser`;
- `crypto.randomInt`: the drawn number, in [1000, 9999);
- the zod email regex: `EmailCheck`;
- `rateLimiter.consume`: `Limiter`;
- the clock: `now`, in milliseconds.

Every awaited store, cache, mail or bcrypt call may throw. That is the
`fault: Option<Step>` parameter, which names the call that throws; a throw
ends the service. The login is the exception: its inner try block
swallows a failure of the token write and goes on to the cache write, so
it takes `faults: set<Step>`, the calls that throw when reached, and one
run can meet two failures (`LoginFailsTwice`). The services are proved
for every value of these parameters.

Three things the code does that a reader might not expect:

- A refresh token is accepted until the TTL index removes it. Refresh
  never compares the stored `expiresAt` with the clock
  (`SweptTokenIsRefused`, `RefreshRotates`).
- Token rotation is two separate store calls, a delete and then a save,
  not one atomic step.
- The OTP validator accepts any four characters, digits or not
  (`OtpCodeNeedNotBeDigits`).

`AuthServiceSpec.RefreshSpec` and `AuthService.AuthStore` run the refresh
service with two corrections from the findings below: a cookie that is not
text is refused with 403 "Invalid refresh token" (the auth-service.js:241
finding), and the new token gets the login's default lifetime
(`RefreshExpiry`, the auth-service.js:257 finding). The code as written is
`RefreshWith` over `RefreshExpiryAsWritten`.

## Model

| member | source | states |
|---|---|---|
| Common.FindFirst | identity-service/src/services/auth-service.js:29 | `findOne`: the index of the first document matching the filter, or none when no document matches |
| Common.Filter | identity-service/src/services/auth-service.js:26 | the documents that satisfy the predicate, in store order, never more than there were |
| Common.DeleteFirst | identity-service/src/services/auth-service.js:252 | `deleteOne`: nothing changes when no document matches; otherwise the result is the collection with exactly the first matching document removed, the others in order |
| Common.Decimal | identity-service/src/services/auth-service.js:37 | `Number.prototype.toString()`: a non-empty digit string without a leading zero |
| Common.DecimalRoundTrip | identity-service/src/services/auth-service.js:37 | reading back the decimal rendering of n gives n |
| Common.DecimalFourDigits | identity-service/src/services/auth-service.js:37 | a number in [1000, 10000) renders as exactly four digits |
| Common.CeilDiv | api-gateway/src/server.js:38 | `Math.ceil(a / b)`: the least q with q·b ≥ a |
| Common.Trim | identity-service/src/models/validationSchema.js:5 | `trim()`: the result is a contiguous piece of the input, everything cut off on either side is whitespace, and the result neither starts nor ends with whitespace |
| Common.TrimIdempotent | identity-service/src/models/validationSchema.js:5 | trimming twice is the same as trimming once |
| Common.ToLower | identity-service/src/models/validationSchema.js:7 | `toLowerCase()`: same length, each character lowered |
| Common.Split | identity-service/src/middlewares/authMiddleware.js:6 | `split(" ")`: at least one field, and no field contains the separator |
| Common.SplitJoin | identity-service/src/middlewares/authMiddleware.js:6 | joining the fields back with the separator gives the original string |
| Common.SplitSecondField | identity-service/src/middlewares/authMiddleware.js:6 | there is a second field iff the string holds the separator; the string is then the first field, the separator and the second field, followed by nothing or by the separator |
| UserModel.ParseRole | identity-service/src/models/user.model.js:16 | a role is accepted iff it is "user", "admin" or "super-admin", and parsing inverts naming |
| UserModel.RoleRoundTrip | identity-service/src/models/user.model.js:16 | every role's name parses back to that role |
| UserModel.ParseGender | identity-service/src/models/user.model.js:17 | a gender is accepted iff it is "male" or "female" |
| UserModel.GenderRoundTrip | identity-service/src/models/user.model.js:17 | every gender's name parses back to that gender |
| UserModel.HashIfModified | identity-service/src/models/user.model.js:39-42 | the pre-save hook re-hashes the password only when it was modified, and changes no other field |
| UserModel.MatchPassword | identity-service/src/models/user.model.js:34-36 | the entered password matches iff hashing it as the save hook does gives the stored hash |
| UserModel.NewUser | identity-service/src/services/auth-service.js:111-120 | a created user has the given id and email, role "user", `is_email_verified` true and the hashed password |
| UserModel.AssignPasswordAndSave | identity-service/src/services/auth-service.js:286-287 | assigning a different password and saving stores its hash and the new update time; assigning the same value changes nothing |
| UserModel.SavedPasswordMatches | identity-service/src/models/user.model.js:34-42 | after a new password is saved, `matchPassword` accepts that password |
| UserModel.ViewIgnoresPassword | identity-service/src/services/auth-service.js:190-206 | the cached and returned profile does not depend on the password |
| UserModel.View | identity-service/src/services/auth-service.js:127-139 | the profile drops only the password and the verification flag: with those two it rebuilds the user |
| UserModel.ViewMatchesDocument | identity-service/src/services/auth-service.js:127-139 | every field of the profile equals the value the stored document holds under that field's key, whatever its version; none of these keys is one that `toJSON` drops |
| UserModel.ToJson | identity-service/src/models/user.model.js:50 | the `toJSON` transform drops `password` and `__v` and keeps every other key and value |
| UserModel.JsonHidesPassword | identity-service/src/models/user.model.js:50 | a user's JSON has no password but keeps the email |
| VerificationCodeModel.NewCode | identity-service/src/models/verificationCode.model.js:5-9 | a new code holds its email, code and expiry, and `used` and `is_email_verified` both default to false |
| VerificationCodeModel.DeleteExpired | identity-service/src/services/auth-service.js:26 | exactly the codes of this email whose expiry is before now are removed |
| RefreshTokenModel.WithDefaultExpiry | identity-service/src/models/refreshToken.model.js:15-19 | a token created without an expiry keeps its value and owner and expires one day (86 400 000 ms) after creation |
| RefreshTokenModel.Insert | identity-service/src/models/refreshToken.model.js:5-9 | a save succeeds iff no stored token has the same value, and then appends the token |
| RefreshTokenModel.InsertKeepsUnique | identity-service/src/models/refreshToken.model.js:5-9 | a successful save keeps token values unique |
| RefreshTokenModel.Sweep | identity-service/src/models/refreshToken.model.js:24 | the TTL index keeps exactly the tokens whose expiry has not passed |
| GenerateToken.GenerateTokens | identity-service/src/common/utils/generate-token.js:3-20 | the pair holds the access and the refresh token the signer gives for this user at this serial |
| GenerateToken.GenerateTokensFresh | identity-service/src/common/utils/generate-token.js:3-20 | for the corrected issuer that gives a new token per issue: both tokens of a pair differ from every token signed at another serial |
| GenerateToken.SameSecondSameTokens | identity-service/src/common/utils/generate-token.js:4-10 | as the code signs, two issues for one user within one second give the same pair, so that issuer is not injective in the issue |
| GenerateToken.FreshRefreshToken | identity-service/src/common/utils/generate-token.js:8-10 | for the corrected issuer: refresh tokens of different issues differ, whatever the users; `SameSecondSameTokens` shows the code's issuer does not meet this |
| Http.AuthorizationToken | identity-service/src/middlewares/authMiddleware.js:6 | no header gives no token; a header gives a token iff it contains a space; the token is the space-free text after the first space, running to the next space or the end |
| Http.SecondFieldInPlace | identity-service/src/middlewares/authMiddleware.js:6 | the second `split(" ")` field follows a space-free first field and one space, and is followed by nothing or by a space |
| Http.BearerHeaderYieldsToken | identity-service/src/middlewares/authMiddleware.js:6 | `<scheme> <token>` yields the token, whatever the scheme word |
| Http.SingleWordYieldsNothing | identity-service/src/middlewares/authMiddleware.js:8-11 | a header without a space yields no token |
| ValidationSchema.LengthIssues | identity-service/src/models/validationSchema.js:5-18 | no issue iff the length is within [min, max]; too short reports `too_small`, too long reports `too_big` |
| ValidationSchema.EmailIssues | identity-service/src/models/validationSchema.js:7 | no issue iff the email check accepts |
| ValidationSchema.NormalizeEmail | identity-service/src/models/validationSchema.js:7 | the accepted email is the input lowered and then trimmed; it has no upper-case letter and is no longer than the input |
| ValidationSchema.DatePatternByPosition | identity-service/src/models/validationSchema.js:16 | `^\d{2}-\d{2}-\d{4}$` holds iff the string has 10 characters, '-' at positions 2 and 5 and digits elsewhere |
| ValidationSchema.DatePatternIgnoresCalendar | identity-service/src/models/validationSchema.js:16 | "99-99-0000" passes: calendar validity is not checked |
| ValidationSchema.RegisterFieldIssues | identity-service/src/models/validationSchema.js:5-18 | no field issue iff each group of fields has none; the field checks never report the custom refinement issue |
| ValidationSchema.RefineIssues | identity-service/src/models/validationSchema.js:19-22 | at most one issue, on `confirm_password` and of the custom kind, present iff the gender is valid and the passwords differ |
| ValidationSchema.NameIssues | identity-service/src/models/validationSchema.js:5-6 | no issue iff both names have 2 to 50 characters |
| ValidationSchema.ContactIssues | identity-service/src/models/validationSchema.js:7-8 | no issue iff the email check accepts and the phone number has 2 to 15 characters |
| ValidationSchema.AddressIssues | identity-service/src/models/validationSchema.js:9-14 | no issue iff the country has 2 to 20 characters and state, city and home address 2 to 50 |
| ValidationSchema.ShapeIssues | identity-service/src/models/validationSchema.js:15-16 | no issue iff the gender is "male" or "female" and the date matches the pattern |
| ValidationSchema.PasswordIssues | identity-service/src/models/validationSchema.js:17-18 | no issue iff both password fields have 6 to 30 characters |
| ValidationSchema.RegisterIssuesEmptyIff | identity-service/src/models/validationSchema.js:4-22 | the field and refinement issues are both empty iff every constraint of the schema holds |
| ValidationSchema.RegisterSchema | identity-service/src/models/validationSchema.js:4-22 | accepted iff every bound, the email, the gender enum, the date pattern and password equality hold; then names and fields are trimmed and the email lowered and trimmed |
| ValidationSchema.PasswordMismatchReported | identity-service/src/models/validationSchema.js:19-22 | differing passwords are rejected, with "Passwords must match" on path `confirm_password` once the object shape is valid |
| ValidationSchema.NameBoundsBeforeTrim | identity-service/src/models/validationSchema.js:5-6 | the length bound is checked before the trim: " a " passes and becomes "a" |
| ValidationSchema.LoginSchema | identity-service/src/models/validationSchema.js:26-36 | accepted iff the email is valid and the password has 6 to 30 characters; the email comes out normalised |
| ValidationSchema.RequestEmailOtpSchema | identity-service/src/models/validationSchema.js:39-45 | accepted iff the email is valid; the email comes out normalised |
| ValidationSchema.VerifyOtpSchema | identity-service/src/models/validationSchema.js:48-58 | accepted iff the email is valid and the code has exactly 4 characters |
| ValidationSchema.OtpCodeNeedNotBeDigits | identity-service/src/models/validationSchema.js:54-57 | "abcd" is an acceptable code |
| ValidationSchema.UpdatePasswordSchema | identity-service/src/models/validationSchema.js:60-70 | accepted iff the email is valid and the new password has 6 to 30 characters |
| AuthServiceSpec.UserKey | identity-service/src/services/auth-service.js:190-191 | the cache key is "user:" followed by the id's digits |
| AuthServiceSpec.UserKeyInjective | identity-service/src/services/auth-service.js:190-191 | distinct users have distinct cache keys |
| AuthServiceSpec.RequestCodeSpec | identity-service/src/services/auth-service.js:14-57 | no cookie is set and only the code collection can change; a returned result is always "New verification code sent successfully", every failure being thrown |
| AuthServiceSpec.IssueCode | identity-service/src/services/auth-service.js:29-56 | the code step changes only the code collection; a returned result is always the success message |
| AuthServiceSpec.MarkVerified | identity-service/src/services/auth-service.js:68-72 | same length; every code is unchanged or is a code of that email with the flag set; the email's first code is flagged |
| AuthServiceSpec.VerifySpec | identity-service/src/services/auth-service.js:60-80 | only the codes can change; a thrown error is "Email verification failed." with nothing changed |
| AuthServiceSpec.StrayDelete | identity-service/src/services/auth-service.js:106 | `findOneAndDelete` with a bare string removes at most one document, and none when the store picks none |
| AuthServiceSpec.RegisterSpec | identity-service/src/services/auth-service.js:82-147 | never throws and sets no cookie; only users, codes and the id counter can change; a refusal creates no user |
| AuthServiceSpec.CreateAccount | identity-service/src/services/auth-service.js:108-146 | only users and the id counter can change; a failure changes nothing |
| AuthServiceSpec.LoginTtl | identity-service/src/services/auth-service.js:175 | the configured lifetime when it is a nonzero number, else 86 400 s |
| AuthServiceSpec.LoginSpec | identity-service/src/services/auth-service.js:149-231 | never throws, and never changes users or codes, whichever calls fail |
| AuthServiceSpec.SaveLoginToken | identity-service/src/services/auth-service.js:170-187 | a failed delete leaves the tokens as they were |
| AuthServiceSpec.StartSession | identity-service/src/services/auth-service.js:168-226 | the refresh cookie is set on every path, the signing serial advances by one, and users and codes are untouched |
| AuthServiceSpec.StartSessionCacheFails | identity-service/src/services/auth-service.js:168-206 | when the Redis write throws, the login fails with its catch-all error, yet the cookie is set and the token write (failed or not) and the serial step have happened |
| AuthServiceSpec.StartSessionCaches | identity-service/src/services/auth-service.js:168-226 | when the Redis write succeeds, the login returns both tokens and the profile, stores the token as `SaveLoginToken` says and caches the profile for 3600 s |
| AuthServiceSpec.RefreshExpiryAsWritten | identity-service/src/services/auth-service.js:257 | no expiry when the lifetime variable is set but is not a number (such as "7d"), else now plus that many seconds |
| AuthServiceSpec.RefreshExpiry | identity-service/src/services/auth-service.js:175 | the expiry with the login's default lifetime applied |
| AuthServiceSpec.Selects | identity-service/src/services/auth-service.js:241 | the query `{token: refreshToken}` selects the token of equal value for a text cookie, and every token whose value the operator matches for an operator |
| AuthServiceSpec.RefreshWith | identity-service/src/services/auth-service.js:233-273 | as written, the cookie goes to the store unchecked: never throws, and never changes users, codes, the cache or the user counter |
| AuthServiceSpec.RefreshSpec | identity-service/src/services/auth-service.js:233-273 | never throws and never changes users or codes; no cookie gives 403 "No refresh token" and a cookie that is not text 403 "Invalid refresh token", both with nothing changed; every token record it adds expires `LoginTtl` seconds after now |
| AuthServiceSpec.RefreshAddsOnlyExpiry | identity-service/src/services/auth-service.js:235-260 | for any expiry and any cookie: no cookie gives 403 "No refresh token" with nothing changed, and the only token record a refresh adds carries that expiry |
| AuthServiceSpec.RotateAddsOnlyExpiry | identity-service/src/services/auth-service.js:249-260 | every token record present after the rotation and not before it carries the given expiry |
| AuthServiceSpec.Rotate | identity-service/src/services/auth-service.js:249-272 | the new refresh token goes to the cookie whatever follows, a success returns the access token signed for the owner, and the serial advances by one |
| AuthServiceSpec.RotateStores | identity-service/src/services/auth-service.js:249-268 | when nothing fails and the save is accepted, the first token the query selects is deleted, the new one appended, the serial advances and the new access token is returned |
| AuthServiceSpec.ResetSpec | identity-service/src/services/auth-service.js:275-295 | only users can change; a thrown error is "Failed to reset password." with nothing changed |
| AuthServiceInvariant.EmptyStoresSatisfyInvariant | identity-service/src/models/refreshToken.model.js:5-14 | the empty stores satisfy the store invariant |
| AuthServiceInvariant.RequestCodePreservesInvariant | identity-service/src/services/auth-service.js:14-57 | requesting a code keeps one code per email and every other part of the invariant |
| AuthServiceInvariant.IssueCodeKeepsCodesValid | identity-service/src/services/auth-service.js:29-45 | deleting the email's one code and creating a new one keeps one code per email, none used |
| AuthServiceInvariant.VerifyPreservesInvariant | identity-service/src/services/auth-service.js:60-80 | verifying a code keeps the invariant |
| AuthServiceInvariant.RegisterPreservesInvariant | identity-service/src/services/auth-service.js:82-147 | registering keeps the store invariant: emails and ids unique, ids below the counter |
| AuthServiceInvariant.CreateAccountPreservesInvariant | identity-service/src/services/auth-service.js:111-120 | appending a user whose email is new keeps the invariant |
| AuthServiceInvariant.LoginPreservesInvariant | identity-service/src/services/auth-service.js:149-231 | logging in keeps the store invariant (token values unique, one token per user, owners stored), for every signer and whichever calls fail |
| AuthServiceInvariant.StartSessionPreservesInvariant | identity-service/src/services/auth-service.js:168-226 | issuing the session of a stored user keeps the invariant, whatever step fails |
| AuthServiceInvariant.StartSessionTokens | identity-service/src/services/auth-service.js:168-187 | on every path of the session, the token collection after it is the login token write of the token signed at the current serial |
| AuthServiceInvariant.StartSessionKeepsTokensValid | identity-service/src/services/auth-service.js:168-187 | a session for a stored user keeps token values and owners unique and every owner a stored user, for every signer |
| AuthServiceInvariant.SaveLoginTokenKeepsTokensValid | identity-service/src/services/auth-service.js:170-187 | the inner try block keeps the token part valid whatever the new value and whichever of its calls fail: the unique index refuses a duplicate value, and the user's old token is gone before the new one is added |
| AuthServiceInvariant.RefreshPreservesInvariant | identity-service/src/services/auth-service.js:233-273 | the refresh as written keeps the invariant, for every cookie, expiry and signer |
| AuthServiceInvariant.RotatePreservesInvariant | identity-service/src/services/auth-service.js:249-272 | rotating the first token the query selects keeps the invariant, whatever step fails |
| AuthServiceInvariant.RotateKeepsTokensValid | identity-service/src/services/auth-service.js:249-268 | rotating the first token the query selects keeps token values and owners unique and every owner stored: the owner's one token is deleted before its new one is saved |
| AuthServiceInvariant.ResetPreservesInvariant | identity-service/src/services/auth-service.js:275-295 | resetting a password keeps the invariant |
| AuthServiceInvariant.ExpirePreservesInvariant | identity-service/src/models/refreshToken.model.js:24 | the TTL sweep keeps the invariant |
| AuthServiceInvariant.FreshTokenInserted | identity-service/src/services/auth-service.js:181-184 | a token signed at the current serial is accepted by the unique index of a store whose tokens were issued before it |
| AuthServiceInvariant.AppendFreshKeepsIssuedBefore | identity-service/src/common/utils/generate-token.js:8-10 | under the corrected issuer, adding a token signed now leaves every stored token issued before the next serial |
| AuthServiceInvariant.SubsetKeepsIssuedBefore | identity-service/src/services/auth-service.js:172 | deleting tokens keeps the rest issued before the same or a later serial |
| AuthServiceInvariant.SaveLoginTokenKeepsIssuedBefore | identity-service/src/services/auth-service.js:170-187 | under the corrected issuer, the login token write leaves every stored token issued before the next serial, whichever calls fail |
| AuthServiceInvariant.LoginKeepsIssuedBefore | identity-service/src/services/auth-service.js:149-231 | under the corrected issuer, every login leaves no stored token that the signer gives from the serial it leaves behind |
| AuthServiceInvariant.RotateKeepsIssuedBefore | identity-service/src/services/auth-service.js:249-268 | under the corrected issuer, a rotation leaves every stored token issued before the next serial, whatever step fails |
| AuthServiceInvariant.RefreshKeepsIssuedBefore | identity-service/src/services/auth-service.js:233-273 | under the corrected issuer, every refresh as written, whatever the cookie, leaves no stored token that the signer gives from the serial it leaves behind |
| AuthServiceInvariant.ExpireKeepsIssuedBefore | identity-service/src/models/refreshToken.model.js:24 | the TTL sweep keeps every stored token issued before the serial |
| AuthService.AuthStore.RequestVerificationCode | identity-service/src/services/auth-service.js:14-57 | the steps in order produce the transition of `RequestCodeSpec` and keep the invariant |
| AuthService.AuthStore.IssueVerificationCode | identity-service/src/services/auth-service.js:29-52 | the steps after the expired-code sweep change only the codes, as `IssueCode` |
| AuthService.AuthStore.VerifyEmailCode | identity-service/src/services/auth-service.js:60-80 | the steps produce the transition of `VerifySpec` and keep the invariant |
| AuthService.AuthStore.RegisterUser | identity-service/src/services/auth-service.js:82-147 | the steps produce the transition of `RegisterSpec` and keep the invariant |
| AuthService.AuthStore.CreateUserAccount | identity-service/src/services/auth-service.js:108-120 | parsing the date and creating the user change only the users and the id counter, as `CreateAccount` |
| AuthService.AuthStore.LoginUser | identity-service/src/services/auth-service.js:149-231 | the steps produce the transition and the cookie of `LoginSpec`, whichever calls fail, and keep the invariant |
| AuthService.AuthStore.OpenSession | identity-service/src/services/auth-service.js:168-226 | the session steps produce `StartSession` |
| AuthService.AuthStore.IssueSession | identity-service/src/services/auth-service.js:168-187 | the pair is the one signed at the current serial, the serial advances by one, and only the tokens change, as `SaveLoginToken` says |
| AuthService.AuthStore.CacheProfile | identity-service/src/services/auth-service.js:189-206 | only the cache changes: the key `user:<id>` now holds the profile with a 3600 s expiry |
| AuthService.AuthStore.SaveSessionToken | identity-service/src/services/auth-service.js:170-187 | the inner try block changes only the tokens, as `SaveLoginToken` says |
| AuthService.AuthStore.RefreshAccessToken | identity-service/src/services/auth-service.js:233-273 | with a cookie that is not text refused and the corrected expiry (the line-241 and line-257 findings), the steps produce the transition and the cookie of `RefreshSpec` and keep the invariant |
| AuthService.AuthStore.RotateToken | identity-service/src/services/auth-service.js:249-272 | the rotation steps produce `Rotate` of the presented token, writing the corrected expiry of the line-257 finding |
| AuthService.AuthStore.ResetPassword | identity-service/src/services/auth-service.js:275-295 | the assignment and the save hook produce `ResetSpec` and keep the invariant |
| AuthService.AuthStore.ExpireTokens | identity-service/src/models/refreshToken.model.js:24 | the TTL sweep changes only the tokens and keeps the invariant |
| AuthServiceProperties.RequestCodeRefusesExistingUser | identity-service/src/services/auth-service.js:19-24 | an email held by a user throws "User already exists", and no store changes |
| AuthServiceProperties.RequestCodeReplacesCode | identity-service/src/services/auth-service.js:26-52 | with at most one code before, the email afterwards has exactly the new code, expiring 300 000 ms after now; other emails' codes and all other stores are unchanged |
| AuthServiceProperties.RequestCodeSucceeds | identity-service/src/services/auth-service.js:26-52 | without faults, the codes become the cleaned collection plus the new code, and the success message is returned |
| AuthServiceProperties.IssuedCodeIsFourDigits | identity-service/src/services/auth-service.js:37 | the issued code is four digits denoting the draw, and it passes `verifyOTPSchema` |
| AuthServiceProperties.VerifyWithoutCode | identity-service/src/services/auth-service.js:62-66 | an email without a code gets "Invalid or expired code", and nothing changes |
| AuthServiceProperties.VerifyDecision | identity-service/src/services/auth-service.js:62-75 | success iff the code matches and now ≤ expiry; success flags exactly that code, refusal changes nothing |
| AuthServiceProperties.RegisterRefusesExistingUser | identity-service/src/services/auth-service.js:88-95 | an existing email is refused with "User already exists with same account", and nothing changes |
| AuthServiceProperties.RegisterRefusesUnverified | identity-service/src/services/auth-service.js:97-104 | no code, or an unverified code, is refused with "Email verification failed, retry verification", and nothing changes |
| AuthServiceProperties.RegisterSuccessMeansVerified | identity-service/src/services/auth-service.js:88-139 | success implies a new email and a verified code, and appends exactly one user with the default role, the hashed password and that user's profile in `data` |
| AuthServiceProperties.RegisterSucceeds | identity-service/src/services/auth-service.js:88-139 | a new email with a verified code, a parsable date and no failing call registers |
| AuthServiceProperties.LoginRefusesUniformly | identity-service/src/services/auth-service.js:152-163 | an unknown email and a wrong password give the same "Invalid email or password", with no cookie and no store change |
| AuthServiceProperties.LoginSucceeds | identity-service/src/services/auth-service.js:168-226 | success returns both tokens and the profile, sets the refresh cookie and caches the profile under `user:<id>` for 3 600 s, even when saving the token fails |
| AuthServiceProperties.LoginFailsTwice | identity-service/src/services/auth-service.js:168-226 | when the token delete and the Redis write both throw, the first is swallowed and the login fails with its catch-all error; the cookie is set, the serial advances, and the tokens and the cache are as they were |
| AuthServiceProperties.LoginReplacesSession | identity-service/src/services/auth-service.js:170-187 | when no stored token is one the signer gives now (`IssuedBefore`), after login the user owns exactly the new token, expiring `LoginTtl` seconds after now; other users' tokens are unchanged |
| AuthServiceProperties.LoginStoresToken | identity-service/src/services/auth-service.js:170-187 | when no stored token is one the signer gives now, the token collection becomes the old one without the user's token, plus the new one |
| AuthServiceProperties.SaveLoginTokenAppends | identity-service/src/services/auth-service.js:170-184 | a token signed now is never refused by the unique index of a store issued before now |
| AuthServiceProperties.RefreshWithoutToken | identity-service/src/services/auth-service.js:235-238 | a missing or empty cookie gives 403 "No refresh token", and nothing changes |
| AuthServiceProperties.RefreshUnknownToken | identity-service/src/services/auth-service.js:241-246 | an unknown or ownerless token gives 403 "Invalid refresh token", and nothing changes |
| AuthServiceProperties.RefreshReachesRotate | identity-service/src/services/auth-service.js:240-249 | a stored token of a stored user is found and reaches the rotation, whatever its stored expiry |
| AuthServiceProperties.RotateReplacesToken | identity-service/src/services/auth-service.js:249-268 | when no stored token is one the signer gives now, and with nothing failing, the rotation replaces that token by a new one of the same owner, and the presented value is gone |
| AuthServiceProperties.ReplaceAt | identity-service/src/services/auth-service.js:252-260 | deleting a stored token by value removes exactly that token; when no stored token is one the signer gives now, saving the newly signed token is accepted and leaves the old value absent |
| AuthServiceProperties.RefreshRotates | identity-service/src/services/auth-service.js:249-268 | when no stored token is one the signer gives now, the presented token is removed and a new one for the same owner is added; only the access token is in the body, and the new refresh token is in the cookie |
| AuthServiceProperties.RefreshAsWrittenDropsSession | identity-service/src/services/auth-service.js:252-272 | with the lifetime variable set to a non-number such as "7d", the code as written deletes the token, answers 500 and leaves the user with no token |
| AuthServiceProperties.RefreshWithDefaultKeepsSession | identity-service/src/services/auth-service.js:252-268 | with the default applied and no stored token one the signer gives now, the same refresh succeeds with a one-day token |
| AuthServiceProperties.RotateReissuesPresented | identity-service/src/services/auth-service.js:241-260 | for any issuer: when the new refresh token equals the presented one, the refresh succeeds, deletes the token and stores the same value again, and presenting it again reaches the rotation once more |
| AuthServiceProperties.SameSecondRefreshKeepsToken | identity-service/src/services/auth-service.js:241-260 | as the code signs, a token presented for refresh in the second it was issued survives the rotation: the refresh succeeds and the token is still stored |
| AuthServiceProperties.OperatorCookieTakesOverSession | identity-service/src/services/auth-service.js:241-268 | as written, a cookie decoding to an operator that matches the first stored token rotates that session and returns its owner's new access token and refresh cookie to the sender |
| AuthServiceProperties.RefreshServesOnlyTheHolder | identity-service/src/services/auth-service.js:233-273 | corrected: a refresh succeeds only for a text cookie equal to a stored token, and the access token returned is the one signed for that token's owner |
| AuthServiceProperties.RefreshTokenSingleUse | identity-service/src/services/auth-service.js:241-260 | when no stored token is one the signer gives from now on (which the corrected issuer keeps true), a rotated token presented again is refused, and nothing changes |
| AuthServiceProperties.SweptTokenIsRefused | identity-service/src/models/refreshToken.model.js:24 | once the TTL index has removed an expired token, refreshing with it is refused |
| AuthServiceProperties.ResetUnknownUser | identity-service/src/services/auth-service.js:279-284 | an unknown email gets "User not found", and nothing changes |
| AuthServiceProperties.ResetChangesOnlyPassword | identity-service/src/services/auth-service.js:286-291 | only that user's password and update time change |
| AuthServiceProperties.LoginAfterReset | identity-service/src/services/auth-service.js:286-287 | after a reset, logging in with the new password succeeds |
| AuthController.RequestEmailVerificationAsWritten | identity-service/src/controllers/authController.js:20-46 | a failed result is answered with 500 and then fails on the second answer; a thrown error is forwarded |
| AuthController.RequestEmailVerification | identity-service/src/controllers/authController.js:20-46 | exactly one answer, 200 on success and 500 on failure, or the error forwarded |
| AuthController.RequestEmailVerificationAnswersTwice | identity-service/src/controllers/authController.js:29-42 | a failed result makes the handler as written answer twice and forward an error |
| AuthController.RequestEmailVerificationDefectIsLatent | identity-service/src/controllers/authController.js:27-44 | on every service outcome both versions agree, and success is 200 "Verification code sent" |
| AuthController.VerifyEmail | identity-service/src/controllers/authController.js:49-70 | a failure is 400 with the success flag and message, a success is the result itself with 200, and a throw is forwarded |
| AuthController.VerifyEmailStatuses | identity-service/src/controllers/authController.js:56-68 | over every service run, the answer is one of 400, 200 or a forwarded "Email verification failed." |
| AuthController.RegisteredSummaryAsWritten | identity-service/src/controllers/authController.js:85-91 | the summary as written carries only the name "undefined undefined" |
| AuthController.RegisteredSummary | identity-service/src/controllers/authController.js:85-91 | the summary read from `data` carries the user's id, full name, email, role and address |
| AuthController.RegisterWith | identity-service/src/controllers/authController.js:75-98 | a failure is 400 with the result verbatim; a success is 201 "User registered successfully" with the summary |
| AuthController.RegisterAsWritten | identity-service/src/controllers/authController.js:75-98 | one answer; a failure is 400 with the result, a throw is forwarded, and a success is 201 with a summary holding none of the user's fields |
| AuthController.Register | identity-service/src/controllers/authController.js:75-98 | one answer; a failure is 400 with the result, a throw is forwarded, and a success is 201 with the new user's id, full name, email, role and address |
| AuthController.RegisterSummaryAsWrittenIsEmpty | identity-service/src/controllers/authController.js:85-97 | every successful registration gets an empty summary as written, and the new user's fields when corrected |
| AuthController.Login | identity-service/src/controllers/authController.js:103-120 | a failure is 400 with the result; a success is 200 with the access token and data |
| AuthController.LoginBodyHasNoRefreshToken | identity-service/src/controllers/authController.js:109-119 | over every login run, the body never holds the refresh token, and a 200 carries the access token and a cookie |
| AuthController.RefreshAccessTokenStart | identity-service/src/controllers/authController.js:126-129 | no cookie, or an empty one, gives 400 "Refresh token missing" without a service call; otherwise the service gets the cookie as decoded, text or not |
| AuthController.RefreshAccessTokenFinish | identity-service/src/controllers/authController.js:131-137 | a returned result is sent with 200 unchanged; a throw gives 500 "Internal server error" |
| AuthController.RefreshFailuresSentWith200 | identity-service/src/controllers/authController.js:131-133 | every refresh refusal, with 403 or 500 in its body, is sent with HTTP 200 |
| AuthController.ResetPassword | identity-service/src/controllers/authController.js:141-164 | a failure is 400 with the message, a success is 200 "Password reset successfully", and a throw is forwarded |
| AuthController.ResetPasswordStatuses | identity-service/src/controllers/authController.js:147-162 | over every reset run, the answer is 400 "User not found", 200, or a forwarded "Failed to reset password." |
| IdentityAuthMiddleware.Protect | identity-service/src/middlewares/authMiddleware.js:4-29 | no token is 401 "Not authorized, no token"; admitted iff the token verifies and carries a user id, then `req.user` = {id, email} and `req.token` = the token; otherwise 401 "Not authorized, invalid token" |
| IdentityAuthMiddleware.ProtectIgnoresScheme | identity-service/src/middlewares/authMiddleware.js:6 | any scheme word is treated like "Bearer" |
| IdentityAuthMiddleware.ProtectNeedsUserId | identity-service/src/middlewares/authMiddleware.js:16-19 | a verified payload without `userId` is refused as an invalid token |
| GatewayAuthMiddleware.VerifyToken | api-gateway/src/middlewares/authMiddleware.js:3-17 | no token is 401 "No token provided"; admitted with the whole payload iff the token verifies; otherwise 401 "Invalid token" |
| GatewayAuthMiddleware.VerifyTokenAdmitsWithoutUserId | api-gateway/src/middlewares/authMiddleware.js:11-13 | a verified payload without a user id is admitted |
| HistoryAuthMiddleware.ValidateWith | transaction-history-service/src/middlewares/authMiddleware.js:5-30 | no token is 401 "Authentication required"; a verified token is admitted with its payload; a failed verification takes the error branch |
| HistoryAuthMiddleware.ValidateTokenAsWritten | transaction-history-service/src/middlewares/authMiddleware.js:5-30 | as written, it throws iff a token is present and fails verification; it only ever refuses with 401 "Authentication required"; it admits with the verified payload |
| HistoryAuthMiddleware.ValidateToken | transaction-history-service/src/middlewares/authMiddleware.js:5-30 | corrected, it never throws; it refuses iff the token is missing or fails verification, a bad token with 429 "Invalid token!"; it admits with the verified payload |
| HistoryAuthMiddleware.BadTokenThrowsAsWritten | transaction-history-service/src/middlewares/authMiddleware.js:18-24 | as written, a bad token throws a ReferenceError for `logger`; corrected, it is 429 "Invalid token!" |
| HistoryAuthMiddleware.ValidateTokenNeverThrows | transaction-history-service/src/middlewares/authMiddleware.js:10-28 | the corrected middleware never throws, and it agrees with the code as written on every other path |
| HistoryAuthMiddleware.TokenChecksAgree | transaction-history-service/src/middlewares/authMiddleware.js:7-16 | all three middlewares answer a missing token with 401; the gateway and history checks admit the same requests with the same payload; `protect` admits those of them whose payload has a user id |
| GatewayServer.ProxyPath | api-gateway/src/server.js:50-52 | a leading "/v1" becomes "/api", the rest is kept, other URLs pass unchanged, and the result never starts with "/v1" |
| GatewayServer.ProxyPathRewritesPrefix | api-gateway/src/server.js:51 | "/v1" + rest becomes "/api" + rest |
| GatewayServer.ProxyPathIsTextual | api-gateway/src/server.js:51 | "/v1x" becomes "/apix" |
| GatewayServer.ProxyPathReplacesOnlyLeading | api-gateway/src/server.js:51 | "/v1/v1" becomes "/api/v1" |
| GatewayServer.ProxyPathIdempotent | api-gateway/src/server.js:51 | applying the rewrite twice is the same as once |
| GatewayServer.RetrySeconds | api-gateway/src/server.js:38 | the least whole number of seconds covering the wait; at least 1 iff the wait is positive |
| GatewayServer.DenyMessage | api-gateway/src/server.js:36-39 | the 429 message starts "Rate limit exceeded. Try again in " and ends in "s" |
| GatewayServer.DenyMessageReportsWait | api-gateway/src/server.js:38 | the number in the message covers the whole wait, and is at least 1 when there is a wait |
| GatewayServer.Handle | api-gateway/src/server.js:27-89 | throttled with 429 `success:false` iff the limiter refuses the IP; otherwise a request under "/api/v1/auth" is proxied through the path resolver, and any other request is 404 "Route not found" |
| GatewayServer.UnderMount | api-gateway/src/server.js:64-65 | a URL is under the mount iff it starts with the mount path and is either the path itself or continues with "/" |
| GatewayServer.IdentityPathForwardedUnchanged | api-gateway/src/server.js:49-66 | every URL under the identity mount reaches the identity service unchanged |
| GatewayServer.LimitIsPerIp | api-gateway/src/server.js:29 | the limiter decision depends on the IP alone, not on the URL |

The gateway's limiter configuration, `keyPrefix` "gateway" with 100
points per 60 s (api-gateway/src/server.js:19-24), is the constant
`GatewayServer.GatewayLimiter`.

## Left out

- Mail delivery: `sendOTPByEmail` is the `SendMail` step, which may throw. Its message is not modelled.
- Database and Redis clients, connection setup, `populate` (as a lookup of the owner by id) and `morgan`/`logger`/`console` output are not modelled.
- Rate-limiter counting inside rate-limiter-flexible is not modelled; `consume` is a parameter. The identity service's own rate limiter is not part of this model.
- Concurrency: the services run one at a time. The race between two rotations of the same token is not modelled.
- The `createdAt` and `updatedAt` timestamps of codes and tokens are not modelled. Users keep `createdAt`/`updatedAt` as plain integers.
- Cookie attributes (`httpOnly`, `secure`, `sameSite`, `maxAge`) are constants only; browsers are not modelled.
- `profile_image`, `refresh_token` on the user record and `comparePassword` (user.model.js:45-47) are not used by the modelled services, so they are not modelled.
- The pre-save hook at user.model.js:27-32 tests the field `dateOfBirth`, which the schema does not have. Its condition is always false, so the hook has no effect and is not modelled.
- Routes, `asyncHandler`, `errorHandler` and `validateRequest` are not part of this model. A forwarded error is the end of a reply here.
- `ToLower` lowers ASCII letters only, and lengths count characters, not UTF-16 code units.
- zod's message texts are left out; issues record the path and the kind of problem.
- AuthServiceSpec.LoginTtl: `Number(...)` of the environment variable is an `Option<int>`, with None for a value that is set but is not a number, such as "7d". Fractional values are not modelled.
- GenerateToken.GenerateTokens: `jwt.sign` is a total `Signer` here. In the source it throws when the secret or a lifetime variable is unset or unparsable, so login (auth-service.js:168) and refresh (auth-service.js:249) then fail with their catch-all error before the token collection is touched; the model does not have that path.
- GenerateToken.SerialInjective: `GenerateTokensFresh`, `FreshRefreshToken`, `AppendFreshKeepsIssuedBefore`, `SaveLoginTokenKeepsIssuedBefore`, `LoginKeepsIssuedBefore`, `RotateKeepsIssuedBefore` and `RefreshKeepsIssuedBefore` assume the corrected issuer, which gives a new token per issue. The code's `jwt.sign` has one-second resolution; re-signing one user within a second re-issues the same token and leaves it valid. That case is the generate-token.js:4-10 finding, shown by `SameSecondRefreshKeepsToken` and `RotateReissuesPresented`.
- AuthServiceInvariant.IssuedBefore: `LoginReplacesSession`, `LoginStoresToken`, `SaveLoginTokenAppends`, `RotateReplacesToken`, `ReplaceAt`, `RefreshRotates`, `RefreshWithDefaultKeepsSession`, `RefreshTokenSingleUse` and `OperatorCookieTakesOverSession` require that no stored token is one the signer gives from the current serial on. With the code's issuer that fails within the second after an issue, and then the unique index may refuse the new token or keep the presented one valid.
- Http.Cookie: a `j:` cookie holding a JSON number is text here (the store casts it to its digits). A JSON object that the store cannot cast makes the lookup throw, which is the `FindToken` failure; it is not a separate case.
- bcrypt salts every hash, so saving the same password twice gives two different hash strings. `Hasher` is a deterministic function, and `MatchPassword` compares hashes for equality where `bcrypt.compare` re-hashes with the stored salt. No property here depends on the hash string itself.
- Ids are natural numbers rendered in decimal, in place of ObjectIds.
- AuthServiceSpec.StrayDelete: which document `findOneAndDelete(email)` removes is a parameter. The model does not claim that the email's code is deleted.
- The owner lookup's "ownerless token" branch in `refreshAccessTokenService` is modelled. Under the store invariant it cannot be reached.
- The gateway's `proxyErrorHandler` (api-gateway/src/server.js:53-59) and the identity service's reply bodies passed through the proxy are network I/O, and are not modelled.
- GatewayServer.UnderMount: Express matches mount paths case-insensitively and ignores query strings. The model matches case-sensitively on a URL without a query string.

## Findings

| source | as written | input that shows it | evidently intended | confidence | as-written member | corrected member |
|---|---|---|---|---|---|---|
| transaction-history-service/src/middlewares/authMiddleware.js:20 | the error branch calls `logger.warn`, but `logger` is never imported, so the callback throws a ReferenceError before the 429 is sent | `Authorization: Bearer x` where `x` fails verification | answer 429 "Invalid token!" | not executed | HistoryAuthMiddleware.ValidateTokenAsWritten (shown by HistoryAuthMiddleware.BadTokenThrowsAsWritten) | HistoryAuthMiddleware.ValidateToken (HistoryAuthMiddleware.ValidateTokenNeverThrows) |
| identity-service/src/controllers/authController.js:85-91 | the summary reads `id`, `first_name`, … off the service result, which holds only `success` and `data` | any successful registration | read the fields from `newUser.data` | not executed | AuthController.RegisterAsWritten (shown by AuthController.RegisterSummaryAsWrittenIsEmpty) | AuthController.Register (AuthController.RegisterSummaryAsWrittenIsEmpty) |
| identity-service/src/services/auth-service.js:257 | the new token's expiry uses the lifetime variable with no default, so a lifetime that `jwt.sign` accepts but `Number` does not gives an invalid date and the save fails after the old token was deleted | lifetime variable "7d"; a valid stored token presented | apply the login's default of 86 400 s (line 175) | not executed | AuthServiceSpec.RefreshExpiryAsWritten (shown by AuthServiceProperties.RefreshAsWrittenDropsSession) | AuthServiceSpec.RefreshExpiry (AuthServiceProperties.RefreshWithDefaultKeepsSession) |
| identity-service/src/controllers/authController.js:29-42 | after the 500 answer there is no `return`, so the 200 answer is attempted as well and throws "headers already sent" | a service result with `success: false`; the service never returns one, so this is latent | return after the 500 answer | not executed | AuthController.RequestEmailVerificationAsWritten (shown by AuthController.RequestEmailVerificationAnswersTwice) | AuthController.RequestEmailVerification (AuthController.RequestEmailVerificationDefectIsLatent) |
| identity-service/src/common/utils/generate-token.js:4-10 | the refresh token signs only `{userId}`, and `jwt.sign`'s `iat` is in whole seconds, so re-signing one user within one second gives the identical token; the refresh deletes the presented token and the unique index then accepts the same value again | a login, then a refresh with the new cookie within the same second | a new token per issue (for instance a unique `jwtid`), so a rotated token is refused | not executed | GenerateToken.SecondSigner (shown by AuthServiceProperties.SameSecondRefreshKeepsToken) | AuthServiceProperties.RefreshTokenSingleUse (GenerateToken.GenerateTokensFresh) |
| identity-service/src/services/auth-service.js:241 | `cookie-parser` (server.js:35) decodes a cookie written `j:` followed by JSON, and the controller (authController.js:126-131) and the service pass the decoded value unchecked into `findOne({token})` and `deleteOne({token})`; a query operator there matches the first stored token of any user, whose session is rotated and whose new access token is returned to the sender | the cookie `refreshToken=j:{"$ne":null}` (URL-encoded) while any session is stored | refuse a cookie that is not a string with 403 "Invalid refresh token" (a `typeof` check, or Mongoose's `sanitizeFilter`) | not executed | AuthServiceSpec.RefreshWith (shown by AuthServiceProperties.OperatorCookieTakesOverSession) | AuthServiceSpec.RefreshSpec (AuthServiceProperties.RefreshServesOnlyTheHolder) |
