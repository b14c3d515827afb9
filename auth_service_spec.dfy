/** The six operations of identity-service/src/services/auth-service.js as
    transitions over the stores they touch: the user, verification-code and
    refresh-token collections, the Redis cache and the two counters that
    stand for fresh ObjectIds and fresh token signatures.

    Every call to a store or a foreign library is a step that may throw;
    the parameter `fault` names the step that throws on this run, if any.
    The steps before it have taken effect, the ones after it have not.
    The login alone swallows a failure (of its token write) and carries on,
    so it takes the set `faults` of the steps that throw when reached.
    Time (`Date.now()`), the random code, the date parser, the password
    hash and the token signer are parameters. */
module AuthServiceSpec {
  import opened Common
  import opened UserModel
  import opened VerificationCodeModel
  import opened RefreshTokenModel
  import opened GenerateToken
  import opened Http
  import opened ValidationSchema

  /** `moment(date, "DD-MM-YYYY").toDate()`: an instant, or `None` for an
      Invalid Date. */
  type DateParser = string -> Option<int>

  /** A Redis value written with `setEx`: the snapshot and when it lapses. */
  datatype CacheEntry = CacheEntry(snapshot: UserView, expiresAt: int)

  datatype Stores = Stores(
    users: seq<User>,
    codes: seq<VerificationCode>,
    tokens: seq<RefreshToken>,
    cache: map<string, CacheEntry>,
    nextUserId: nat,
    nextSerial: nat)

  /** The awaited calls that can throw. */
  datatype Step =
    | FindUser | ComparePassword
    | DeleteExpiredCodes | FindCode | DeleteCode | CreateCode | SendMail | UpdateCode
    | CreateUser | SaveUser
    | FindToken | DeleteToken | SaveToken
    | WriteCache

  /** What a service call does: it returns a body or throws. */
  datatype Outcome = Returned(body: Body) | Threw(error: Error)

  /** The outcome, the `refreshToken` cookie set on the response (if any),
      and the stores afterwards. */
  datatype Transition = Transition(outcome: Outcome, cookie: Option<string>, after: Stores)

  function Stay(s: Stores, o: Outcome): Transition {
    Transition(o, None, s)
  }

  const CodeLifetimeMs: int := 5 * 60 * 1000
  const DefaultRefreshTtlSeconds: int := 86400
  const CacheTtlSeconds: int := 3600

  /** The Redis key of a user's snapshot. */
  function UserKey(id: UserId): (k: string)
    ensures |k| > 5 && k[..5] == "user:" && k[5..] == Decimal(id)
  {
    "user:" + Decimal(id)
  }

  /** Different users never share a cache key. */
  lemma UserKeyInjective(a: UserId, b: UserId)
    requires UserKey(a) == UserKey(b)
    ensures a == b
  {
    DecimalInjective(a, b);
  }

  // ---------------------------------------------------------------------
  // requestVerificationCode

  /** Codes of one address. */
  function CodesFor(codes: seq<VerificationCode>, email: string): seq<VerificationCode> {
    Filter(codes, HasEmail(email))
  }

  function RequestCodeSpec(s: Stores, email: string, now: int, draw: nat, fault: Option<Step>): (t: Transition)
    requires 1000 <= draw < 9999
    ensures t.cookie.None? && t.after == s.(codes := t.after.codes)
    ensures t.outcome.Returned? ==> t.outcome.body == Success("New verification code sent successfully")
  {
    if fault == Some(FindUser) then Stay(s, Threw(StoreError))
    else if FindFirst(s.users, EmailIs(email)).Some? then Stay(s, Threw(Message("User already exists")))
    else if fault == Some(DeleteExpiredCodes) then Stay(s, Threw(StoreError))
    else IssueCode(s.(codes := DeleteExpired(s.codes, email, now)), email, now, draw, fault)
  }

  /** After `deleteMany`: drop the remaining code of the address (`findOne`,
      then `deleteOne` on it), store a fresh one, mail it. */
  function IssueCode(s: Stores, email: string, now: int, draw: nat, fault: Option<Step>): (t: Transition)
    requires 1000 <= draw < 9999
    ensures t.cookie.None? && t.after == s.(codes := t.after.codes)
    ensures t.outcome.Returned? ==> t.outcome.body == Success("New verification code sent successfully")
  {
    if fault == Some(FindCode) then Stay(s, Threw(StoreError))
    else if FindFirst(s.codes, HasEmail(email)).Some? && fault == Some(DeleteCode) then Stay(s, Threw(StoreError))
    else
      var remaining := DeleteFirst(s.codes, HasEmail(email));
      if fault == Some(CreateCode) then Stay(s.(codes := remaining), Threw(StoreError))
      else
        var codes := remaining + [NewCode(email, Decimal(draw), now + CodeLifetimeMs)];
        if fault == Some(SendMail) then Stay(s.(codes := codes), Threw(StoreError))
        else Stay(s.(codes := codes), Returned(Success("New verification code sent successfully")))
  }

  // ---------------------------------------------------------------------
  // verifyEmailCode

  const VerifyFailed: string := "Email verification failed."

  /** `findOneAndUpdate({email}, {$set: {is_email_verified: true}})`: the
      flag is set on the first code of the address; nothing else changes. */
  function MarkVerified(codes: seq<VerificationCode>, email: string): (r: seq<VerificationCode>)
    ensures |r| == |codes|
    ensures forall j :: 0 <= j < |codes| ==> r[j] == codes[j] || (r[j] == codes[j].(isEmailVerified := true) && codes[j].email == email)
    ensures FindFirst(codes, HasEmail(email)).Some? ==> r[FindFirst(codes, HasEmail(email)).value].isEmailVerified
  {
    match FindFirst(codes, HasEmail(email))
    case None => codes
    case Some(j) => codes[j := codes[j].(isEmailVerified := true)]
  }

  function VerifySpec(s: Stores, email: string, code: string, now: int, fault: Option<Step>): (t: Transition)
    ensures t.cookie.None? && t.after == s.(codes := t.after.codes)
    ensures t.outcome.Threw? ==> t.outcome.error == Message(VerifyFailed) && t.after == s
  {
    if fault == Some(FindCode) then Stay(s, Threw(Message(VerifyFailed)))
    else match FindFirst(s.codes, HasEmailAndCode(email, code))
      case None => Stay(s, Returned(Failure("Invalid or expired code")))
      case Some(i) =>
        if now > s.codes[i].expiresAt then Stay(s, Returned(Failure("Invalid or expired code")))
        else if fault == Some(UpdateCode) then Stay(s, Threw(Message(VerifyFailed)))
        else Stay(s.(codes := MarkVerified(s.codes, email)), Returned(Success("Email verified successfully")))
  }

  // ---------------------------------------------------------------------
  // registerUserService

  const RegisterFailed: string := "An error occurred while registering the user"

  /** `findOneAndDelete(email)` with a bare string: the string is no filter,
      so which code the driver removes, if any, is not determined by the
      address; `target` says which one it is on this run. */
  function StrayDelete(codes: seq<VerificationCode>, target: Option<nat>): (r: seq<VerificationCode>)
    ensures |r| == |codes| || |r| == |codes| - 1
    ensures target.None? ==> r == codes
  {
    if target.Some? && target.value < |codes| then RemoveAt(codes, target.value) else codes
  }

  function RegisterSpec(s: Stores, data: RegisterData, now: int, parseDate: DateParser, hash: Hasher,
                        target: Option<nat>, fault: Option<Step>): (t: Transition)
    ensures t.cookie.None? && t.outcome.Returned?
    ensures t.after == s.(users := t.after.users, codes := t.after.codes, nextUserId := t.after.nextUserId)
    ensures !t.outcome.body.success ==> t.after.users == s.users
  {
    if fault == Some(FindUser) then Stay(s, Returned(Failure(RegisterFailed)))
    else if FindFirst(s.users, EmailIs(data.email)).Some? then
      Stay(s, Returned(Failure("User already exists with same account")))
    else if fault == Some(FindCode) then Stay(s, Returned(Failure(RegisterFailed)))
    else match FindFirst(s.codes, HasEmail(data.email))
      case None => Stay(s, Returned(Failure("Email verification failed, retry verification")))
      case Some(i) =>
        if !s.codes[i].isEmailVerified then Stay(s, Returned(Failure("Email verification failed, retry verification")))
        else if fault == Some(DeleteCode) then Stay(s, Returned(Failure(RegisterFailed)))
        else CreateAccount(s.(codes := StrayDelete(s.codes, target)), data, now, parseDate, hash, fault)
  }

  /** `User.create(...)` with the parsed date; an Invalid Date fails the cast
      of `date_of_birth`, and the catch turns every failure into one body. */
  function CreateAccount(s: Stores, data: RegisterData, now: int, parseDate: DateParser, hash: Hasher,
                         fault: Option<Step>): (t: Transition)
    ensures t.cookie.None? && t.outcome.Returned?
    ensures t.after == s.(users := t.after.users, nextUserId := t.after.nextUserId)
    ensures !t.outcome.body.success ==> t.after == s
  {
    match parseDate(data.dateOfBirth)
    case None => Stay(s, Returned(Failure(RegisterFailed)))
    case Some(dob) =>
      if fault == Some(CreateUser) then Stay(s, Returned(Failure(RegisterFailed)))
      else
        var u := NewUser(s.nextUserId, data.firstName, data.lastName, data.email, data.phoneNumber,
                         data.password, data.gender, dob, data.address, now, hash);
        Stay(s.(users := s.users + [u], nextUserId := s.nextUserId + 1),
             Returned(Body(true, None, None, None, None, Some(Profile(View(u))))))
  }

  // ---------------------------------------------------------------------
  // loginUserService

  const LoginFailed: string := "An error occurred while logging in"
  const BadCredentials: string := "Invalid email or password"

  /** `Number(USER_REFRESH_TOKEN_EXPIRATION_TIME) || 86400`: the variable is
      read as a number (`None` for a value that is set but is not a number,
      such as "7d", which `jwt.sign` accepts as seven days) and 0 or NaN fall
      back to one day. */
  function LoginTtl(env: Option<int>): (secs: int)
    ensures env.None? || env == Some(0) ==> secs == DefaultRefreshTtlSeconds
    ensures env.Some? && env.value != 0 ==> secs == env.value
  {
    if env.Some? && env.value != 0 then env.value else DefaultRefreshTtlSeconds
  }

  function LoginSpec(s: Stores, email: string, password: string, now: int, env: Option<int>,
                     hash: Hasher, sign: Signer, faults: set<Step>): (t: Transition)
    ensures t.outcome.Returned?
    ensures t.after.users == s.users && t.after.codes == s.codes && t.after.nextUserId == s.nextUserId
  {
    if FindUser in faults then Stay(s, Returned(Failure(LoginFailed)))
    else match FindFirst(s.users, EmailIs(email))
      case None => Stay(s, Returned(Failure(BadCredentials)))
      case Some(i) =>
        if ComparePassword in faults then Stay(s, Returned(Failure(LoginFailed)))
        else if !MatchPassword(password, s.users[i], hash) then Stay(s, Returned(Failure(BadCredentials)))
        else StartSession(s, s.users[i], now, env, sign, faults)
  }

  /** The inner try block: delete the user's refresh token, save the new one.
      Its failures, the unique index's included, are logged and swallowed. */
  function SaveLoginToken(tokens: seq<RefreshToken>, user: UserId, token: string, expiresAt: int,
                          faults: set<Step>): (r: seq<RefreshToken>)
    ensures DeleteToken in faults ==> r == tokens
  {
    if DeleteToken in faults then tokens
    else
      var rest := DeleteFirst(tokens, OwnedBy(user));
      if SaveToken in faults then rest
      else match Insert(rest, RefreshToken(token, user, expiresAt))
        case None => rest
        case Some(saved) => saved
  }

  /** From `generateTokens` on: the cookie is set before anything can fail. */
  function StartSession(s: Stores, u: User, now: int, env: Option<int>, sign: Signer,
                        faults: set<Step>): (t: Transition)
    ensures t.outcome.Returned? && t.cookie == Some(sign(Refresh, u.id, s.nextSerial))
    ensures t.after.users == s.users && t.after.codes == s.codes && t.after.nextUserId == s.nextUserId
    ensures t.after.nextSerial == s.nextSerial + 1
  {
    var pair := GenerateTokens(sign, u.id, s.nextSerial);
    var tokens := SaveLoginToken(s.tokens, u.id, pair.refreshToken, now + LoginTtl(env) * 1000, faults);
    var s1 := s.(tokens := tokens, nextSerial := s.nextSerial + 1);
    if WriteCache in faults then Transition(Returned(Failure(LoginFailed)), Some(pair.refreshToken), s1)
    else
      Transition(
        Returned(Body(true, None, Some("Login successful"), Some(pair.accessToken), Some(pair.refreshToken),
                      Some(Profile(View(u))))),
        Some(pair.refreshToken),
        s1.(cache := s.cache[UserKey(u.id) := CacheEntry(View(u), now + CacheTtlSeconds * 1000)]))
  }

  /** `StartSession` unfolded, when the cache write fails. */
  lemma StartSessionCacheFails(s: Stores, u: User, now: int, env: Option<int>, sign: Signer, faults: set<Step>)
    requires WriteCache in faults
    ensures var pair := GenerateTokens(sign, u.id, s.nextSerial);
      StartSession(s, u, now, env, sign, faults)
        == Transition(Returned(Failure(LoginFailed)), Some(pair.refreshToken),
                      s.(tokens := SaveLoginToken(s.tokens, u.id, pair.refreshToken, now + LoginTtl(env) * 1000, faults),
                         nextSerial := s.nextSerial + 1))
  {
  }

  /** `StartSession` unfolded, when the cache write succeeds. */
  lemma StartSessionCaches(s: Stores, u: User, now: int, env: Option<int>, sign: Signer, faults: set<Step>)
    requires WriteCache !in faults
    ensures var pair := GenerateTokens(sign, u.id, s.nextSerial);
      StartSession(s, u, now, env, sign, faults)
        == Transition(
             Returned(Body(true, None, Some("Login successful"), Some(pair.accessToken), Some(pair.refreshToken),
                           Some(Profile(View(u))))),
             Some(pair.refreshToken),
             s.(tokens := SaveLoginToken(s.tokens, u.id, pair.refreshToken, now + LoginTtl(env) * 1000, faults),
                nextSerial := s.nextSerial + 1,
                cache := s.cache[UserKey(u.id) := CacheEntry(View(u), now + CacheTtlSeconds * 1000)]))
  {
  }

  // ---------------------------------------------------------------------
  // refreshAccessTokenService

  /** `{success: false, status, message}`. */
  function Refused(status: int, message: string): (b: Body)
    ensures !b.success && b.status == Some(status) && b.message == Some(message)
    ensures b.accessToken.None? && b.refreshToken.None? && b.data.None?
  {
    Body(false, Some(status), Some(message), None, None, None)
  }

  const ServerError: Body := Refused(500, "Internal server error")

  /** The expiry the rotation writes, as written: `Date.now() + env * 1000`
      with no default, so a lifetime that is set but is not a number, such
      as "7d", yields an Invalid Date. */
  function RefreshExpiryAsWritten(env: Option<int>, now: int): (e: Option<int>)
    ensures env.None? <==> e.None?
    ensures env.Some? ==> e.value == now + env.value * 1000
  {
    match env
    case None => None
    case Some(secs) => Some(now + secs * 1000)
  }

  /** The expiry with the login's default applied. */
  function RefreshExpiry(env: Option<int>, now: int): (e: Option<int>)
    ensures e == Some(now + LoginTtl(env) * 1000)
  {
    Some(now + LoginTtl(env) * 1000)
  }

  /** The stored tokens the query `{token: refreshToken}` selects: the token
      of equal value for a text cookie, the tokens whose value it matches for
      an operator. */
  function Selects(c: Cookie): (select: RefreshToken -> bool)
    ensures c.Text? ==> select == HasValue(c.text)
    ensures forall t :: select(t) <==> if c.Text? then t.token == c.text else c.matches(t.token)
  {
    match c
    case Text(v) => HasValue(v)
    case Operator(m) => (t: RefreshToken) => m(t.token)
  }

  /** `refreshAccessTokenService` as written: the cookie goes to the store
      unchecked, and the new token is written with `expiry`. */
  function RefreshWith(s: Stores, presented: Option<Cookie>, expiry: Option<int>, sign: Signer,
                       fault: Option<Step>): (t: Transition)
    ensures t.outcome.Returned?
    ensures t.after.users == s.users && t.after.codes == s.codes && t.after.cache == s.cache
    ensures t.after.nextUserId == s.nextUserId
  {
    if !Present(presented) then Stay(s, Returned(Refused(403, "No refresh token")))
    else if fault == Some(FindToken) then Stay(s, Returned(ServerError))
    else match FindFirst(s.tokens, Selects(presented.value))
      case None => Stay(s, Returned(Refused(403, "Invalid refresh token")))
      case Some(i) =>
        if FindFirst(s.users, IdIs(s.tokens[i].user)).None? then Stay(s, Returned(Refused(403, "Invalid refresh token")))
        else Rotate(s, Selects(presented.value), s.tokens[i].user, expiry, sign, fault)
  }

  /** From `generateTokens` on: delete the first token `select` matches, save
      the new one. */
  function Rotate(s: Stores, select: RefreshToken -> bool, owner: UserId, expiry: Option<int>, sign: Signer,
                  fault: Option<Step>): (t: Transition)
    ensures t.outcome.Returned? && t.cookie == Some(sign(Refresh, owner, s.nextSerial))
    ensures t.outcome.body.success ==> t.outcome.body.accessToken == Some(sign(Access, owner, s.nextSerial))
    ensures t.after.users == s.users && t.after.codes == s.codes && t.after.cache == s.cache
    ensures t.after.nextUserId == s.nextUserId && t.after.nextSerial == s.nextSerial + 1
  {
    var pair := GenerateTokens(sign, owner, s.nextSerial);
    var s1 := s.(nextSerial := s.nextSerial + 1);
    var cookie := Some(pair.refreshToken);
    if fault == Some(DeleteToken) then Transition(Returned(ServerError), cookie, s1)
    else
      var rest := DeleteFirst(s.tokens, select);
      if fault == Some(SaveToken) || expiry.None? then Transition(Returned(ServerError), cookie, s1.(tokens := rest))
      else match Insert(rest, RefreshToken(pair.refreshToken, owner, expiry.value))
        case None => Transition(Returned(ServerError), cookie, s1.(tokens := rest))
        case Some(saved) =>
          Transition(Returned(Body(true, None, Some("Access token refreshed successfully"), Some(pair.accessToken), None, None)),
                     cookie, s1.(tokens := saved))
  }

  /** The service corrected twice: a cookie that is not text is refused like
      an unknown token, and the new token gets the login's default lifetime.
      `RefreshWith` over `RefreshExpiryAsWritten` is the code as written. */
  function RefreshSpec(s: Stores, presented: Option<Cookie>, now: int, env: Option<int>, sign: Signer,
                       fault: Option<Step>): (t: Transition)
    ensures t.outcome.Returned? && t.after.users == s.users && t.after.codes == s.codes
    ensures !Present(presented) ==> t == Stay(s, Returned(Refused(403, "No refresh token")))
    ensures presented.Some? && presented.value.Operator? ==> t == Stay(s, Returned(Refused(403, "Invalid refresh token")))
    ensures forall j :: 0 <= j < |t.after.tokens| && t.after.tokens[j] !in s.tokens ==>
              t.after.tokens[j].expiresAt == now + LoginTtl(env) * 1000
  {
    if presented.Some? && presented.value.Operator? then Stay(s, Returned(Refused(403, "Invalid refresh token")))
    else
      var expiry := RefreshExpiry(env, now);
      RefreshAddsOnlyExpiry(s, presented, expiry, sign, fault);
      RefreshWith(s, presented, expiry, sign, fault)
  }

  /** No cookie gives 403 with nothing changed, and the only token record a
      refresh adds carries the expiry it was given. */
  lemma RefreshAddsOnlyExpiry(s: Stores, presented: Option<Cookie>, expiry: Option<int>, sign: Signer,
                              fault: Option<Step>)
    ensures var t := RefreshWith(s, presented, expiry, sign, fault);
      && (!Present(presented) ==> t == Stay(s, Returned(Refused(403, "No refresh token"))))
      && forall j :: 0 <= j < |t.after.tokens| && t.after.tokens[j] !in s.tokens ==>
           expiry == Some(t.after.tokens[j].expiresAt)
  {
    if Present(presented) && fault != Some(FindToken) {
      var select := Selects(presented.value);
      match FindFirst(s.tokens, select)
      case None =>
      case Some(i) =>
        var owner := s.tokens[i].user;
        if FindFirst(s.users, IdIs(owner)).Some? {
          RotateAddsOnlyExpiry(s, select, owner, expiry, sign, fault);
        }
    }
  }

  /** `Rotate` unfolded, when nothing fails and the new token is stored. */
  lemma RotateStores(s: Stores, select: RefreshToken -> bool, owner: UserId, e: int, sign: Signer)
    requires Insert(DeleteFirst(s.tokens, select), RefreshToken(sign(Refresh, owner, s.nextSerial), owner, e)).Some?
    ensures Rotate(s, select, owner, Some(e), sign, None)
         == Transition(Returned(Body(true, None, Some("Access token refreshed successfully"),
                                     Some(sign(Access, owner, s.nextSerial)), None, None)),
                       Some(sign(Refresh, owner, s.nextSerial)),
                       s.(nextSerial := s.nextSerial + 1,
                          tokens := DeleteFirst(s.tokens, select) + [RefreshToken(sign(Refresh, owner, s.nextSerial), owner, e)]))
  {
  }

  lemma RotateAddsOnlyExpiry(s: Stores, select: RefreshToken -> bool, owner: UserId, expiry: Option<int>, sign: Signer,
                             fault: Option<Step>)
    ensures var t := Rotate(s, select, owner, expiry, sign, fault);
      forall j :: 0 <= j < |t.after.tokens| && t.after.tokens[j] !in s.tokens ==>
        expiry == Some(t.after.tokens[j].expiresAt)
  {
    var rest := DeleteFirst(s.tokens, select);
    assert forall j :: 0 <= j < |rest| ==> rest[j] in s.tokens;
  }

  // ---------------------------------------------------------------------
  // resetPasswordService

  const ResetFailed: string := "Failed to reset password."

  function ResetSpec(s: Stores, email: string, newPassword: string, now: int, hash: Hasher,
                     fault: Option<Step>): (t: Transition)
    ensures t.cookie.None? && t.after == s.(users := t.after.users)
    ensures t.outcome.Threw? ==> t.outcome.error == Message(ResetFailed) && t.after == s
  {
    if fault == Some(FindUser) then Stay(s, Threw(Message(ResetFailed)))
    else match FindFirst(s.users, EmailIs(email))
      case None => Stay(s, Returned(Failure("User not found")))
      case Some(i) =>
        if fault == Some(SaveUser) then Stay(s, Threw(Message(ResetFailed)))
        else Stay(s.(users := s.users[i := AssignPasswordAndSave(s.users[i], newPassword, now, hash)]),
                  Returned(Success("Password reset successfully")))
  }
}
