/** The identity service's auth state (identity-service/src/services/auth-service.js)
    as one object: the three collections, the Redis cache and the counters
    are fields that each service call updates step by step, in the order
    the service awaits its calls. Each method is tied to its transition in
    `AuthServiceSpec` and keeps `AuthServiceInvariant.Invariant`. */
module AuthService {
  import opened Common
  import opened UserModel
  import opened VerificationCodeModel
  import opened RefreshTokenModel
  import opened GenerateToken
  import opened Http
  import opened ValidationSchema
  import opened AuthServiceSpec
  import opened AuthServiceInvariant

  class AuthStore {
    var users: seq<User>
    var codes: seq<VerificationCode>
    var tokens: seq<RefreshToken>
    var cache: map<string, CacheEntry>
    var nextUserId: nat
    var nextSerial: nat

    const hash: Hasher
    const sign: Signer
    const parseDate: DateParser
    /** `Number(process.env.USER_REFRESH_TOKEN_EXPIRATION_TIME)`; `None` for a
        value that is set but is not a number, such as "7d". */
    const refreshTtl: Option<int>

    function State(): Stores
      reads this
    {
      Stores(users, codes, tokens, cache, nextUserId, nextSerial)
    }

    ghost predicate Valid()
      reads this
    {
      Invariant(State())
    }

    constructor (hash: Hasher, sign: Signer, parseDate: DateParser, refreshTtl: Option<int>)
      ensures Valid() && State() == EmptyStores()
      ensures this.hash == hash && this.sign == sign && this.parseDate == parseDate && this.refreshTtl == refreshTtl
    {
      this.hash, this.sign, this.parseDate, this.refreshTtl := hash, sign, parseDate, refreshTtl;
      users, codes, tokens, cache := [], [], [], map[];
      nextUserId, nextSerial := 0, 0;
      EmptyStoresSatisfyInvariant();
    }

    /** `requestVerificationCode(email)`; `draw` is `crypto.randomInt(1000, 9999)`. */
    method RequestVerificationCode(email: string, now: int, draw: nat, fault: Option<Step>) returns (o: Outcome)
      requires Valid() && 1000 <= draw < 9999
      modifies this
      ensures Valid()
      ensures Transition(o, None, State()) == RequestCodeSpec(old(State()), email, now, draw, fault)
    {
      RequestCodePreservesInvariant(State(), email, now, draw, fault);
      if fault == Some(FindUser) { return Threw(StoreError); }
      var existingUser := FindFirst(users, EmailIs(email));
      if existingUser.Some? { return Threw(Message("User already exists")); }
      if fault == Some(DeleteExpiredCodes) { return Threw(StoreError); }
      codes := DeleteExpired(codes, email, now);
      o := IssueVerificationCode(email, now, draw, fault);
    }

    /** From the lookup of the address's remaining code on: replace it by a
        fresh code and mail it. */
    method IssueVerificationCode(email: string, now: int, draw: nat, fault: Option<Step>) returns (o: Outcome)
      requires 1000 <= draw < 9999
      modifies this`codes
      ensures Transition(o, None, State()) == IssueCode(old(State()), email, now, draw, fault)
    {
      if fault == Some(FindCode) { return Threw(StoreError); }
      var existingCode := FindFirst(codes, HasEmail(email));
      if existingCode.Some? {
        if fault == Some(DeleteCode) { return Threw(StoreError); }
        codes := RemoveAt(codes, existingCode.value);
      }
      var code := Decimal(draw);
      if fault == Some(CreateCode) { return Threw(StoreError); }
      codes := codes + [NewCode(email, code, now + CodeLifetimeMs)];
      if fault == Some(SendMail) { return Threw(StoreError); }
      return Returned(Success("New verification code sent successfully"));
    }

    /** `verifyEmailCode(email, code)`. */
    method VerifyEmailCode(email: string, code: string, now: int, fault: Option<Step>) returns (o: Outcome)
      requires Valid()
      modifies this
      ensures Valid()
      ensures Transition(o, None, State()) == VerifySpec(old(State()), email, code, now, fault)
    {
      VerifyPreservesInvariant(State(), email, code, now, fault);
      if fault == Some(FindCode) { return Threw(Message(VerifyFailed)); }
      var existingCode := FindFirst(codes, HasEmailAndCode(email, code));
      if existingCode.None? || now > codes[existingCode.value].expiresAt {
        return Returned(Failure("Invalid or expired code"));
      }
      if fault == Some(UpdateCode) { return Threw(Message(VerifyFailed)); }
      var first := FindFirst(codes, HasEmail(email));
      if first.Some? {
        codes := codes[first.value := codes[first.value].(isEmailVerified := true)];
      }
      return Returned(Success("Email verified successfully"));
    }

    /** `registerUserService(res, data)`; `target` is the code the bare-string
        `findOneAndDelete` removes, if any. */
    method RegisterUser(data: RegisterData, now: int, target: Option<nat>, fault: Option<Step>) returns (o: Outcome)
      requires Valid()
      modifies this
      ensures Valid()
      ensures Transition(o, None, State()) == RegisterSpec(old(State()), data, now, parseDate, hash, target, fault)
    {
      RegisterPreservesInvariant(State(), data, now, parseDate, hash, target, fault);
      if fault == Some(FindUser) { return Returned(Failure(RegisterFailed)); }
      var existingUser := FindFirst(users, EmailIs(data.email));
      if existingUser.Some? { return Returned(Failure("User already exists with same account")); }
      if fault == Some(FindCode) { return Returned(Failure(RegisterFailed)); }
      var check := FindFirst(codes, HasEmail(data.email));
      if check.None? || !codes[check.value].isEmailVerified {
        return Returned(Failure("Email verification failed, retry verification"));
      }
      if fault == Some(DeleteCode) { return Returned(Failure(RegisterFailed)); }
      ghost var s0 := State();
      codes := StrayDelete(codes, target);
      assert RegisterSpec(s0, data, now, parseDate, hash, target, fault) == CreateAccount(State(), data, now, parseDate, hash, fault);
      o := CreateUserAccount(data, now, fault);
    }

    /** `User.create(...)`: parse the date of birth, store the user. */
    method CreateUserAccount(data: RegisterData, now: int, fault: Option<Step>) returns (o: Outcome)
      modifies this`users, this`nextUserId
      ensures Transition(o, None, State()) == CreateAccount(old(State()), data, now, parseDate, hash, fault)
    {
      var dob := parseDate(data.dateOfBirth);
      if dob.None? || fault == Some(CreateUser) { return Returned(Failure(RegisterFailed)); }
      var user := NewUser(nextUserId, data.firstName, data.lastName, data.email, data.phoneNumber,
                          data.password, data.gender, dob.value, data.address, now, hash);
      users := users + [user];
      nextUserId := nextUserId + 1;
      return Returned(Body(true, None, None, None, None, Some(Profile(View(user)))));
    }

    /** `loginUserService(req, res, {email, password})`; `cookie` is what
        `generateTokens` sets on the response. */
    method LoginUser(email: string, password: string, now: int, faults: set<Step>) returns (o: Outcome, cookie: Option<string>)
      requires Valid()
      modifies this
      ensures Valid()
      ensures Transition(o, cookie, State()) == LoginSpec(old(State()), email, password, now, refreshTtl, hash, sign, faults)
    {
      LoginPreservesInvariant(State(), email, password, now, refreshTtl, hash, sign, faults);
      cookie := None;
      if FindUser in faults { return Returned(Failure(LoginFailed)), None; }
      var found := FindFirst(users, EmailIs(email));
      if found.None? { return Returned(Failure(BadCredentials)), None; }
      var user := users[found.value];
      if ComparePassword in faults { return Returned(Failure(LoginFailed)), None; }
      if !MatchPassword(password, user, hash) { return Returned(Failure(BadCredentials)), None; }
      o, cookie := OpenSession(user, now, faults);
    }

    /** The login from `generateTokens` on. */
    method OpenSession(user: User, now: int, faults: set<Step>) returns (o: Outcome, cookie: Option<string>)
      modifies this`nextSerial, this`tokens, this`cache
      ensures Transition(o, cookie, State()) == StartSession(old(State()), user, now, refreshTtl, sign, faults)
    {
      ghost var s0 := State();
      var pair := IssueSession(user.id, now, faults);
      cookie := Some(pair.refreshToken);
      if WriteCache in faults {
        StartSessionCacheFails(s0, user, now, refreshTtl, sign, faults);
        return Returned(Failure(LoginFailed)), cookie;
      }
      StartSessionCaches(s0, user, now, refreshTtl, sign, faults);
      var view := View(user);
      CacheProfile(user.id, view, now);
      o := Returned(Body(true, None, Some("Login successful"), Some(pair.accessToken), Some(pair.refreshToken),
                         Some(Profile(view))));
    }

    /** The login's token step: sign the pair, then replace the user's stored refresh token. */
    method IssueSession(user: UserId, now: int, faults: set<Step>) returns (pair: TokenPair)
      modifies this`nextSerial, this`tokens
      ensures pair == GenerateTokens(sign, user, old(nextSerial))
      ensures State() == old(State()).(tokens := SaveLoginToken(old(tokens), user, pair.refreshToken,
                                                                now + LoginTtl(refreshTtl) * 1000, faults),
                                        nextSerial := old(nextSerial) + 1)
    {
      pair := GenerateTokens(sign, user, nextSerial);
      nextSerial := nextSerial + 1;
      SaveSessionToken(user, pair.refreshToken, now + LoginTtl(refreshTtl) * 1000, faults);
    }

    /** `redisClient.setEx("user:<id>", 3600, profile)`. */
    method CacheProfile(user: UserId, view: UserView, now: int)
      modifies this`cache
      ensures State() == old(State()).(cache := old(cache)[UserKey(user) := CacheEntry(view, now + CacheTtlSeconds * 1000)])
    {
      cache := cache[UserKey(user) := CacheEntry(view, now + CacheTtlSeconds * 1000)];
    }

    /** The login's inner try block: its failures are swallowed. */
    method SaveSessionToken(user: UserId, token: string, expiresAt: int, faults: set<Step>)
      modifies this`tokens
      ensures tokens == SaveLoginToken(old(tokens), user, token, expiresAt, faults)
      ensures State() == old(State()).(tokens := tokens)
    {
      if DeleteToken !in faults {
        tokens := DeleteFirst(tokens, OwnedBy(user));
        if SaveToken !in faults {
          var saved := Insert(tokens, RefreshToken(token, user, expiresAt));
          if saved.Some? { tokens := saved.value; }
        }
      }
    }

    /** `refreshAccessTokenService(refreshToken, res)`, with a cookie that is
        not text refused and the login's default lifetime applied to the
        rotated token. */
    method RefreshAccessToken(presented: Option<Cookie>, now: int, fault: Option<Step>) returns (o: Outcome, cookie: Option<string>)
      requires Valid()
      modifies this
      ensures Valid()
      ensures Transition(o, cookie, State()) == RefreshSpec(old(State()), presented, now, refreshTtl, sign, fault)
    {
      RefreshPreservesInvariant(State(), presented, RefreshExpiry(refreshTtl, now), sign, fault);
      cookie := None;
      if !Present(presented) { return Returned(Refused(403, "No refresh token")), None; }
      if presented.value.Operator? { return Returned(Refused(403, "Invalid refresh token")), None; }
      if fault == Some(FindToken) { return Returned(ServerError), None; }
      var token := presented.value.text;
      var stored := FindFirst(tokens, HasValue(token));
      if stored.None? || FindFirst(users, IdIs(tokens[stored.value].user)).None? {
        return Returned(Refused(403, "Invalid refresh token")), None;
      }
      o, cookie := RotateToken(token, tokens[stored.value].user, now, fault);
    }

    /** The rotation from `generateTokens` on. */
    method RotateToken(presented: string, owner: UserId, now: int, fault: Option<Step>) returns (o: Outcome, cookie: Option<string>)
      modifies this
      ensures Transition(o, cookie, State()) == Rotate(old(State()), HasValue(presented), owner, RefreshExpiry(refreshTtl, now), sign, fault)
    {
      ghost var s0 := State();
      var pair := GenerateTokens(sign, owner, nextSerial);
      nextSerial := nextSerial + 1;
      cookie := Some(pair.refreshToken);
      if fault == Some(DeleteToken) {
        assert State() == s0.(nextSerial := s0.nextSerial + 1);
        return Returned(ServerError), cookie;
      }
      tokens := DeleteFirst(tokens, HasValue(presented));
      ghost var s1 := State();
      assert s1 == s0.(nextSerial := s0.nextSerial + 1, tokens := DeleteFirst(s0.tokens, HasValue(presented)));
      var expiry := RefreshExpiry(refreshTtl, now);
      if fault == Some(SaveToken) || expiry.None? { return Returned(ServerError), cookie; }
      var saved := Insert(tokens, RefreshToken(pair.refreshToken, owner, expiry.value));
      if saved.None? { return Returned(ServerError), cookie; }
      tokens := saved.value;
      o := Returned(Body(true, None, Some("Access token refreshed successfully"), Some(pair.accessToken), None, None));
      assert State() == s1.(tokens := saved.value);
    }

    /** `resetPasswordService(email, new_password)`: assign, then `save`, whose
        hook hashes the password only if the assignment changed it. */
    method ResetPassword(email: string, newPassword: string, now: int, fault: Option<Step>) returns (o: Outcome)
      requires Valid()
      modifies this
      ensures Valid()
      ensures Transition(o, None, State()) == ResetSpec(old(State()), email, newPassword, now, hash, fault)
    {
      ResetPreservesInvariant(State(), email, newPassword, now, hash, fault);
      if fault == Some(FindUser) { return Threw(Message(ResetFailed)); }
      var found := FindFirst(users, EmailIs(email));
      if found.None? { return Returned(Failure("User not found")); }
      if fault == Some(SaveUser) { return Threw(Message(ResetFailed)); }
      var user := users[found.value];
      var modified := newPassword != user.password;
      user := user.(password := newPassword);
      if modified {
        user := user.(password := hash(user.password), updatedAt := now);
      }
      users := users[found.value := user];
      return Returned(Success("Password reset successfully"));
    }

    /** The TTL monitor's pass at time `now`. */
    method ExpireTokens(now: int)
      requires Valid()
      modifies this
      ensures Valid()
      ensures State() == old(State()).(tokens := Sweep(old(tokens), now))
    {
      ExpirePreservesInvariant(State(), now);
      tokens := Sweep(tokens, now);
    }
  }
}
