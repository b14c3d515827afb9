/** What the operations of identity-service/src/services/auth-service.js
    promise, stated over their transitions: the refusals and the state they
    leave alone, the one-code-per-address replacement, the single-use
    rotation of refresh tokens, the uniform login failure, and how the
    operations compose. */
module AuthServiceProperties {
  import opened Common
  import opened UserModel
  import opened VerificationCodeModel
  import opened RefreshTokenModel
  import opened GenerateToken
  import opened Http
  import opened ValidationSchema
  import opened AuthServiceSpec
  import opened AuthServiceInvariant

  // ---------------------------------------------------------------------
  // requestVerificationCode

  /** An address that already has an account gets no code, and no code is
      touched. */
  lemma RequestCodeRefusesExistingUser(s: Stores, email: string, now: int, draw: nat, fault: Option<Step>, i: nat)
    requires 1000 <= draw < 9999 && fault != Some(FindUser)
    requires i < |s.users| && s.users[i].email == email
    ensures RequestCodeSpec(s, email, now, draw, fault) == Stay(s, Threw(Message("User already exists")))
  {
    assert EmailIs(email)(s.users[i]);
  }

  /** With at most one code for the address before, a successful request
      leaves exactly the new code for it, expiring five minutes after `now`;
      the codes of every other address and all other stores are unchanged. */
  lemma RequestCodeReplacesCode(s: Stores, email: string, now: int, draw: nat)
    requires 1000 <= draw < 9999
    requires forall i :: 0 <= i < |s.users| ==> s.users[i].email != email
    requires |CodesFor(s.codes, email)| <= 1
    ensures var t := RequestCodeSpec(s, email, now, draw, None);
      && t.outcome == Returned(Success("New verification code sent successfully"))
      && CodesFor(t.after.codes, email) == [NewCode(email, Decimal(draw), now + 300000)]
      && (forall e :: e != email ==> CodesFor(t.after.codes, e) == CodesFor(s.codes, e))
      && t.after == s.(codes := t.after.codes)
  {
    var c1 := DeleteExpired(s.codes, email, now);
    var issued := NewCode(email, Decimal(draw), now + 300000);
    RequestCodeSucceeds(s, email, now, draw);
    FilterOfFilterShorter(s.codes, Unexpired(email, now), HasEmail(email));
    ReplaceOnlyMatch(c1, HasEmail(email), issued);
    forall e | e != email ensures CodesFor(DeleteFirst(c1, HasEmail(email)) + [issued], e) == CodesFor(s.codes, e) {
      FilterOfFilter(s.codes, Unexpired(email, now), HasEmail(e));
      ReplaceKeepsOthers(c1, HasEmail(email), issued, HasEmail(e));
    }
  }

  lemma RequestCodeSucceeds(s: Stores, email: string, now: int, draw: nat)
    requires 1000 <= draw < 9999
    requires forall i :: 0 <= i < |s.users| ==> s.users[i].email != email
    ensures RequestCodeSpec(s, email, now, draw, None)
         == Stay(s.(codes := DeleteFirst(DeleteExpired(s.codes, email, now), HasEmail(email))
                             + [NewCode(email, Decimal(draw), now + 300000)]),
                 Returned(Success("New verification code sent successfully")))
  {
    assert forall i :: 0 <= i < |s.users| ==> !EmailIs(email)(s.users[i]);
    var s1 := s.(codes := DeleteExpired(s.codes, email, now));
    assert RequestCodeSpec(s, email, now, draw, None) == IssueCode(s1, email, now, draw, None);
    var codes := DeleteFirst(s1.codes, HasEmail(email)) + [NewCode(email, Decimal(draw), now + CodeLifetimeMs)];
    assert IssueCode(s1, email, now, draw, None) == Stay(s1.(codes := codes), Returned(Success("New verification code sent successfully")));
  }

  /** The code drawn from [1000, 9999) is four decimal digits that denote
      the draw, so it passes the four-character check of `verifyOTPSchema`. */
  lemma IssuedCodeIsFourDigits(draw: nat, email: string, isEmail: EmailCheck)
    requires 1000 <= draw < 9999 && isEmail(email)
    ensures |Decimal(draw)| == 4 && AllDigits(Decimal(draw)) && DigitsValue(Decimal(draw)) == draw
    ensures VerifyOtpSchema(email, Decimal(draw), isEmail).Parsed?
  {
    DecimalFourDigits(draw);
    DecimalRoundTrip(draw);
  }

  // ---------------------------------------------------------------------
  // verifyEmailCode

  /** An address without a code is refused and nothing changes. */
  lemma VerifyWithoutCode(s: Stores, email: string, code: string, now: int, fault: Option<Step>)
    requires fault != Some(FindCode)
    requires forall j :: 0 <= j < |s.codes| ==> s.codes[j].email != email
    ensures VerifySpec(s, email, code, now, fault) == Stay(s, Returned(Failure("Invalid or expired code")))
  {
  }

  /** Under one code per address: the code is accepted exactly when it is the
      address's code and `now` has not passed its expiry (the expiry instant
      itself is accepted); acceptance flags that code as verified and changes
      nothing else, refusal changes nothing. */
  lemma VerifyDecision(s: Stores, email: string, code: string, now: int, i: nat)
    requires KeysDistinct(s.codes, CodeEmail)
    requires i < |s.codes| && s.codes[i].email == email
    ensures var t := VerifySpec(s, email, code, now, None);
      && t.outcome.Returned?
      && (t.outcome.body.success <==> s.codes[i].code == code && now <= s.codes[i].expiresAt)
      && (t.outcome.body.success ==>
            t.outcome.body == Success("Email verified successfully")
            && t.after == s.(codes := s.codes[i := s.codes[i].(isEmailVerified := true)]))
      && (!t.outcome.body.success ==> t == Stay(s, Returned(Failure("Invalid or expired code"))))
  {
    assert HasEmail(email)(s.codes[i]);
    assert forall j :: 0 <= j < |s.codes| && j != i ==> CodeEmail(s.codes[j]) != CodeEmail(s.codes[i]);
    assert FindFirst(s.codes, HasEmail(email)) == Some(i);
    if s.codes[i].code == code {
      assert HasEmailAndCode(email, code)(s.codes[i]);
      assert FindFirst(s.codes, HasEmailAndCode(email, code)) == Some(i);
    } else {
      assert FindFirst(s.codes, HasEmailAndCode(email, code)).None?;
    }
  }

  // ---------------------------------------------------------------------
  // registerUserService

  /** An address held by a user is refused and nothing changes. */
  lemma RegisterRefusesExistingUser(s: Stores, data: RegisterData, now: int, parseDate: DateParser, hash: Hasher,
                                    target: Option<nat>, fault: Option<Step>, i: nat)
    requires fault != Some(FindUser)
    requires i < |s.users| && s.users[i].email == data.email
    ensures RegisterSpec(s, data, now, parseDate, hash, target, fault)
         == Stay(s, Returned(Failure("User already exists with same account")))
  {
    assert EmailIs(data.email)(s.users[i]);
  }

  /** An address with no code, or with only unverified ones, is refused and
      nothing changes. */
  lemma RegisterRefusesUnverified(s: Stores, data: RegisterData, now: int, parseDate: DateParser, hash: Hasher,
                                  target: Option<nat>, fault: Option<Step>)
    requires fault != Some(FindUser) && fault != Some(FindCode)
    requires forall i :: 0 <= i < |s.users| ==> s.users[i].email != data.email
    requires forall j :: 0 <= j < |s.codes| && s.codes[j].email == data.email ==> !s.codes[j].isEmailVerified
    ensures RegisterSpec(s, data, now, parseDate, hash, target, fault)
         == Stay(s, Returned(Failure("Email verification failed, retry verification")))
  {
  }

  /** Every successful registration was for a new address with a verified
      code; it appends one user with the default role, the hashed password
      and the given address, and returns that user's profile. */
  lemma RegisterSuccessMeansVerified(s: Stores, data: RegisterData, now: int, parseDate: DateParser, hash: Hasher,
                                     target: Option<nat>, fault: Option<Step>)
    requires RegisterSpec(s, data, now, parseDate, hash, target, fault).outcome.body.success
    ensures forall i :: 0 <= i < |s.users| ==> s.users[i].email != data.email
    ensures exists j :: 0 <= j < |s.codes| && s.codes[j].email == data.email && s.codes[j].isEmailVerified
    ensures var t := RegisterSpec(s, data, now, parseDate, hash, target, fault);
      && |t.after.users| == |s.users| + 1 && t.after.users[..|s.users|] == s.users
      && var u := t.after.users[|s.users|];
      && u.id == s.nextUserId && u.email == data.email && u.role == DefaultRole
      && u.password == hash(data.password) && u.isEmailVerified
      && t.outcome.body.data == Some(Profile(View(u)))
  {
    var i := FindFirst(s.codes, HasEmail(data.email)).value;
    assert s.codes[i].email == data.email && s.codes[i].isEmailVerified;
  }

  /** Conversely, with a verified code, a new address, a parsable date and
      no failing call, registration succeeds. */
  lemma RegisterSucceeds(s: Stores, data: RegisterData, now: int, parseDate: DateParser, hash: Hasher,
                         target: Option<nat>, j: nat)
    requires KeysDistinct(s.codes, CodeEmail)
    requires forall i :: 0 <= i < |s.users| ==> s.users[i].email != data.email
    requires j < |s.codes| && s.codes[j].email == data.email && s.codes[j].isEmailVerified
    requires parseDate(data.dateOfBirth).Some?
    ensures RegisterSpec(s, data, now, parseDate, hash, target, None).outcome.body.success
  {
    assert HasEmail(data.email)(s.codes[j]);
    assert forall k :: 0 <= k < |s.codes| && k != j ==> CodeEmail(s.codes[k]) != CodeEmail(s.codes[j]);
  }

  // ---------------------------------------------------------------------
  // loginUserService

  /** Under distinct addresses a user is found at its own position. */
  lemma UserFoundByEmail(users: seq<User>, email: string, i: nat)
    requires KeysDistinct(users, UserEmail) && i < |users| && users[i].email == email
    ensures FindFirst(users, EmailIs(email)) == Some(i)
  {
    assert EmailIs(email)(users[i]);
    assert forall k :: 0 <= k < |users| && k != i ==> UserEmail(users[k]) != UserEmail(users[i]);
  }

  /** An unknown address and a wrong password get the same refusal, with no
      cookie and no change to any store. */
  lemma LoginRefusesUniformly(s: Stores, email: string, password: string, now: int, env: Option<int>,
                              hash: Hasher, sign: Signer, faults: set<Step>)
    requires FindUser !in faults && ComparePassword !in faults
    requires forall i :: 0 <= i < |s.users| && s.users[i].email == email ==> !MatchPassword(password, s.users[i], hash)
    ensures LoginSpec(s, email, password, now, env, hash, sign, faults) == Stay(s, Returned(Failure("Invalid email or password")))
  {
  }

  /** The right password logs in, whether or not saving the refresh token
      fails: the body carries both tokens and the password-free profile,
      the cookie carries the refresh token, and the profile is cached under
      `user:<id>` for an hour. */
  lemma LoginSucceeds(s: Stores, email: string, password: string, now: int, env: Option<int>,
                      hash: Hasher, sign: Signer, faults: set<Step>, i: nat)
    requires KeysDistinct(s.users, UserEmail)
    requires i < |s.users| && s.users[i].email == email && MatchPassword(password, s.users[i], hash)
    requires FindUser !in faults && ComparePassword !in faults && WriteCache !in faults
    ensures var t := LoginSpec(s, email, password, now, env, hash, sign, faults);
      var u := s.users[i];
      && t.outcome == Returned(Body(true, None, Some("Login successful"), Some(sign(Access, u.id, s.nextSerial)),
                                    Some(sign(Refresh, u.id, s.nextSerial)), Some(Profile(View(u)))))
      && t.cookie == Some(sign(Refresh, u.id, s.nextSerial))
      && t.after.cache == s.cache[UserKey(u.id) := CacheEntry(View(u), now + 3600000)]
  {
    UserFoundByEmail(s.users, email, i);
  }

  /** A login whose token write and cache write both throw: the first
      failure is swallowed, the second gives the catch-all refusal, yet the
      cookie is set, the serial has advanced and the stored tokens and the
      cache are as they were. */
  lemma LoginFailsTwice(s: Stores, email: string, password: string, now: int, env: Option<int>,
                        hash: Hasher, sign: Signer, i: nat)
    requires KeysDistinct(s.users, UserEmail)
    requires i < |s.users| && s.users[i].email == email && MatchPassword(password, s.users[i], hash)
    ensures var t := LoginSpec(s, email, password, now, env, hash, sign, {DeleteToken, WriteCache});
      && t.outcome == Returned(Failure(LoginFailed))
      && t.cookie == Some(sign(Refresh, s.users[i].id, s.nextSerial))
      && t.after == s.(nextSerial := s.nextSerial + 1)
  {
    UserFoundByEmail(s.users, email, i);
    StartSessionCacheFails(s, s.users[i], now, env, sign, {DeleteToken, WriteCache});
  }

  /** A login without failures, when no stored token is one the signer gives
      at the current serial (as under the corrected issuer), leaves the user
      exactly one refresh token, the new one, expiring `LoginTtl(env)`
      seconds after `now`; the tokens of every other user stay as they were. */
  lemma LoginReplacesSession(s: Stores, email: string, password: string, now: int, env: Option<int>,
                             hash: Hasher, sign: Signer, i: nat)
    requires Invariant(s) && IssuedBefore(s.tokens, sign, s.nextSerial)
    requires i < |s.users| && s.users[i].email == email && MatchPassword(password, s.users[i], hash)
    ensures var t := LoginSpec(s, email, password, now, env, hash, sign, {});
      var u := s.users[i];
      && Filter(t.after.tokens, OwnedBy(u.id))
           == [RefreshToken(sign(Refresh, u.id, s.nextSerial), u.id, now + LoginTtl(env) * 1000)]
      && (forall v :: v != u.id ==> Filter(t.after.tokens, OwnedBy(v)) == Filter(s.tokens, OwnedBy(v)))
  {
    var u := s.users[i];
    var issued := RefreshToken(sign(Refresh, u.id, s.nextSerial), u.id, now + LoginTtl(env) * 1000);
    LoginStoresToken(s, email, password, now, env, hash, sign, i);
    DistinctKeysAtMostOne(s.tokens, TokenOwner, u.id, OwnedBy(u.id));
    ReplaceOnlyMatch(s.tokens, OwnedBy(u.id), issued);
    forall v | v != u.id ensures Filter(DeleteFirst(s.tokens, OwnedBy(u.id)) + [issued], OwnedBy(v)) == Filter(s.tokens, OwnedBy(v)) {
      ReplaceKeepsOthers(s.tokens, OwnedBy(u.id), issued, OwnedBy(v));
    }
  }

  /** A login without failures, with the stored tokens issued before the
      current serial, deletes the user's token and appends the new one. */
  lemma LoginStoresToken(s: Stores, email: string, password: string, now: int, env: Option<int>,
                         hash: Hasher, sign: Signer, i: nat)
    requires KeysDistinct(s.users, UserEmail) && IssuedBefore(s.tokens, sign, s.nextSerial)
    requires i < |s.users| && s.users[i].email == email && MatchPassword(password, s.users[i], hash)
    ensures var u := s.users[i];
      LoginSpec(s, email, password, now, env, hash, sign, {}).after.tokens
        == DeleteFirst(s.tokens, OwnedBy(u.id)) + [RefreshToken(sign(Refresh, u.id, s.nextSerial), u.id, now + LoginTtl(env) * 1000)]
  {
    var u := s.users[i];
    UserFoundByEmail(s.users, email, i);
    assert LoginSpec(s, email, password, now, env, hash, sign, {}) == StartSession(s, u, now, env, sign, {});
    StartSessionTokens(s, u, now, env, sign, {});
    SaveLoginTokenAppends(s.tokens, u.id, now + LoginTtl(env) * 1000, sign, s.nextSerial);
  }

  /** A token signed at the current serial, for a store issued before it, is
      never refused by the unique index: the write with no failure deletes
      the user's token and appends the new one. */
  lemma SaveLoginTokenAppends(tokens: seq<RefreshToken>, user: UserId, expiresAt: int, sign: Signer, serial: nat)
    requires IssuedBefore(tokens, sign, serial)
    ensures SaveLoginToken(tokens, user, sign(Refresh, user, serial), expiresAt, {})
         == DeleteFirst(tokens, OwnedBy(user)) + [RefreshToken(sign(Refresh, user, serial), user, expiresAt)]
  {
    var rest := DeleteFirst(tokens, OwnedBy(user));
    SubsetKeepsIssuedBefore(tokens, rest, sign, serial, serial);
    FreshTokenInserted(rest, RefreshToken(sign(Refresh, user, serial), user, expiresAt), sign, serial, Refresh);
  }

  // ---------------------------------------------------------------------
  // refreshAccessTokenService

  /** No cookie: 403, nothing changes, no cookie set. */
  lemma RefreshWithoutToken(s: Stores, presented: Option<Cookie>, expiry: Option<int>, sign: Signer, fault: Option<Step>)
    requires !Present(presented)
    ensures RefreshWith(s, presented, expiry, sign, fault) == Stay(s, Returned(Refused(403, "No refresh token")))
  {
  }

  /** A token no user owns, or one that is not stored: 403, nothing changes. */
  lemma RefreshUnknownToken(s: Stores, token: string, expiry: Option<int>, sign: Signer, fault: Option<Step>)
    requires token != "" && fault != Some(FindToken)
    requires forall j :: 0 <= j < |s.tokens| && s.tokens[j].token == token ==> s.tokens[j].user !in Ids(s.users)
    ensures RefreshWith(s, Some(Text(token)), expiry, sign, fault) == Stay(s, Returned(Refused(403, "Invalid refresh token")))
  {
    match FindFirst(s.tokens, HasValue(token))
    case None =>
    case Some(i) =>
      assert s.tokens[i].user !in Ids(s.users);
  }

  /** Under the invariant a stored token is found at its own position and
      its owner is a stored user. */
  lemma StoredTokenFound(s: Stores, i: nat)
    requires Invariant(s) && i < |s.tokens|
    ensures FindFirst(s.tokens, HasValue(s.tokens[i].token)) == Some(i)
    ensures FindFirst(s.users, IdIs(s.tokens[i].user)).Some?
  {
    var owner := s.tokens[i].user;
    ValueFoundAt(s.tokens, i);
    assert owner in Ids(s.users);
    var k :| 0 <= k < |s.users| && s.users[k].id == owner;
    assert IdIs(owner)(s.users[k]);
  }

  /** Presenting a stored token reaches the rotation of that token. */
  lemma RefreshReachesRotate(s: Stores, sign: Signer, i: nat, expiry: Option<int>, fault: Option<Step>)
    requires Invariant(s) && i < |s.tokens| && s.tokens[i].token != "" && fault != Some(FindToken)
    ensures RefreshWith(s, Some(Text(s.tokens[i].token)), expiry, sign, fault)
         == Rotate(s, HasValue(s.tokens[i].token), s.tokens[i].user, expiry, sign, fault)
  {
    StoredTokenFound(s, i);
  }

  /** A rotation with nothing failing, when no stored token is one the signer
      gives at the current serial, replaces the `i`-th token by a new one for
      the same owner. */
  lemma RotateReplacesToken(s: Stores, sign: Signer, i: nat, e: int)
    requires KeysDistinct(s.tokens, TokenValue) && IssuedBefore(s.tokens, sign, s.nextSerial) && i < |s.tokens|
    ensures var token := s.tokens[i].token;
      var owner := s.tokens[i].user;
      var t := Rotate(s, HasValue(token), owner, Some(e), sign, None);
      && t.outcome == Returned(Body(true, None, Some("Access token refreshed successfully"),
                                    Some(sign(Access, owner, s.nextSerial)), None, None))
      && t.after.tokens == RemoveAt(s.tokens, i) + [RefreshToken(sign(Refresh, owner, s.nextSerial), owner, e)]
      && (forall j :: 0 <= j < |t.after.tokens| ==> t.after.tokens[j].token != token)
  {
    var issued := RefreshToken(sign(Refresh, s.tokens[i].user, s.nextSerial), s.tokens[i].user, e);
    ReplaceAt(s.tokens, i, issued, sign, s.nextSerial);
    RotateStores(s, HasValue(s.tokens[i].token), s.tokens[i].user, e, sign);
  }

  /** The token list side of a rotation: deleting the `i`-th token and
      inserting one signed at the current serial succeeds and leaves the old
      value out. */
  lemma ReplaceAt(tokens: seq<RefreshToken>, i: nat, issued: RefreshToken, sign: Signer, serial: nat)
    requires KeysDistinct(tokens, TokenValue) && IssuedBefore(tokens, sign, serial) && i < |tokens|
    requires issued.token == sign(Refresh, issued.user, serial)
    ensures var rest := DeleteFirst(tokens, HasValue(tokens[i].token));
      && rest == RemoveAt(tokens, i)
      && Insert(rest, issued) == Some(rest + [issued])
      && forall j :: 0 <= j < |rest + [issued]| ==> (rest + [issued])[j].token != tokens[i].token
  {
    var rest := DeleteFirst(tokens, HasValue(tokens[i].token));
    ValueFoundAt(tokens, i);
    RemoveAtRemovesKey(tokens, i, TokenValue);
    SubsetKeepsIssuedBefore(tokens, rest, sign, serial, serial);
    FreshTokenInserted(rest, issued, sign, serial, Refresh);
    assert issued.token != tokens[i].token by {
      assert SignedBefore(tokens[i].token, sign, serial);
    }
    forall j | 0 <= j < |rest + [issued]| ensures (rest + [issued])[j].token != tokens[i].token {
      if j < |rest| {
        assert (rest + [issued])[j] == rest[j];
      }
    }
  }

  /** A stored token rotates: it is removed, a new token for the same user
      with the given expiry is added, the new refresh token goes to the
      cookie and only the access token to the body. The stored expiry of the
      presented token is not consulted. */
  lemma RefreshRotates(s: Stores, token: string, e: int, sign: Signer, i: nat)
    requires Invariant(s) && IssuedBefore(s.tokens, sign, s.nextSerial)
    requires token != "" && i < |s.tokens| && s.tokens[i].token == token
    ensures var t := RefreshWith(s, Some(Text(token)), Some(e), sign, None);
      var owner := s.tokens[i].user;
      && t.outcome == Returned(Body(true, None, Some("Access token refreshed successfully"),
                                    Some(sign(Access, owner, s.nextSerial)), None, None))
      && t.cookie == Some(sign(Refresh, owner, s.nextSerial))
      && t.after.tokens == RemoveAt(s.tokens, i) + [RefreshToken(sign(Refresh, owner, s.nextSerial), owner, e)]
      && (forall j :: 0 <= j < |t.after.tokens| ==> t.after.tokens[j].token != token)
  {
    RefreshReachesRotate(s, sign, i, Some(e), None);
    RotateReplacesToken(s, sign, i, e);
  }

  /** As written, with the lifetime variable set to a value that `jwt.sign`
      accepts but `Number` does not, such as "7d", the new token's expiry is
      not a date, so saving it fails: the presented token is already
      deleted, the 500 body is returned, and the user is left with no
      refresh token at all. */
  lemma RefreshAsWrittenDropsSession(s: Stores, token: string, now: int, sign: Signer, i: nat)
    requires Invariant(s)
    requires token != "" && i < |s.tokens| && s.tokens[i].token == token
    ensures var t := RefreshWith(s, Some(Text(token)), RefreshExpiryAsWritten(None, now), sign, None);
      && t.outcome == Returned(ServerError)
      && t.after.tokens == RemoveAt(s.tokens, i)
      && (forall j :: 0 <= j < |t.after.tokens| ==> t.after.tokens[j].user != s.tokens[i].user)
  {
    StoredTokenFound(s, i);
    RefreshReachesRotate(s, sign, i, RefreshExpiryAsWritten(None, now), None);
    RemoveAtRemovesKey(s.tokens, i, TokenOwner);
  }

  /** With the login's default applied, the same refresh succeeds and the
      new token lives for a day. */
  lemma RefreshWithDefaultKeepsSession(s: Stores, token: string, now: int, sign: Signer, i: nat)
    requires Invariant(s) && IssuedBefore(s.tokens, sign, s.nextSerial)
    requires token != "" && i < |s.tokens| && s.tokens[i].token == token
    ensures var t := RefreshSpec(s, Some(Text(token)), now, None, sign, None);
      var owner := s.tokens[i].user;
      && t.outcome.body.success
      && t.after.tokens == RemoveAt(s.tokens, i) + [RefreshToken(sign(Refresh, owner, s.nextSerial), owner, now + 86400000)]
  {
    RefreshRotates(s, token, now + LoginTtl(None) * 1000, sign, i);
  }

  /** A refresh token works once when no stored token is one the signer
      gives from the current serial on, as the corrected issuer keeps it
      (`RefreshKeepsIssuedBefore`): after a successful rotation, presenting it
      again is refused and changes nothing. `SameSecondRefreshKeepsToken` is
      the code's issuer. */
  lemma RefreshTokenSingleUse(s: Stores, token: string, now: int, env: Option<int>, sign: Signer,
                              fault: Option<Step>, i: nat)
    requires Invariant(s) && IssuedBefore(s.tokens, sign, s.nextSerial)
    requires token != "" && i < |s.tokens| && s.tokens[i].token == token && fault != Some(FindToken)
    ensures var after := RefreshSpec(s, Some(Text(token)), now, env, sign, None).after;
      RefreshSpec(after, Some(Text(token)), now, env, sign, fault) == Stay(after, Returned(Refused(403, "Invalid refresh token")))
  {
    var e := now + LoginTtl(env) * 1000;
    assert RefreshExpiry(env, now) == Some(e);
    RefreshRotates(s, token, e, sign, i);
    var after := RefreshWith(s, Some(Text(token)), Some(e), sign, None).after;
    assert RefreshSpec(s, Some(Text(token)), now, env, sign, None).after == after;
    RefreshUnknownToken(after, token, Some(e), sign, fault);
    assert RefreshSpec(after, Some(Text(token)), now, env, sign, fault) == RefreshWith(after, Some(Text(token)), Some(e), sign, fault);
  }

  /** A rotation whose new refresh token is the presented one, as when the
      signer re-signs the same user within one second: the presented token
      is deleted and the same value stored again, so it stays valid and is
      accepted once more. */
  lemma RotateReissuesPresented(s: Stores, token: string, e: int, sign: Signer, i: nat)
    requires KeysDistinct(s.tokens, TokenValue) && token != "" && i < |s.tokens| && s.tokens[i].token == token
    requires FindFirst(s.users, IdIs(s.tokens[i].user)).Some?
    requires sign(Refresh, s.tokens[i].user, s.nextSerial) == token
    ensures var owner := s.tokens[i].user;
      var t := RefreshWith(s, Some(Text(token)), Some(e), sign, None);
      && t.outcome.body.success
      && t.after.tokens == RemoveAt(s.tokens, i) + [RefreshToken(token, owner, e)]
      && RefreshWith(t.after, Some(Text(token)), Some(e), sign, None) == Rotate(t.after, HasValue(token), owner, Some(e), sign, None)
  {
    var owner := s.tokens[i].user;
    var issued := RefreshToken(token, owner, e);
    ValueFoundAt(s.tokens, i);
    var rest := RemoveAt(s.tokens, i);
    RemoveAtRemovesKey(s.tokens, i, TokenValue);
    RemoveAtKeepsKeysDistinct(s.tokens, i, TokenValue);
    AppendKeepsKeysDistinct(rest, issued, TokenValue);
    RotateStores(s, HasValue(token), owner, e, sign);
    var after := RefreshWith(s, Some(Text(token)), Some(e), sign, None).after;
    assert after.tokens == rest + [issued];
    ValueFoundAt(after.tokens, |rest|);
  }

  /** With token values unique, a stored token is found at its own position. */
  lemma ValueFoundAt(tokens: seq<RefreshToken>, i: nat)
    requires KeysDistinct(tokens, TokenValue) && i < |tokens|
    ensures FindFirst(tokens, HasValue(tokens[i].token)) == Some(i)
  {
    assert HasValue(tokens[i].token)(tokens[i]);
    assert forall k :: 0 <= k < |tokens| && k != i ==> TokenValue(tokens[k]) != TokenValue(tokens[i]);
  }

  /** As written: a token signed at issue `m` and presented for refresh in
      the same second is re-signed identically, so it survives the rotation
      and can be presented again. */
  lemma SameSecondRefreshKeepsToken(s: Stores, jwt: (TokenKind, UserId, int) -> string, second: nat -> int,
                                    m: nat, e: int, i: nat)
    requires KeysDistinct(s.tokens, TokenValue) && i < |s.tokens| && s.tokens[i].token != ""
    requires FindFirst(s.users, IdIs(s.tokens[i].user)).Some?
    requires s.tokens[i].token == jwt(Refresh, s.tokens[i].user, second(m)) && second(m) == second(s.nextSerial)
    ensures var token := s.tokens[i].token;
      var t := RefreshWith(s, Some(Text(token)), Some(e), SecondSigner(jwt, second), None);
      && t.outcome.body.success
      && exists j :: 0 <= j < |t.after.tokens| && t.after.tokens[j].token == token
  {
    var token := s.tokens[i].token;
    var sign := SecondSigner(jwt, second);
    assert sign(Refresh, s.tokens[i].user, s.nextSerial) == token;
    RotateReissuesPresented(s, token, e, sign, i);
    var t := RefreshWith(s, Some(Text(token)), Some(e), sign, None);
    assert t.after.tokens[|t.after.tokens| - 1].token == token;
  }

  /** As written: a cookie that decodes to a query operator matching the first
      stored token (`j:{"$ne":null}` matches every token) is looked up and
      deleted like a token. The first stored session is rotated, and its
      owner's new access token and refresh cookie go to whoever sent the
      cookie, who needs to know no token at all. */
  lemma OperatorCookieTakesOverSession(s: Stores, matches: string -> bool, e: int, sign: Signer)
    requires Invariant(s) && IssuedBefore(s.tokens, sign, s.nextSerial)
    requires |s.tokens| > 0 && matches(s.tokens[0].token)
    ensures var owner := s.tokens[0].user;
      var t := RefreshWith(s, Some(Operator(matches)), Some(e), sign, None);
      && t.outcome == Returned(Body(true, None, Some("Access token refreshed successfully"),
                                    Some(sign(Access, owner, s.nextSerial)), None, None))
      && t.cookie == Some(sign(Refresh, owner, s.nextSerial))
      && t.after.tokens == s.tokens[1..] + [RefreshToken(sign(Refresh, owner, s.nextSerial), owner, e)]
  {
    var select := Selects(Operator(matches));
    var owner := s.tokens[0].user;
    assert select(s.tokens[0]);
    assert FindFirst(s.tokens, select) == Some(0);
    assert owner in Ids(s.users);
    var k :| 0 <= k < |s.users| && s.users[k].id == owner;
    assert IdIs(owner)(s.users[k]);
    var rest := DeleteFirst(s.tokens, select);
    assert rest == s.tokens[1..];
    SubsetKeepsIssuedBefore(s.tokens, rest, sign, s.nextSerial, s.nextSerial);
    FreshTokenInserted(rest, RefreshToken(sign(Refresh, owner, s.nextSerial), owner, e), sign, s.nextSerial, Refresh);
    RotateStores(s, select, owner, e, sign);
  }

  /** Corrected: only the holder of a stored token is served. Whenever the
      refresh succeeds, the cookie was text equal to a stored token, and the
      access token returned is the one signed for that token's owner. */
  lemma RefreshServesOnlyTheHolder(s: Stores, presented: Option<Cookie>, now: int, env: Option<int>, sign: Signer,
                                   fault: Option<Step>)
    ensures var t := RefreshSpec(s, presented, now, env, sign, fault);
      t.outcome.body.success ==>
        && presented.Some? && presented.value.Text?
        && exists i :: 0 <= i < |s.tokens| && s.tokens[i].token == presented.value.text
                       && t.outcome.body.accessToken == Some(sign(Access, s.tokens[i].user, s.nextSerial))
  {
    var t := RefreshSpec(s, presented, now, env, sign, fault);
    if t.outcome.body.success {
      var token := presented.value.text;
      var i := FindFirst(s.tokens, HasValue(token)).value;
      assert HasValue(token)(s.tokens[i]);
    }
  }

  /** The only expiry check is the store's TTL monitor: once it has run past
      a token's expiry, the token is refused; until then it still rotates
      (see `RefreshRotates`, which has no condition on the expiry). */
  lemma SweptTokenIsRefused(s: Stores, token: string, now: int, later: int, env: Option<int>, sign: Signer,
                            fault: Option<Step>)
    requires token != "" && fault != Some(FindToken)
    requires forall j :: 0 <= j < |s.tokens| && s.tokens[j].token == token ==> s.tokens[j].expiresAt < now
    ensures var swept := s.(tokens := Sweep(s.tokens, now));
      RefreshSpec(swept, Some(Text(token)), later, env, sign, fault) == Stay(swept, Returned(Refused(403, "Invalid refresh token")))
  {
    var swept := s.(tokens := Sweep(s.tokens, now));
    forall j | 0 <= j < |swept.tokens| ensures swept.tokens[j].token != token {
      var k :| 0 <= k < |s.tokens| && s.tokens[k] == swept.tokens[j];
    }
    RefreshUnknownToken(swept, token, RefreshExpiry(env, later), sign, fault);
  }

  // ---------------------------------------------------------------------
  // resetPasswordService

  /** An unknown address: "User not found", nothing changes. */
  lemma ResetUnknownUser(s: Stores, email: string, newPassword: string, now: int, hash: Hasher, fault: Option<Step>)
    requires fault != Some(FindUser)
    requires forall i :: 0 <= i < |s.users| ==> s.users[i].email != email
    ensures ResetSpec(s, email, newPassword, now, hash, fault) == Stay(s, Returned(Failure("User not found")))
  {
  }

  /** A reset changes the password (and `updatedAt`) of that user only. */
  lemma ResetChangesOnlyPassword(s: Stores, email: string, newPassword: string, now: int, hash: Hasher, i: nat)
    requires KeysDistinct(s.users, UserEmail)
    requires i < |s.users| && s.users[i].email == email
    ensures var t := ResetSpec(s, email, newPassword, now, hash, None);
      && t.outcome == Returned(Success("Password reset successfully"))
      && |t.after.users| == |s.users|
      && (forall j :: 0 <= j < |s.users| && j != i ==> t.after.users[j] == s.users[j])
      && t.after.users[i].(password := s.users[i].password, updatedAt := s.users[i].updatedAt) == s.users[i]
  {
    UserFoundByEmail(s.users, email, i);
  }

  /** After a reset to a new password, logging in with it succeeds. */
  lemma LoginAfterReset(s: Stores, email: string, newPassword: string, now: int, later: int, env: Option<int>,
                        hash: Hasher, sign: Signer, i: nat)
    requires KeysDistinct(s.users, UserEmail)
    requires i < |s.users| && s.users[i].email == email && newPassword != s.users[i].password
    ensures var after := ResetSpec(s, email, newPassword, now, hash, None).after;
      LoginSpec(after, email, newPassword, later, env, hash, sign, {}).outcome.body.success
  {
    ResetChangesOnlyPassword(s, email, newPassword, now, hash, i);
    UserFoundByEmail(s.users, email, i);
    var after := ResetSpec(s, email, newPassword, now, hash, None).after;
    assert after.users[i] == AssignPasswordAndSave(s.users[i], newPassword, now, hash);
    assert after.users[i].email == email;
    forall j | 0 <= j < |after.users| ensures after.users[j].email == s.users[j].email {
      if j != i { assert after.users[j] == s.users[j]; }
    }
    SameKeysKeepKeysDistinct(s.users, after.users, UserEmail);
    SavedPasswordMatches(s.users[i], newPassword, now, hash);
    LoginSucceeds(after, email, newPassword, later, env, hash, sign, {}, i);
  }
}
