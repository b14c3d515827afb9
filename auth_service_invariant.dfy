/** What the stores of the identity service keep true across every
    operation of identity-service/src/services/auth-service.js, whatever
    step throws and whatever the token signer: the unique indexes of the
    user and refresh-token collections, one verification code per address,
    unused codes, one session per user and tokens owned by existing users.
    Apart from that, under the corrected issuer every stored token was
    issued before the signer's current serial (`IssuedBefore`). */
module AuthServiceInvariant {
  import opened Common
  import opened UserModel
  import opened VerificationCodeModel
  import opened RefreshTokenModel
  import opened GenerateToken
  import opened ValidationSchema
  import opened AuthServiceSpec
  import opened Http

  ghost function Ids(users: seq<User>): set<UserId> {
    set j | 0 <= j < |users| :: users[j].id
  }

  ghost predicate Invariant(s: Stores) {
    && KeysDistinct(s.users, UserEmail)
    && KeysDistinct(s.users, UserIdOf)
    && (forall i :: 0 <= i < |s.users| ==> s.users[i].id < s.nextUserId)
    && KeysDistinct(s.codes, CodeEmail)
    && (forall i :: 0 <= i < |s.codes| ==> !s.codes[i].used)
    && KeysDistinct(s.tokens, TokenValue)
    && KeysDistinct(s.tokens, TokenOwner)
    && (forall i :: 0 <= i < |s.tokens| ==> s.tokens[i].user in Ids(s.users))
  }

  /** Empty collections, an empty cache, both counters at zero. */
  function EmptyStores(): (s: Stores)
    ensures s.users == [] && s.codes == [] && s.tokens == [] && s.cache == map[]
  {
    Stores([], [], [], map[], 0, 0)
  }

  lemma EmptyStoresSatisfyInvariant()
    ensures Invariant(EmptyStores())
  {
  }

  // ---------------------------------------------------------------------
  // Helpers

  /** Once the first code of an address is deleted, under one code per
      address, no code of that address is left. */
  lemma NoCodeOfEmailLeft(codes: seq<VerificationCode>, email: string)
    requires KeysDistinct(codes, CodeEmail)
    ensures forall j :: 0 <= j < |DeleteFirst(codes, HasEmail(email))| ==> DeleteFirst(codes, HasEmail(email))[j].email != email
  {
    match FindFirst(codes, HasEmail(email))
    case None =>
    case Some(i) => RemoveAtRemovesKey(codes, i, CodeEmail);
  }

  /** Once the first token of a user is deleted, under one token per user,
      the user has none left. */
  lemma NoTokenOfOwnerLeft(tokens: seq<RefreshToken>, user: UserId)
    requires KeysDistinct(tokens, TokenOwner)
    ensures forall j :: 0 <= j < |DeleteFirst(tokens, OwnedBy(user))| ==> DeleteFirst(tokens, OwnedBy(user))[j].user != user
  {
    match FindFirst(tokens, OwnedBy(user))
    case None =>
    case Some(i) => RemoveAtRemovesKey(tokens, i, TokenOwner);
  }

  lemma IdsGrow(users: seq<User>, u: User)
    ensures Ids(users) <= Ids(users + [u]) && u.id in Ids(users + [u])
  {
    var r := users + [u];
    forall x | x in Ids(users) ensures x in Ids(r) {
      var j :| 0 <= j < |users| && users[j].id == x;
      assert r[j] == users[j];
    }
    assert r[|users|] == u;
  }

  lemma IdsKept(users: seq<User>, i: nat, v: User)
    requires i < |users| && v.id == users[i].id
    ensures Ids(users[i := v]) == Ids(users)
  {
    var r := users[i := v];
    forall x | x in Ids(users) ensures x in Ids(r) {
      var j :| 0 <= j < |users| && users[j].id == x;
      assert r[j].id == x;
    }
    forall x | x in Ids(r) ensures x in Ids(users) {
      var j :| 0 <= j < |r| && r[j].id == x;
      assert users[j].id == x;
    }
  }

  /** The code collection part of the invariant. */
  ghost predicate CodesValid(codes: seq<VerificationCode>) {
    KeysDistinct(codes, CodeEmail) && forall i :: 0 <= i < |codes| ==> !codes[i].used
  }

  lemma DeleteFirstKeepsCodesValid(codes: seq<VerificationCode>, p: VerificationCode -> bool)
    requires CodesValid(codes)
    ensures CodesValid(DeleteFirst(codes, p))
  {
    match FindFirst(codes, p)
    case None =>
    case Some(i) => RemoveAtKeepsKeysDistinct(codes, i, CodeEmail);
  }

  /** The token collection part of the invariant, for a given user set. */
  ghost predicate TokensValid(tokens: seq<RefreshToken>, ids: set<UserId>) {
    && KeysDistinct(tokens, TokenValue)
    && KeysDistinct(tokens, TokenOwner)
    && (forall i :: 0 <= i < |tokens| ==> tokens[i].user in ids)
  }

  lemma DeleteFirstKeepsTokensValid(tokens: seq<RefreshToken>, p: RefreshToken -> bool, ids: set<UserId>)
    requires TokensValid(tokens, ids)
    ensures TokensValid(DeleteFirst(tokens, p), ids)
  {
    match FindFirst(tokens, p)
    case None =>
    case Some(i) =>
      RemoveAtKeepsKeysDistinct(tokens, i, TokenValue);
      RemoveAtKeepsKeysDistinct(tokens, i, TokenOwner);
  }

  /** Inserting a token for a stored user holding no token keeps the token
      part valid, whenever the unique index accepts it. */
  lemma InsertKeepsTokensValid(tokens: seq<RefreshToken>, t: RefreshToken, ids: set<UserId>)
    requires TokensValid(tokens, ids) && t.user in ids
    requires forall j :: 0 <= j < |tokens| ==> tokens[j].user != t.user
    ensures Insert(tokens, t).Some? ==> TokensValid(Insert(tokens, t).value, ids)
  {
    if Insert(tokens, t).Some? {
      AppendKeepsKeysDistinct(tokens, t, TokenValue);
      AppendKeepsKeysDistinct(tokens, t, TokenOwner);
    }
  }

  /** A larger user set keeps the token part valid. */
  lemma TokensValidWeaken(tokens: seq<RefreshToken>, ids: set<UserId>, ids': set<UserId>)
    requires TokensValid(tokens, ids) && ids <= ids'
    ensures TokensValid(tokens, ids')
  {
  }

  lemma InvariantByParts(s: Stores)
    ensures Invariant(s) <==>
      && KeysDistinct(s.users, UserEmail)
      && KeysDistinct(s.users, UserIdOf)
      && (forall i :: 0 <= i < |s.users| ==> s.users[i].id < s.nextUserId)
      && CodesValid(s.codes)
      && TokensValid(s.tokens, Ids(s.users))
  {
  }

  lemma InvariantTokensValid(s: Stores)
    requires Invariant(s)
    ensures TokensValid(s.tokens, Ids(s.users))
  {
  }

  /** Only the tokens (and the serial) changed: the token part decides. */
  lemma ReplaceTokensKeepsInvariant(s: Stores, s': Stores)
    requires Invariant(s)
    requires s'.users == s.users && s'.codes == s.codes && s'.nextUserId == s.nextUserId
    requires TokensValid(s'.tokens, Ids(s.users))
    ensures Invariant(s')
  {
  }

  // ---------------------------------------------------------------------
  // Preservation, one lemma per operation

  lemma RequestCodePreservesInvariant(s: Stores, email: string, now: int, draw: nat, fault: Option<Step>)
    requires 1000 <= draw < 9999 && Invariant(s)
    ensures Invariant(RequestCodeSpec(s, email, now, draw, fault).after)
  {
    InvariantByParts(s);
    if fault != Some(FindUser) && FindFirst(s.users, EmailIs(email)).None? && fault != Some(DeleteExpiredCodes) {
      var c1 := DeleteExpired(s.codes, email, now);
      FilterKeepsKeysDistinct(s.codes, Unexpired(email, now), CodeEmail);
      forall i | 0 <= i < |c1| ensures !c1[i].used {
        var j :| 0 <= j < |s.codes| && s.codes[j] == c1[i];
      }
      IssueCodeKeepsCodesValid(s.(codes := c1), email, now, draw, fault);
      InvariantByParts(RequestCodeSpec(s, email, now, draw, fault).after);
    }
  }

  lemma IssueCodeKeepsCodesValid(s: Stores, email: string, now: int, draw: nat, fault: Option<Step>)
    requires 1000 <= draw < 9999 && CodesValid(s.codes)
    ensures CodesValid(IssueCode(s, email, now, draw, fault).after.codes)
  {
    var c2 := DeleteFirst(s.codes, HasEmail(email));
    DeleteFirstKeepsCodesValid(s.codes, HasEmail(email));
    NoCodeOfEmailLeft(s.codes, email);
    AppendKeepsKeysDistinct(c2, NewCode(email, Decimal(draw), now + CodeLifetimeMs), CodeEmail);
  }

  lemma VerifyPreservesInvariant(s: Stores, email: string, code: string, now: int, fault: Option<Step>)
    requires Invariant(s)
    ensures Invariant(VerifySpec(s, email, code, now, fault).after)
  {
    var r := MarkVerified(s.codes, email);
    assert forall j :: 0 <= j < |r| ==> r[j].email == s.codes[j].email && r[j].used == s.codes[j].used;
    SameKeysKeepKeysDistinct(s.codes, r, CodeEmail);
  }

  lemma RegisterPreservesInvariant(s: Stores, data: RegisterData, now: int, parseDate: DateParser, hash: Hasher,
                                   target: Option<nat>, fault: Option<Step>)
    requires Invariant(s)
    ensures Invariant(RegisterSpec(s, data, now, parseDate, hash, target, fault).after)
  {
    if && fault != Some(FindUser) && FindFirst(s.users, EmailIs(data.email)).None? && fault != Some(FindCode)
       && FindFirst(s.codes, HasEmail(data.email)).Some?
       && s.codes[FindFirst(s.codes, HasEmail(data.email)).value].isEmailVerified
       && fault != Some(DeleteCode)
    {
      var codes := StrayDelete(s.codes, target);
      if target.Some? && target.value < |s.codes| {
        RemoveAtKeepsKeysDistinct(s.codes, target.value, CodeEmail);
      }
      CreateAccountPreservesInvariant(s.(codes := codes), data, now, parseDate, hash, fault);
    }
  }

  lemma CreateAccountPreservesInvariant(s: Stores, data: RegisterData, now: int, parseDate: DateParser, hash: Hasher,
                                        fault: Option<Step>)
    requires Invariant(s) && FindFirst(s.users, EmailIs(data.email)).None?
    ensures Invariant(CreateAccount(s, data, now, parseDate, hash, fault).after)
  {
    var t := CreateAccount(s, data, now, parseDate, hash, fault);
    if t.after != s {
      InvariantByParts(s);
      var u := t.after.users[|s.users|];
      assert t.after.users == s.users + [u] && u.id == s.nextUserId && u.email == data.email;
      AppendKeepsKeysDistinct(s.users, u, UserEmail);
      AppendKeepsKeysDistinct(s.users, u, UserIdOf);
      IdsGrow(s.users, u);
      TokensValidWeaken(s.tokens, Ids(s.users), Ids(t.after.users));
      InvariantByParts(t.after);
    }
  }

  /** The login's inner try block keeps the token part valid, whatever the
      new token's value and whichever of its calls fail. */
  lemma SaveLoginTokenKeepsTokensValid(tokens: seq<RefreshToken>, saved: seq<RefreshToken>, user: UserId, token: string,
                                       ids: set<UserId>, expiresAt: int, faults: set<Step>)
    requires TokensValid(tokens, ids) && user in ids
    requires saved == SaveLoginToken(tokens, user, token, expiresAt, faults)
    ensures TokensValid(saved, ids)
  {
    if DeleteToken !in faults {
      var rest := DeleteFirst(tokens, OwnedBy(user));
      DeleteFirstKeepsTokensValid(tokens, OwnedBy(user), ids);
      NoTokenOfOwnerLeft(tokens, user);
      InsertKeepsTokensValid(rest, RefreshToken(token, user, expiresAt), ids);
    }
  }

  /** A session's token part: the login token write of the token signed at
      the current serial. */
  lemma StartSessionTokens(s: Stores, u: User, now: int, env: Option<int>, sign: Signer, faults: set<Step>)
    ensures StartSession(s, u, now, env, sign, faults).after.tokens
         == SaveLoginToken(s.tokens, u.id, sign(Refresh, u.id, s.nextSerial), now + LoginTtl(env) * 1000, faults)
  {
    if WriteCache in faults {
      StartSessionCacheFails(s, u, now, env, sign, faults);
    } else {
      StartSessionCaches(s, u, now, env, sign, faults);
    }
  }

  /** A session for a stored user leaves the token collection valid. */
  lemma StartSessionKeepsTokensValid(s: Stores, i: nat, now: int, env: Option<int>, sign: Signer, faults: set<Step>)
    requires TokensValid(s.tokens, Ids(s.users)) && i < |s.users|
    ensures TokensValid(StartSession(s, s.users[i], now, env, sign, faults).after.tokens, Ids(s.users))
  {
    var u := s.users[i];
    assert u.id in Ids(s.users);
    StartSessionTokens(s, u, now, env, sign, faults);
    SaveLoginTokenKeepsTokensValid(s.tokens, StartSession(s, u, now, env, sign, faults).after.tokens, u.id,
                                   sign(Refresh, u.id, s.nextSerial), Ids(s.users), now + LoginTtl(env) * 1000, faults);
  }

  /** Starting a session for a stored user keeps the invariant. */
  lemma StartSessionPreservesInvariant(s: Stores, i: nat, now: int, env: Option<int>, sign: Signer, faults: set<Step>)
    requires Invariant(s) && i < |s.users|
    ensures Invariant(StartSession(s, s.users[i], now, env, sign, faults).after)
  {
    InvariantTokensValid(s);
    StartSessionKeepsTokensValid(s, i, now, env, sign, faults);
    ReplaceTokensKeepsInvariant(s, StartSession(s, s.users[i], now, env, sign, faults).after);
  }

  lemma LoginPreservesInvariant(s: Stores, email: string, password: string, now: int, env: Option<int>,
                                hash: Hasher, sign: Signer, faults: set<Step>)
    requires Invariant(s)
    ensures Invariant(LoginSpec(s, email, password, now, env, hash, sign, faults).after)
  {
    if FindUser !in faults && FindFirst(s.users, EmailIs(email)).Some? {
      var i := FindFirst(s.users, EmailIs(email)).value;
      if MatchPassword(password, s.users[i], hash) && ComparePassword !in faults {
        assert LoginSpec(s, email, password, now, env, hash, sign, faults) == StartSession(s, s.users[i], now, env, sign, faults);
        StartSessionPreservesInvariant(s, i, now, env, sign, faults);
      }
    }
  }

  /** Rotating the `i`-th stored token, the first one `select` matches,
      keeps the token part valid. */
  lemma RotateKeepsTokensValid(s: Stores, select: RefreshToken -> bool, i: nat, expiry: Option<int>, sign: Signer,
                               fault: Option<Step>)
    requires TokensValid(s.tokens, Ids(s.users)) && i < |s.tokens| && FindFirst(s.tokens, select) == Some(i)
    ensures TokensValid(Rotate(s, select, s.tokens[i].user, expiry, sign, fault).after.tokens, Ids(s.users))
  {
    var owner := s.tokens[i].user;
    var ids := Ids(s.users);
    var result := Rotate(s, select, owner, expiry, sign, fault).after.tokens;
    if fault != Some(DeleteToken) {
      var rest := DeleteFirst(s.tokens, select);
      assert rest == RemoveAt(s.tokens, i);
      DeleteFirstKeepsTokensValid(s.tokens, select, ids);
      if fault != Some(SaveToken) && expiry.Some? {
        var issued := RefreshToken(sign(Refresh, owner, s.nextSerial), owner, expiry.value);
        assert owner in ids;
        RemoveAtRemovesKey(s.tokens, i, TokenOwner);
        InsertKeepsTokensValid(rest, issued, ids);
      }
    }
  }

  /** Rotating the first token `select` matches keeps the invariant. */
  lemma RotatePreservesInvariant(s: Stores, select: RefreshToken -> bool, i: nat, expiry: Option<int>, sign: Signer,
                                 fault: Option<Step>)
    requires Invariant(s) && i < |s.tokens| && FindFirst(s.tokens, select) == Some(i)
    ensures Invariant(Rotate(s, select, s.tokens[i].user, expiry, sign, fault).after)
  {
    InvariantTokensValid(s);
    RotateKeepsTokensValid(s, select, i, expiry, sign, fault);
    ReplaceTokensKeepsInvariant(s, Rotate(s, select, s.tokens[i].user, expiry, sign, fault).after);
  }

  /** The refresh as written keeps the invariant, whatever the cookie. */
  lemma RefreshPreservesInvariant(s: Stores, presented: Option<Cookie>, expiry: Option<int>, sign: Signer,
                                  fault: Option<Step>)
    requires Invariant(s)
    ensures Invariant(RefreshWith(s, presented, expiry, sign, fault).after)
  {
    if Present(presented) && fault != Some(FindToken) && FindFirst(s.tokens, Selects(presented.value)).Some? {
      var i := FindFirst(s.tokens, Selects(presented.value)).value;
      RotatePreservesInvariant(s, Selects(presented.value), i, expiry, sign, fault);
    }
  }

  lemma ResetPreservesInvariant(s: Stores, email: string, newPassword: string, now: int, hash: Hasher,
                                fault: Option<Step>)
    requires Invariant(s)
    ensures Invariant(ResetSpec(s, email, newPassword, now, hash, fault).after)
  {
    var t := ResetSpec(s, email, newPassword, now, hash, fault);
    if t.after != s {
      var i := FindFirst(s.users, EmailIs(email)).value;
      var v := AssignPasswordAndSave(s.users[i], newPassword, now, hash);
      var r := s.users[i := v];
      assert v.id == s.users[i].id && v.email == s.users[i].email;
      assert forall j :: 0 <= j < |r| ==> r[j].id == s.users[j].id && r[j].email == s.users[j].email;
      SameKeysKeepKeysDistinct(s.users, r, UserEmail);
      SameKeysKeepKeysDistinct(s.users, r, UserIdOf);
      IdsKept(s.users, i, v);
    }
  }

  lemma ExpirePreservesInvariant(s: Stores, now: int)
    requires Invariant(s)
    ensures Invariant(s.(tokens := Sweep(s.tokens, now)))
  {
    var r := Sweep(s.tokens, now);
    FilterKeepsKeysDistinct(s.tokens, Live(now), TokenValue);
    FilterKeepsKeysDistinct(s.tokens, Live(now), TokenOwner);
    forall i | 0 <= i < |r| ensures r[i].user in Ids(s.users) {
      var j :| 0 <= j < |s.tokens| && s.tokens[j] == r[i];
    }
  }

  // ---------------------------------------------------------------------
  // Freshness: no stored token is one the signer gives from the current
  // serial on. Only the login and the refresh change the tokens and the
  // serial together; the other services leave both alone.

  /** `token` is no signature made at serial `serial` or later. */
  ghost predicate SignedBefore(token: string, sign: Signer, serial: nat) {
    forall k, u, n :: serial <= n ==> token != sign(k, u, n)
  }

  /** No stored token was signed at serial `serial` or later. */
  ghost predicate IssuedBefore(tokens: seq<RefreshToken>, sign: Signer, serial: nat) {
    forall i :: 0 <= i < |tokens| ==> SignedBefore(tokens[i].token, sign, serial)
  }

  /** A token signed at the current serial is new to a store issued before
      it, so the unique index accepts it. */
  lemma FreshTokenInserted(tokens: seq<RefreshToken>, t: RefreshToken, sign: Signer, serial: nat, kind: TokenKind)
    requires IssuedBefore(tokens, sign, serial) && t.token == sign(kind, t.user, serial)
    ensures Insert(tokens, t) == Some(tokens + [t])
  {
    assert forall j :: 0 <= j < |tokens| ==> tokens[j].token != t.token;
  }

  /** Under the corrected issuer, appending a token signed at the current
      serial leaves the store issued before the next one. */
  lemma AppendFreshKeepsIssuedBefore(tokens: seq<RefreshToken>, t: RefreshToken, sign: Signer, serial: nat, kind: TokenKind)
    requires IssuedBefore(tokens, sign, serial) && SerialInjective(sign) && t.token == sign(kind, t.user, serial)
    ensures IssuedBefore(tokens + [t], sign, serial + 1)
  {
    var r := tokens + [t];
    forall i | 0 <= i < |r| ensures SignedBefore(r[i].token, sign, serial + 1) {
      if i < |tokens| {
        assert r[i] == tokens[i];
      }
    }
  }

  /** Tokens taken from a store issued before a serial were issued before
      it, and before every later serial. */
  lemma SubsetKeepsIssuedBefore(tokens: seq<RefreshToken>, sub: seq<RefreshToken>, sign: Signer, serial: nat, serial': nat)
    requires IssuedBefore(tokens, sign, serial) && serial <= serial'
    requires forall j :: 0 <= j < |sub| ==> sub[j] in tokens
    ensures IssuedBefore(sub, sign, serial')
  {
    forall j | 0 <= j < |sub| ensures SignedBefore(sub[j].token, sign, serial') {
      var k :| 0 <= k < |tokens| && tokens[k] == sub[j];
    }
  }

  /** The login token write, one serial on, under the corrected issuer. */
  lemma SaveLoginTokenKeepsIssuedBefore(tokens: seq<RefreshToken>, saved: seq<RefreshToken>, user: UserId, sign: Signer,
                                        serial: nat, expiresAt: int, faults: set<Step>)
    requires IssuedBefore(tokens, sign, serial) && SerialInjective(sign)
    requires saved == SaveLoginToken(tokens, user, sign(Refresh, user, serial), expiresAt, faults)
    ensures IssuedBefore(saved, sign, serial + 1)
  {
    if DeleteToken in faults {
      SubsetKeepsIssuedBefore(tokens, tokens, sign, serial, serial + 1);
    } else {
      var rest := DeleteFirst(tokens, OwnedBy(user));
      SubsetKeepsIssuedBefore(tokens, rest, sign, serial, serial + 1);
      if SaveToken !in faults {
        var t := RefreshToken(sign(Refresh, user, serial), user, expiresAt);
        SubsetKeepsIssuedBefore(tokens, rest, sign, serial, serial);
        FreshTokenInserted(rest, t, sign, serial, Refresh);
        AppendFreshKeepsIssuedBefore(rest, t, sign, serial, Refresh);
      }
    }
  }

  /** Under the corrected issuer every login leaves the stored tokens issued
      before the serial it leaves behind. */
  lemma LoginKeepsIssuedBefore(s: Stores, email: string, password: string, now: int, env: Option<int>,
                               hash: Hasher, sign: Signer, faults: set<Step>)
    requires IssuedBefore(s.tokens, sign, s.nextSerial) && SerialInjective(sign)
    ensures var t := LoginSpec(s, email, password, now, env, hash, sign, faults);
      IssuedBefore(t.after.tokens, sign, t.after.nextSerial)
  {
    if FindUser !in faults && FindFirst(s.users, EmailIs(email)).Some? {
      var u := s.users[FindFirst(s.users, EmailIs(email)).value];
      if MatchPassword(password, u, hash) && ComparePassword !in faults {
        var t := StartSession(s, u, now, env, sign, faults);
        assert LoginSpec(s, email, password, now, env, hash, sign, faults) == t;
        StartSessionTokens(s, u, now, env, sign, faults);
        SaveLoginTokenKeepsIssuedBefore(s.tokens, t.after.tokens, u.id, sign, s.nextSerial, now + LoginTtl(env) * 1000, faults);
      }
    }
  }

  /** The rotation, one serial on, under the corrected issuer. */
  lemma RotateKeepsIssuedBefore(s: Stores, select: RefreshToken -> bool, owner: UserId, expiry: Option<int>,
                                sign: Signer, fault: Option<Step>)
    requires IssuedBefore(s.tokens, sign, s.nextSerial) && SerialInjective(sign)
    ensures IssuedBefore(Rotate(s, select, owner, expiry, sign, fault).after.tokens, sign, s.nextSerial + 1)
  {
    if fault == Some(DeleteToken) {
      SubsetKeepsIssuedBefore(s.tokens, s.tokens, sign, s.nextSerial, s.nextSerial + 1);
    } else {
      var rest := DeleteFirst(s.tokens, select);
      SubsetKeepsIssuedBefore(s.tokens, rest, sign, s.nextSerial, s.nextSerial + 1);
      if fault != Some(SaveToken) && expiry.Some? {
        var t := RefreshToken(sign(Refresh, owner, s.nextSerial), owner, expiry.value);
        SubsetKeepsIssuedBefore(s.tokens, rest, sign, s.nextSerial, s.nextSerial);
        FreshTokenInserted(rest, t, sign, s.nextSerial, Refresh);
        AppendFreshKeepsIssuedBefore(rest, t, sign, s.nextSerial, Refresh);
      }
    }
  }

  /** Under the corrected issuer every refresh, whatever the cookie, leaves
      the stored tokens issued before the serial it leaves behind. */
  lemma RefreshKeepsIssuedBefore(s: Stores, presented: Option<Cookie>, expiry: Option<int>, sign: Signer,
                                 fault: Option<Step>)
    requires IssuedBefore(s.tokens, sign, s.nextSerial) && SerialInjective(sign)
    ensures var t := RefreshWith(s, presented, expiry, sign, fault);
      IssuedBefore(t.after.tokens, sign, t.after.nextSerial)
  {
    if Present(presented) && fault != Some(FindToken) && FindFirst(s.tokens, Selects(presented.value)).Some? {
      var i := FindFirst(s.tokens, Selects(presented.value)).value;
      RotateKeepsIssuedBefore(s, Selects(presented.value), s.tokens[i].user, expiry, sign, fault);
    }
  }

  /** The TTL monitor only removes tokens. */
  lemma ExpireKeepsIssuedBefore(s: Stores, now: int, sign: Signer)
    requires IssuedBefore(s.tokens, sign, s.nextSerial)
    ensures IssuedBefore(Sweep(s.tokens, now), sign, s.nextSerial)
  {
    SubsetKeepsIssuedBefore(s.tokens, Sweep(s.tokens, now), sign, s.nextSerial, s.nextSerial);
  }
}
