/** The token issuer (identity-service/src/common/utils/generate-token.js):
    two `jwt.sign` calls over the payload `{userId}`, one per lifetime, and
    the refresh token set as the `refreshToken` cookie. Signing is abstract:
    a signer maps the kind, the user and an issue serial to a token string.
    The code's `jwt.sign` depends on the second of the issue only
    (`SecondSigner`); the corrected issuer gives different strings for
    different serials (`SerialInjective`), so each call issues a token
    never issued before. */
module GenerateToken {
  import opened UserModel

  datatype TokenKind = Access | Refresh

  type Signer = (TokenKind, UserId, nat) -> string

  /** The corrected issuer: tokens issued under different serials differ,
      as with a unique `jwtid` per call. */
  ghost predicate SerialInjective(sign: Signer) {
    forall k1, u1, n1, k2, u2, n2 :: sign(k1, u1, n1) == sign(k2, u2, n2) ==> n1 == n2
  }

  datatype TokenPair = TokenPair(accessToken: string, refreshToken: string)

  /** The cookie that carries the refresh token, and its lifetime. */
  const RefreshCookieName: string := "refreshToken"
  const RefreshCookieMaxAgeMs: int := 24 * 60 * 60 * 1000

  /** `generateTokens(res, userId)` at issue serial `serial`. */
  function GenerateTokens(sign: Signer, userId: UserId, serial: nat): (p: TokenPair)
    ensures p.accessToken == sign(Access, userId, serial) && p.refreshToken == sign(Refresh, userId, serial)
  {
    TokenPair(sign(Access, userId, serial), sign(Refresh, userId, serial))
  }

  /** Both tokens of a pair differ from every token signed at another serial. */
  lemma GenerateTokensFresh(sign: Signer, userId: UserId, serial: nat)
    requires SerialInjective(sign)
    ensures var p := GenerateTokens(sign, userId, serial);
      forall k, u, n :: n != serial ==> sign(k, u, n) != p.accessToken && sign(k, u, n) != p.refreshToken
  {
  }

  /** `jwt.sign` as generate-token.js:4-10 calls it: the payload is `{userId}`
      and the only claim that changes between calls is `iat`, in whole
      seconds, so the token depends on the kind, the user and the second of
      signing alone. `second(n)` is the second in which issue `n` happens. */
  function SecondSigner(jwt: (TokenKind, UserId, int) -> string, second: nat -> int): Signer {
    (k: TokenKind, u: UserId, n: nat) => jwt(k, u, second(n))
  }

  /** Two issues for one user within one second give the same pair, so the
      signer as the code calls it does not give a new token per issue. */
  lemma SameSecondSameTokens(jwt: (TokenKind, UserId, int) -> string, second: nat -> int, u: UserId, n1: nat, n2: nat)
    requires second(n1) == second(n2)
    ensures GenerateTokens(SecondSigner(jwt, second), u, n1) == GenerateTokens(SecondSigner(jwt, second), u, n2)
    ensures n1 != n2 ==> !SerialInjective(SecondSigner(jwt, second))
  {
    var sign := SecondSigner(jwt, second);
    assert sign(Refresh, u, n1) == sign(Refresh, u, n2);
  }

  /** With the corrected issuer, a refresh token issued later differs from
      every one issued before. */
  lemma FreshRefreshToken(sign: Signer, u1: UserId, n1: nat, u2: UserId, n2: nat)
    requires SerialInjective(sign) && n1 != n2
    ensures GenerateTokens(sign, u1, n1).refreshToken != GenerateTokens(sign, u2, n2).refreshToken
  {
  }
}
