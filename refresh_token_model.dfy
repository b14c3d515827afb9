/** The `RefreshToken` document (identity-service/src/models/refreshToken.model.js):
    a required, unique token string, a required owner, an expiry that
    defaults to one day after creation, and a TTL index that lets the store
    drop a token once its expiry has passed. */
module RefreshTokenModel {
  import opened Common
  import opened UserModel

  datatype RefreshToken = RefreshToken(token: string, user: UserId, expiresAt: int)

  /** The schema's default lifetime: 24 hours, in milliseconds. */
  const DefaultLifetimeMs: int := 24 * 60 * 60 * 1000

  /** A token created without an explicit expiry. */
  function WithDefaultExpiry(token: string, user: UserId, now: int): (t: RefreshToken)
    ensures t.token == token && t.user == user
    ensures t.expiresAt - now == 86400000
  {
    RefreshToken(token, user, now + DefaultLifetimeMs)
  }

  function TokenValue(t: RefreshToken): string { t.token }
  function TokenOwner(t: RefreshToken): UserId { t.user }

  function HasValue(token: string): RefreshToken -> bool { (t: RefreshToken) => t.token == token }
  function OwnedBy(user: UserId): RefreshToken -> bool { (t: RefreshToken) => t.user == user }
  function Live(now: int): RefreshToken -> bool { (t: RefreshToken) => t.expiresAt >= now }

  /** `save()` of a new token: the unique index on `token` refuses a value
      already present (a duplicate-key error); otherwise it is appended. */
  function Insert(tokens: seq<RefreshToken>, t: RefreshToken): (r: Option<seq<RefreshToken>>)
    ensures r.Some? <==> forall i :: 0 <= i < |tokens| ==> tokens[i].token != t.token
    ensures r.Some? ==> r.value == tokens + [t]
  {
    if FindFirst(tokens, HasValue(t.token)).Some? then None else Some(tokens + [t])
  }

  /** Insertion keeps the token values unique. */
  lemma InsertKeepsUnique(tokens: seq<RefreshToken>, t: RefreshToken)
    requires KeysDistinct(tokens, TokenValue)
    requires Insert(tokens, t).Some?
    ensures KeysDistinct(Insert(tokens, t).value, TokenValue)
  {
    AppendKeepsKeysDistinct(tokens, t, TokenValue);
  }

  /** The TTL monitor (`expireAfterSeconds: 0`): every token whose
      `expiresAt` lies before `now` is removed, every other one stays. */
  function Sweep(tokens: seq<RefreshToken>, now: int): (r: seq<RefreshToken>)
    ensures forall i :: 0 <= i < |r| ==> r[i] in tokens && r[i].expiresAt >= now
    ensures forall i :: 0 <= i < |tokens| && tokens[i].expiresAt >= now ==> tokens[i] in r
  {
    FilterMembers(tokens, Live(now));
    Filter(tokens, Live(now))
  }
}
