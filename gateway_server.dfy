/** The API gateway's own request handling (api-gateway/src/server.js): the
    per-IP rate limit and its 429 answer, the identity-service mount with
    its proxy path resolver, and the catch-all 404. */
module GatewayServer {
  import opened Common
  import opened Http

  // ---------------------------------------------------------------------
  // Proxy path resolver

  /** `originalUrl.replace(/^\/v1/, "/api")`: a leading "/v1" becomes "/api";
      any other URL is forwarded as it is. */
  function ProxyPath(url: string): (p: string)
    ensures !StartsWith(p, "/v1")
    ensures StartsWith(url, "/v1") ==> |p| == |url| + 1 && StartsWith(p, "/api") && p[4..] == url[3..]
    ensures !StartsWith(url, "/v1") ==> p == url
  {
    if StartsWith(url, "/v1") then
      var p := "/api" + url[3..];
      assert p[..3] != "/v1" by { assert p[1] == 'a'; }
      p
    else url
  }

  /** The prefix is rewritten and the rest of the URL kept. */
  lemma ProxyPathRewritesPrefix(rest: string)
    ensures ProxyPath("/v1" + rest) == "/api" + rest
  {
    assert ("/v1" + rest)[..3] == "/v1";
    assert ("/v1" + rest)[3..] == rest;
  }

  /** The match is textual, not by path segment: "/v1x" becomes "/apix". */
  lemma ProxyPathIsTextual()
    ensures ProxyPath("/v1x") == "/apix"
  {
    ProxyPathRewritesPrefix("x");
  }

  /** Only the leading occurrence is replaced. */
  lemma ProxyPathReplacesOnlyLeading()
    ensures ProxyPath("/v1/v1") == "/api/v1"
  {
    ProxyPathRewritesPrefix("/v1");
  }

  /** Applying the resolver twice is the same as once. */
  lemma ProxyPathIdempotent(url: string)
    ensures ProxyPath(ProxyPath(url)) == ProxyPath(url)
  {
  }

  // ---------------------------------------------------------------------
  // Rate limit

  /** The limiter's configuration: key prefix, points per window, window
      length in seconds. */
  datatype LimiterConfig = LimiterConfig(keyPrefix: string, points: nat, duration: nat)

  const GatewayLimiter := LimiterConfig("gateway", 100, 60)

  /** What `rateLimiter.consume(key)` settles with: resolved with the
      remaining points, rejected with the time until the window resets, or
      rejected with a store error, which has no `msBeforeNext`. */
  datatype Consumed = Allowed(remainingPoints: nat, msBeforeNext: nat) | Exceeded(msBeforeNext: nat) | LimiterFailed

  /** The limiter, as a function of the key passed to `consume`; its
      counting is not part of this model. */
  type Limiter = string -> Consumed

  /** `Math.ceil(ms / 1000)`: the least whole number of seconds covering `ms`. */
  function RetrySeconds(ms: nat): (secs: nat)
    ensures secs * 1000 >= ms
    ensures (secs - 1) * 1000 < ms
    ensures ms > 0 <==> secs >= 1
  {
    CeilDiv(ms, 1000)
  }

  const RetryPrefix := "Rate limit exceeded. Try again in "

  /** The 429 message. A store error has no `msBeforeNext`, and the
      division then renders as "NaN". */
  function DenyMessage(c: Consumed): (m: string)
    requires !c.Allowed?
    ensures StartsWith(m, RetryPrefix) && m[|m| - 1] == 's'
  {
    var secs := if c.Exceeded? then Decimal(RetrySeconds(c.msBeforeNext)) else "NaN";
    assert (RetryPrefix + secs + "s")[..|RetryPrefix|] == RetryPrefix;
    RetryPrefix + secs + "s"
  }

  /** The seconds in the message read back as a number of seconds that
      covers the whole wait, and at least one when there is a wait. */
  lemma DenyMessageReportsWait(ms: nat)
    ensures var m := DenyMessage(Exceeded(ms));
      var digits := m[|RetryPrefix| .. |m| - 1];
      && (forall i :: 0 <= i < |digits| ==> IsDigit(digits[i]))
      && DigitsValue(digits) * 1000 >= ms
      && (ms > 0 ==> DigitsValue(digits) >= 1)
  {
    var secs := RetrySeconds(ms);
    var m := DenyMessage(Exceeded(ms));
    assert m == RetryPrefix + Decimal(secs) + "s";
    assert m[|RetryPrefix| .. |m| - 1] == Decimal(secs);
    DecimalRoundTrip(secs);
  }

  // ---------------------------------------------------------------------
  // Request dispatch

  const IdentityMount := "/api/v1/auth"

  /** Express's prefix match for `app.use(path, ...)`: the path itself, or
      the path followed by a '/'. */
  predicate UnderMount(url: string, mount: string): (b: bool)
    ensures b <==> StartsWith(url, mount) && (|url| == |mount| || url[|mount|] == '/')
  {
    url == mount || StartsWith(url, mount + "/")
  }

  /** Where a request ends up: refused by the limiter, proxied to the
      identity service at the given path, or answered with 404. */
  datatype Route = Throttled(response: Response) | ToIdentity(upstreamPath: string) | NotFound(response: Response)

  /** The middleware chain for one request from `ip` for `url`. */
  function Handle(ip: string, url: string, consume: Limiter): (r: Route)
    ensures !consume(ip).Allowed? <==> r.Throttled?
    ensures r.Throttled? ==> r.response == Response(429, Failure(DenyMessage(consume(ip))))
    ensures r.ToIdentity? <==> consume(ip).Allowed? && UnderMount(url, IdentityMount)
    ensures r.ToIdentity? ==> r.upstreamPath == ProxyPath(url)
    ensures r.NotFound? ==> r.response == Response(404, Failure("Route not found"))
  {
    if !consume(ip).Allowed? then Throttled(Response(429, Failure(DenyMessage(consume(ip)))))
    else if UnderMount(url, IdentityMount) then ToIdentity(ProxyPath(url))
    else NotFound(Response(404, Failure("Route not found")))
  }

  /** Every URL the identity mount accepts starts with "/api", so the path
      resolver never changes it: the identity service receives the URL
      the client sent. */
  lemma IdentityPathForwardedUnchanged(ip: string, url: string, consume: Limiter)
    requires Handle(ip, url, consume).ToIdentity?
    ensures Handle(ip, url, consume).upstreamPath == url
  {
    assert StartsWith(url, IdentityMount) by {
      if url != IdentityMount {
        assert url[..|IdentityMount|] == (url[..|IdentityMount + "/"|])[..|IdentityMount|];
      }
    }
    assert url[..3] == IdentityMount[..3];
  }

  /** The limiter is consulted with the client's IP alone, so two requests
      from the same IP get the same limiter decision whatever their URL. */
  lemma LimitIsPerIp(ip: string, url1: string, url2: string, consume: Limiter)
    ensures Handle(ip, url1, consume).Throttled? <==> Handle(ip, url2, consume).Throttled?
    ensures Handle(ip, url1, consume).Throttled? ==> Handle(ip, url1, consume) == Handle(ip, url2, consume)
  {
  }
}
