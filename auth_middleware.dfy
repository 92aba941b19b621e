/** The middleware object: the L1 validation cache it updates in place, the
    per-request handler built by RequireRole, and the janitor's sweep. */
module Middleware {
  import opened Jwt
  import opened Strings
  import opened AuthGate

  class AuthMiddleware {
    /** The JWT library together with the configured RSA public key: what it
        reports for each token string. */
    const jwt: string -> TokenReport

    /** The L1 cache, keyed by jti. */
    var cache: Cache

    /** How many times the signature verifier has run, and the revocation
        keys queried, in order. */
    ghost var verifications: nat
    ghost var revocationQueries: seq<string>

    /** Only entries of tokens that verified are ever cached. */
    ghost predicate Valid()
      reads this
    {
      CacheCertified(jwt, cache)
    }

    constructor (jwt: string -> TokenReport)
      ensures Valid() && this.jwt == jwt
      ensures cache == map[] && verifications == 0 && revocationQueries == []
    {
      this.jwt := jwt;
      cache := map[];
      verifications := 0;
      revocationQueries := [];
    }

    /** getClaimsFromCacheOrParse: the cheap checks on the unverified claims,
        then the cache, then (cold path) verification and a store. */
    method ClaimsFromCacheOrParse(tokenString: string, now: int) returns (claims: Claims, jti: string, err: Option<Reason>)
      requires Valid()
      modifies this
      ensures Valid()
      ensures var s := LookupClaims(old(cache), jwt(tokenString), now);
        s.result == (if err.Some? then Failed(err.value) else Found(claims, jti)) &&
        cache == s.cache &&
        verifications == old(verifications) + (if s.verified then 1 else 0)
      ensures revocationQueries == old(revocationQueries)
    {
      var report := jwt(tokenString);
      if report.unverified.None? {
        return map[], "", Some(Malformed);
      }
      claims := report.unverified.value;
      jti := Jti(claims);
      var exp := Exp(claims);

      if jti == "" {
        return map[], "", Some(MissingJti);
      }
      if now > exp {
        return map[], "", Some(Expired);
      }

      if jti in cache {
        return cache[jti].claims, jti, None;
      }

      var verdict := Verify(report);
      verifications := verifications + 1;
      if verdict == ParseError {
        return map[], "", Some(ParseFailed);
      }
      if verdict == InvalidNoError {
        return map[], "", None;
      }

      assert Certified(jwt, jti, CacheEntry(claims, exp), tokenString);
      StorePreservesCertified(jwt, cache, jti, CacheEntry(claims, exp), tokenString);
      cache := cache[jti := CacheEntry(claims, exp)];
      err := None;
    }

    /** The handler RequireRole(roles, next) returns, run for one request;
        `redis` is the revocation store's reply to `Exists` for each key.
        Admit means `next` is called with sub, role and token in the
        request's context. */
    method Authorize(header: string, roles: seq<string>, now: int, redis: string -> RedisReply) returns (outcome: Outcome)
      requires Valid()
      modifies this
      ensures Valid()
      ensures var s := Decide(old(cache), header, roles, now, jwt, redis);
        outcome == s.outcome && cache == s.cache &&
        verifications == old(verifications) + (if s.verified then 1 else 0) &&
        revocationQueries == old(revocationQueries) + (if s.revocationKey.Some? then [s.revocationKey.value] else [])
    {
      if header == "" {
        return Unauthorized(MissingHeader);
      }

      var tokenString := TrimPrefix(header, BEARER_PREFIX);

      var claims, jti, err := ClaimsFromCacheOrParse(tokenString, now);
      if err.Some? {
        return Unauthorized(err.value);
      }

      var key := RevocationKey(jti);
      var reply := redis(key);
      revocationQueries := revocationQueries + [key];
      if IsRevoked(reply) {
        return Unauthorized(Revoked);
      }

      var userRole := Role(claims);
      if !IsAuthorized(userRole, roles) {
        return Forbidden;
      }
      var userId := Sub(claims);

      var allowed := RoleAllowed(userRole, roles);
      if !allowed {
        return Forbidden;
      }

      outcome := Admit(userId, userRole, tokenString);
    }

    /** One janitor tick: delete every entry with `now > exp` and count the
        deletions. */
    method Sweep(now: int) returns (deleted: nat)
      requires Valid()
      modifies this
      ensures Valid()
      ensures cache == Purged(old(cache), now)
      ensures deleted == |ExpiredKeys(old(cache), now)|
      ensures deleted == |old(cache)| - |cache|
      ensures verifications == old(verifications) && revocationQueries == old(revocationQueries)
    {
      deleted := 0;
      ghost var start := cache;
      var pending := cache.Keys;
      ghost var removed: set<string> := {};
      while pending != {}
        invariant SweptSoFar(start, now, pending, removed, cache)
        invariant deleted == |removed|
        invariant verifications == old(verifications) && revocationQueries == old(revocationQueries)
        decreases pending
      {
        var key :| key in pending;
        SweepStep(start, now, pending, removed, cache, key);
        if now > cache[key].exp {
          cache := cache - {key};
          deleted := deleted + 1;
          removed := removed + {key};
        }
        pending := pending - {key};
      }
      SweepDone(jwt, start, now, removed);
    }
  }

  /** The sweep's loop invariant: `removed` holds exactly the expired keys
      already visited, and `live` is the original cache without them. */
  ghost predicate SweptSoFar(start: Cache, now: int, pending: set<string>, removed: set<string>, live: Cache) {
    && pending <= start.Keys
    && (forall k :: k in removed <==> k in start && k !in pending && now > start[k].exp)
    && live == start - removed
  }

  /** One iteration of the sweep keeps its loop invariant. */
  lemma SweepStep(start: Cache, now: int, pending: set<string>, removed: set<string>, live: Cache, key: string)
    requires SweptSoFar(start, now, pending, removed, live) && key in pending
    ensures key in live && key !in removed && live[key] == start[key]
    ensures now > live[key].exp ==> SweptSoFar(start, now, pending - {key}, removed + {key}, live - {key})
    ensures !(now > live[key].exp) ==> SweptSoFar(start, now, pending - {key}, removed, live)
  {
  }

  /** When every key has been visited, the sweep has deleted exactly the
      expired entries. */
  lemma SweepDone(lib: string -> TokenReport, start: Cache, now: int, removed: set<string>)
    requires CacheCertified(lib, start)
    requires SweptSoFar(start, now, {}, removed, start - removed)
    ensures removed == ExpiredKeys(start, now)
    ensures start - removed == Purged(start, now)
    ensures |start - removed| == |start| - |removed|
    ensures CacheCertified(lib, start - removed)
  {
    assert removed == ExpiredKeys(start, now);
    PurgedCount(start, now);
    PurgedPreservesCertified(lib, start, now);
  }

  /** Two requests with the same genuine token: the signature is verified at
      most once, both requests get the same outcome, and the cache is the one
      the first request left. */
  method RepeatedRequest(m: AuthMiddleware, header: string, roles: seq<string>, now1: int, now2: int,
                         redis: string -> RedisReply) returns (first: Outcome, second: Outcome)
    requires m.Valid() && header != ""
    requires var t := m.jwt(TrimPrefix(header, BEARER_PREFIX));
      Verify(t) == ValidToken && t.unverified.Some? && Jti(t.unverified.value) != "" &&
      now1 <= Exp(t.unverified.value) && now2 <= Exp(t.unverified.value)
    modifies m
    ensures m.Valid()
    ensures first == second
    ensures first == Decide(old(m.cache), header, roles, now1, m.jwt, redis).outcome
    ensures m.cache == Decide(old(m.cache), header, roles, now1, m.jwt, redis).cache
    ensures m.verifications <= old(m.verifications) + 1
  {
    first := m.Authorize(header, roles, now1, redis);
    second := m.Authorize(header, roles, now2, redis);
    RepeatedRequestHitsCache(old(m.cache), header, roles, now1, now2, m.jwt, redis, redis);
  }
}
