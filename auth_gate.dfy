/** The decision the authentication middleware takes for one request, as
    pure functions of the cache, the request and the replies of its
    collaborators, together with the handler's role-flag loop as the method
    `RoleAllowed`; the class in module Middleware is proved to behave as
    these functions say. */
module AuthGate {
  import opened Jwt
  import opened Strings

  const BEARER_PREFIX := "Bearer "
  const REVOCATION_PREFIX := "blacklist:"

  /** An L1 cache entry: the claims and the expiry they were stored with. */
  datatype CacheEntry = CacheEntry(claims: Claims, exp: int)

  /** The L1 validation cache, keyed by `jti`. */
  type Cache = map<string, CacheEntry>

  /** Why a request was refused with 401. */
  datatype Reason =
    | MissingHeader   // empty Authorization header
    | Malformed       // ParseUnverified failed
    | MissingJti      // no string jti, or an empty one
    | Expired         // the presented token's exp lies before now
    | ParseFailed     // cold path: Parse returned an error (signature, method, payload or time claims)
    | Revoked         // blacklist:<jti> exists in the revocation store

  /** 401, 403, or the request is passed on with this identity. */
  datatype Outcome =
    | Unauthorized(reason: Reason)
    | Forbidden
    | Admit(sub: string, role: string, token: string)

  /** Reply of the revocation store to `Exists(key)`. */
  datatype RedisReply = Exists(count: int) | StoreError

  /** `err == nil && isRevoked > 0`: an unreachable store does not revoke. */
  predicate IsRevoked(reply: RedisReply)
    ensures reply.StoreError? ==> !IsRevoked(reply)
    ensures reply.Exists? ==> (IsRevoked(reply) <==> reply.count > 0)
  {
    reply.Exists? && reply.count > 0
  }

  /** The revocation store's key for a jti: `blacklist:` followed by it. */
  function RevocationKey(jti: string): (key: string)
    ensures REVOCATION_PREFIX <= key && TrimPrefix(key, REVOCATION_PREFIX) == jti
  {
    REVOCATION_PREFIX + jti
  }

  /** What getClaimsFromCacheOrParse returns: claims and jti, or an error. */
  datatype Lookup = Found(claims: Claims, jti: string) | Failed(reason: Reason)

  /** The result of the lookup, the cache after it, and whether the
      signature was verified (the expensive call). */
  datatype LookupStep = LookupStep(result: Lookup, cache: Cache, verified: bool)

  /** getClaimsFromCacheOrParse for a token the library describes as `t`. */
  function LookupClaims(cache: Cache, t: TokenReport, now: int): (r: LookupStep)
    // verification runs only on the cold path, after the cheap checks
    ensures r.verified ==>
      t.unverified.Some? && Jti(t.unverified.value) != "" &&
      now <= Exp(t.unverified.value) && Jti(t.unverified.value) !in cache
    // the cache gains at most the verified entry, and only on success
    ensures r.cache == cache ||
      (r.verified && Verify(t) == ValidToken &&
       r.cache == cache[Jti(t.unverified.value) := CacheEntry(t.unverified.value, Exp(t.unverified.value))])
    // claims come from the cache, from a verified token, or are empty
    ensures r.result.Found? ==>
      (r.result.jti in cache && r.result.claims == cache[r.result.jti].claims && !r.verified) ||
      (r.verified && Verify(t) == ValidToken && r.result == Found(t.unverified.value, Jti(t.unverified.value))) ||
      (r.verified && Verify(t) == InvalidNoError && r.result == Found(map[], ""))
  {
    match t.unverified
    case None => LookupStep(Failed(Malformed), cache, false)
    case Some(claims) =>
      var jti := Jti(claims);
      var exp := Exp(claims);
      if jti == "" then LookupStep(Failed(MissingJti), cache, false)
      else if now > exp then LookupStep(Failed(Expired), cache, false)
      else if jti in cache then LookupStep(Found(cache[jti].claims, jti), cache, false)
      else
        match Verify(t)
        case ParseError => LookupStep(Failed(ParseFailed), cache, true)
        case InvalidNoError => LookupStep(Found(map[], ""), cache, true)
        case ValidToken => LookupStep(Found(claims, jti), cache[jti := CacheEntry(claims, exp)], true)
  }

  /** The outcome of one request, the cache after it, whether the signature
      was verified and which revocation key was queried (None when the
      request was refused before the query). */
  datatype GateStep = GateStep(outcome: Outcome, cache: Cache, verified: bool, revocationKey: Option<string>)

  /** The handler RequireRole returns, for one request.  `lib` is the JWT
      library with the configured public key; `redis` is the revocation
      store's reply to `Exists` for each key. */
  function Decide(cache: Cache, header: string, roles: seq<string>, now: int,
                  lib: string -> TokenReport, redis: string -> RedisReply): (r: GateStep)
    ensures header == "" ==> r == GateStep(Unauthorized(MissingHeader), cache, false, None)
    // a request is admitted only with a permitted role, after a revocation
    // query that did not report the token revoked, carrying the stripped token
    ensures r.outcome.Admit? ==>
      r.outcome.role in roles && r.revocationKey.Some? && !IsRevoked(redis(r.revocationKey.value)) &&
      r.outcome.token == TrimPrefix(header, BEARER_PREFIX)
    // a refusal for revocation is decided by the store's reply
    ensures r.outcome == Unauthorized(Revoked) <==> r.revocationKey.Some? && IsRevoked(redis(r.revocationKey.value))
    // the cache only ever gains the entry of a token that verified
    ensures r.cache == cache ||
      (var t := lib(TrimPrefix(header, BEARER_PREFIX));
       r.verified && Verify(t) == ValidToken && t.unverified.Some? &&
       r.cache == cache[Jti(t.unverified.value) := CacheEntry(t.unverified.value, Exp(t.unverified.value))])
  {
    if header == "" then GateStep(Unauthorized(MissingHeader), cache, false, None)
    else
      var token := TrimPrefix(header, BEARER_PREFIX);
      var l := LookupClaims(cache, lib(token), now);
      match l.result
      case Failed(reason) => GateStep(Unauthorized(reason), l.cache, l.verified, None)
      case Found(claims, jti) =>
        var key := RevocationKey(jti);
        if IsRevoked(redis(key)) then GateStep(Unauthorized(Revoked), l.cache, l.verified, Some(key))
        else if Role(claims) !in roles then GateStep(Forbidden, l.cache, l.verified, Some(key))
        else GateStep(Admit(Sub(claims), Role(claims), token), l.cache, l.verified, Some(key))
  }

  /** isAuthorized: whether `role` is one of `allowed`. */
  function IsAuthorized(role: string, allowed: seq<string>): (r: bool)
    ensures r <==> role in allowed
  {
    if allowed == [] then false
    else allowed[0] == role || IsAuthorized(role, allowed[1..])
  }

  /** The second role check in RequireRole: a flag set by a scan of the
      permitted roles that stops at the first match. */
  method RoleAllowed(role: string, allowed: seq<string>) returns (found: bool)
    ensures found <==> role in allowed
  {
    found := false;
    var i := 0;
    while i < |allowed|
      invariant 0 <= i <= |allowed|
      invariant !found
      invariant role !in allowed[..i]
    {
      if allowed[i] == role {
        found := true;
        break;
      }
      i := i + 1;
    }
  }

  // ---------------------------------------------------------------------
  // The janitor sweep

  /** The keys one janitor tick deletes: entries with `now > exp`. */
  function ExpiredKeys(cache: Cache, now: int): (ks: set<string>)
    ensures ks <= cache.Keys
  {
    set k | k in cache && now > cache[k].exp
  }

  /** The cache after one janitor tick. */
  function Purged(cache: Cache, now: int): (live: Cache)
    ensures live.Keys <= cache.Keys
    ensures forall k | k in live :: live[k] == cache[k] && now <= cache[k].exp
  {
    cache - ExpiredKeys(cache, now)
  }

  /** A tick keeps exactly the entries with `exp >= now`, unchanged. */
  lemma PurgedKeepsLiveEntries(cache: Cache, now: int)
    ensures forall k :: k in Purged(cache, now) <==> k in cache && now <= cache[k].exp
    ensures forall k | k in Purged(cache, now) :: Purged(cache, now)[k] == cache[k]
  {
  }

  /** The entries a tick deletes are the ones it no longer holds, and their
      number is the drop in the size of the cache. */
  lemma PurgedCount(cache: Cache, now: int)
    ensures cache.Keys - Purged(cache, now).Keys == ExpiredKeys(cache, now)
    ensures |Purged(cache, now)| == |cache| - |ExpiredKeys(cache, now)|
  {
  }

  // ---------------------------------------------------------------------
  // What the cache holds

  /** `e`, stored under `jti`, holds the claims of token string `s`, which
      the library verifies. */
  ghost predicate Certified(lib: string -> TokenReport, jti: string, e: CacheEntry, s: string) {
    var t := lib(s);
    Verify(t) == ValidToken && t.unverified == Some(e.claims) &&
    jti != "" && Jti(e.claims) == jti && Exp(e.claims) == e.exp
  }

  /** The entry under `k` comes from a token that verified. */
  ghost predicate EntryCertified(lib: string -> TokenReport, cache: Cache, k: string) {
    k in cache && exists s :: Certified(lib, k, cache[k], s)
  }

  /** Every entry of the cache comes from a token that verified. */
  ghost predicate CacheCertified(lib: string -> TokenReport, cache: Cache) {
    forall k {:trigger EntryCertified(lib, cache, k)} :: k in cache ==> EntryCertified(lib, cache, k)
  }

  /** Some token string that verifies carries this subject and role. */
  ghost predicate IssuedFor(lib: string -> TokenReport, sub: string, role: string) {
    exists s :: Verify(lib(s)) == ValidToken && lib(s).unverified.Some? &&
      Sub(lib(s).unverified.value) == sub && Role(lib(s).unverified.value) == role
  }

  /** A request keeps the cache certified: it stores only what verified. */
  lemma DecidePreservesCertified(cache: Cache, header: string, roles: seq<string>, now: int,
                                 lib: string -> TokenReport, redis: string -> RedisReply)
    requires CacheCertified(lib, cache)
    ensures CacheCertified(lib, Decide(cache, header, roles, now, lib, redis).cache)
  {
    var r := Decide(cache, header, roles, now, lib, redis);
    if r.cache != cache {
      var token := TrimPrefix(header, BEARER_PREFIX);
      var t := lib(token);
      var c := t.unverified.value;
      assert r.cache == cache[Jti(c) := CacheEntry(c, Exp(c))];
      assert Jti(c) != "" by {
        assert r.verified;
        assert LookupClaims(cache, t, now).verified;
      }
      StorePreservesCertified(lib, cache, Jti(c), CacheEntry(c, Exp(c)), token);
    }
  }

  /** Storing the entry of a token that verified keeps the cache certified. */
  lemma StorePreservesCertified(lib: string -> TokenReport, cache: Cache, jti: string, e: CacheEntry, s: string)
    requires CacheCertified(lib, cache) && Certified(lib, jti, e, s)
    ensures CacheCertified(lib, cache[jti := e])
  {
    var updated := cache[jti := e];
    forall k | k in updated
      ensures EntryCertified(lib, updated, k)
    {
      if k == jti {
        assert Certified(lib, k, updated[k], s);
      } else {
        assert EntryCertified(lib, cache, k);
        var w :| Certified(lib, k, cache[k], w);
        assert Certified(lib, k, updated[k], w);
      }
    }
  }

  /** A janitor tick keeps the cache certified: it only deletes. */
  lemma PurgedPreservesCertified(lib: string -> TokenReport, cache: Cache, now: int)
    requires CacheCertified(lib, cache)
    ensures CacheCertified(lib, Purged(cache, now))
  {
    var p := Purged(cache, now);
    forall k | k in p
      ensures EntryCertified(lib, p, k)
    {
      assert EntryCertified(lib, cache, k);
      var w :| Certified(lib, k, cache[k], w);
      assert Certified(lib, k, p[k], w);
    }
  }

  /** Whoever is admitted carries the subject and role of a token that
      verified, now or when its jti was cached; the only exception is the
      library reporting no error for an invalid token, which leaves empty
      claims. */
  lemma AdmissionIsAuthenticated(cache: Cache, header: string, roles: seq<string>, now: int,
                                 lib: string -> TokenReport, redis: string -> RedisReply)
    requires CacheCertified(lib, cache)
    ensures var r := Decide(cache, header, roles, now, lib, redis);
      r.outcome.Admit? ==>
        IssuedFor(lib, r.outcome.sub, r.outcome.role) ||
        (Verify(lib(TrimPrefix(header, BEARER_PREFIX))) == InvalidNoError &&
         r.outcome.sub == "" && r.outcome.role == "")
  {
    var r := Decide(cache, header, roles, now, lib, redis);
    if r.outcome.Admit? {
      var token := TrimPrefix(header, BEARER_PREFIX);
      var t := lib(token);
      var l := LookupClaims(cache, t, now);
      assert l.result.Found?;
      var claims := l.result.claims;
      assert r.outcome.sub == Sub(claims) && r.outcome.role == Role(claims);
      if l.result.jti in cache && claims == cache[l.result.jti].claims && !l.verified {
        assert EntryCertified(lib, cache, l.result.jti);
        var s :| Certified(lib, l.result.jti, cache[l.result.jti], s);
        assert lib(s).unverified == Some(claims);
      } else if Verify(t) == ValidToken {
        assert t.unverified == Some(claims);
        assert Verify(lib(token)) == ValidToken && lib(token).unverified.Some?;
      }
    }
  }

  // ---------------------------------------------------------------------
  // The checks in their order

  /** A token ParseUnverified cannot decode is refused with nothing else
      done. */
  lemma MalformedRejected(cache: Cache, header: string, roles: seq<string>, now: int,
                          lib: string -> TokenReport, redis: string -> RedisReply)
    requires header != "" && lib(TrimPrefix(header, BEARER_PREFIX)).unverified.None?
    ensures Decide(cache, header, roles, now, lib, redis) == GateStep(Unauthorized(Malformed), cache, false, None)
  {
  }

  /** A token without a string jti, or with an empty one, is refused before
      the cache, the verifier and the revocation store are consulted. */
  lemma EmptyJtiRejected(cache: Cache, header: string, roles: seq<string>, now: int,
                         lib: string -> TokenReport, redis: string -> RedisReply)
    requires header != ""
    requires var t := lib(TrimPrefix(header, BEARER_PREFIX)); t.unverified.Some? && Jti(t.unverified.value) == ""
    ensures Decide(cache, header, roles, now, lib, redis) == GateStep(Unauthorized(MissingJti), cache, false, None)
  {
  }

  /** A token whose own exp is before now is refused before the cache and
      the verifier are consulted; `now == exp` is still accepted here. */
  lemma ExpiredRejected(cache: Cache, header: string, roles: seq<string>, now: int,
                        lib: string -> TokenReport, redis: string -> RedisReply)
    requires header != ""
    requires var t := lib(TrimPrefix(header, BEARER_PREFIX));
      t.unverified.Some? && Jti(t.unverified.value) != ""
    ensures var c := lib(TrimPrefix(header, BEARER_PREFIX)).unverified.value;
      var r := Decide(cache, header, roles, now, lib, redis);
      (now > Exp(c) <==> r.outcome == Unauthorized(Expired)) &&
      (now > Exp(c) ==> r.cache == cache && !r.verified && r.revocationKey.None?)
  {
  }

  /** On a cache hit the cached claims are used as they are: neither the
      presented token's signature nor the cached entry's expiry is checked,
      and the cache does not change. */
  lemma CacheHitUsesCachedClaims(cache: Cache, header: string, roles: seq<string>, now: int,
                                 lib: string -> TokenReport, redis: string -> RedisReply)
    requires header != ""
    requires var t := lib(TrimPrefix(header, BEARER_PREFIX));
      t.unverified.Some? && Jti(t.unverified.value) != "" && now <= Exp(t.unverified.value) &&
      Jti(t.unverified.value) in cache
    ensures var jti := Jti(lib(TrimPrefix(header, BEARER_PREFIX)).unverified.value);
      var cached := cache[jti].claims;
      var r := Decide(cache, header, roles, now, lib, redis);
      r.cache == cache && !r.verified && r.revocationKey == Some(RevocationKey(jti)) &&
      r.outcome ==
        if IsRevoked(redis(RevocationKey(jti))) then Unauthorized(Revoked)
        else if Role(cached) !in roles then Forbidden
        else Admit(Sub(cached), Role(cached), TrimPrefix(header, BEARER_PREFIX))
  {
  }

  /** Cold path: the token is verified; on success its claims are stored
      under its jti and nothing else in the cache changes; on failure it is
      refused and the cache does not change. */
  lemma ColdPathVerifies(cache: Cache, header: string, roles: seq<string>, now: int,
                         lib: string -> TokenReport, redis: string -> RedisReply)
    requires header != ""
    requires var t := lib(TrimPrefix(header, BEARER_PREFIX));
      t.unverified.Some? && Jti(t.unverified.value) != "" && now <= Exp(t.unverified.value) &&
      Jti(t.unverified.value) !in cache
    ensures var t := lib(TrimPrefix(header, BEARER_PREFIX));
      var c := t.unverified.value;
      var r := Decide(cache, header, roles, now, lib, redis);
      r.verified &&
      (Verify(t) == ParseError ==> r == GateStep(Unauthorized(ParseFailed), cache, true, None)) &&
      (Verify(t) == ValidToken ==>
         r.cache == cache[Jti(c) := CacheEntry(c, Exp(c))] && r.revocationKey == Some(RevocationKey(Jti(c)))) &&
      (Verify(t) == InvalidNoError ==> r.cache == cache && r.revocationKey == Some(RevocationKey("")))
  {
  }

  /** Once claims are obtained, the store's reply decides revocation: a
      positive count refuses with 401, a failed query lets the request on. */
  lemma RevocationFailsOpen(cache: Cache, header: string, roles: seq<string>, now: int,
                            lib: string -> TokenReport, redis: string -> RedisReply)
    requires var r := Decide(cache, header, roles, now, lib, redis);
      r.revocationKey.Some? && redis(r.revocationKey.value) == StoreError
    ensures Decide(cache, header, roles, now, lib, redis).outcome.Admit? ||
            Decide(cache, header, roles, now, lib, redis).outcome == Forbidden
  {
  }

  /** Past the revocation check the role alone decides: admitted if it is
      permitted, 403 otherwise. */
  lemma RoleDecides(cache: Cache, header: string, roles: seq<string>, now: int,
                    lib: string -> TokenReport, redis: string -> RedisReply)
    requires var r := Decide(cache, header, roles, now, lib, redis);
      r.revocationKey.Some? && !IsRevoked(redis(r.revocationKey.value))
    ensures var r := Decide(cache, header, roles, now, lib, redis);
      var claims := LookupClaims(cache, lib(TrimPrefix(header, BEARER_PREFIX)), now).result.claims;
      (r.outcome.Admit? <==> Role(claims) in roles) &&
      (!r.outcome.Admit? ==> r.outcome == Forbidden) &&
      (r.outcome.Admit? ==> r.outcome.sub == Sub(claims) && r.outcome.role == Role(claims))
  {
  }

  // ---------------------------------------------------------------------
  // Several requests

  /** A second request with the same genuine token, still before its exp,
      is a cache hit: it does not verify again, changes nothing in the
      cache, and is decided as the first was if the store replies alike. */
  lemma RepeatedRequestHitsCache(cache: Cache, header: string, roles: seq<string>,
                                 now1: int, now2: int, lib: string -> TokenReport,
                                 redis1: string -> RedisReply, redis2: string -> RedisReply)
    requires header != ""
    requires var t := lib(TrimPrefix(header, BEARER_PREFIX));
      Verify(t) == ValidToken && t.unverified.Some? && Jti(t.unverified.value) != "" &&
      now1 <= Exp(t.unverified.value) && now2 <= Exp(t.unverified.value)
    ensures var s1 := Decide(cache, header, roles, now1, lib, redis1);
      var s2 := Decide(s1.cache, header, roles, now2, lib, redis2);
      !s2.verified && s2.cache == s1.cache && s2.revocationKey == s1.revocationKey &&
      (redis2(s1.revocationKey.value) == redis1(s1.revocationKey.value) ==> s2.outcome == s1.outcome)
  {
  }

  /** A token cached as valid is refused as soon as the store reports it
      revoked, although it is still a cache hit. */
  lemma RevokedAfterCaching(cache: Cache, header: string, roles: seq<string>,
                            now1: int, now2: int, lib: string -> TokenReport,
                            redis1: string -> RedisReply, redis2: string -> RedisReply)
    requires header != ""
    requires var t := lib(TrimPrefix(header, BEARER_PREFIX));
      Verify(t) == ValidToken && t.unverified.Some? && Jti(t.unverified.value) != "" &&
      now1 <= Exp(t.unverified.value) && now2 <= Exp(t.unverified.value) &&
      IsRevoked(redis2(RevocationKey(Jti(t.unverified.value))))
    ensures var s1 := Decide(cache, header, roles, now1, lib, redis1);
      var s2 := Decide(s1.cache, header, roles, now2, lib, redis2);
      s2.outcome == Unauthorized(Revoked) && !s2.verified
  {
  }

  /** After a tick at `now`, a cached entry whose exp was before `now` is
      gone: the next request carrying its jti verifies again. */
  lemma SweepForcesVerification(cache: Cache, sweepAt: int, header: string, roles: seq<string>,
                                now: int, lib: string -> TokenReport, redis: string -> RedisReply)
    requires header != ""
    requires var t := lib(TrimPrefix(header, BEARER_PREFIX));
      t.unverified.Some? && Jti(t.unverified.value) != "" && now <= Exp(t.unverified.value) &&
      Jti(t.unverified.value) in cache && sweepAt > cache[Jti(t.unverified.value)].exp
    ensures Decide(Purged(cache, sweepAt), header, roles, now, lib, redis).verified
  {
  }
}
