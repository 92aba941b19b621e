# Bearer-token authentication middleware of the media service

This project models the authentication gate that protects the video
service's write endpoints. It is a Dafny model of
`internal/adapters/middleware/auth_middleware.go`, and it covers three parts:

- **The per-request handler.** `RequireRole(roles, next)` builds it. It reads
  the `Authorization` header and strips the `Bearer ` prefix. It then peeks at
  the token's unverified `jti` and `exp`, rejects an empty `jti` and rejects an
  expired token. Next it looks `jti` up in the in-process L1 validation cache.
  On a miss it verifies the RSA signature and stores the claims. It then asks
  the revocation store whether `blacklist:<jti>` exists. Finally it checks the
  `role` claim against the permitted roles. The result is 401, 403, or the
  request is passed on with `sub`, `role` and the token string in its context.
- **The L1 cache.** It maps `jti` to the claims and expiry stored with them.
- **The janitor tick.** Each tick deletes every entry whose `exp` lies before
  `now`.

Modules:

- `Jwt` (jwt.dfy): the claims map, the comma-ok reads
  `claims[name].(string)` and `claims[name].(float64)`, and the JWT library as
  an oracle. A token string is described by a `TokenReport`: what
  `ParseUnverified` decodes, whether the signing method is RSA, and what
  `Parse` reports.
- `Strings` (strings.dfy): `strings.TrimPrefix`.
- `AuthGate` (auth_gate.dfy): the decision as pure functions. `LookupClaims`
  models `getClaimsFromCacheOrParse` and `Decide` models the handler body. The
  module also holds the role checks, the sweep's specification and the
  lemmas about ordering, caching, revocation and admission.
- `Middleware` (auth_middleware.dfy): class `AuthMiddleware`.
  - Its `cache` field is the L1 cache.
  - Its constant `jwt` stands for the JWT library together with the configured
    public key.
  - `ClaimsFromCacheOrParse`, `Authorize` and `Sweep` are imperative methods
    proved equal to the pure functions.
  - Two ghost fields count signature verifications and record revocation
    queries. They make "verification is not invoked" a checkable statement.
  - `Valid()` holds when every cached entry comes from a token string that
    verified.

The collaborators are parameters:

- `jwt` is a function from token string to `TokenReport`.
- `redis` is a function from key to the store's reply to `Exists`. The reply
  is `Exists(n)`, or `StoreError` when the store cannot be reached.
- `now` is the clock's Unix time.

Behaviour of the code that a reader might not expect, modelled as written:

- A header without the `Bearer ` prefix is not rejected. It is used as the
  token string unchanged (`TrimPrefix`).
- A cache hit checks neither the presented token's signature nor the cached
  entry's expiry. Only the presented token's own unverified `exp` is compared
  with `now`. So any token that decodes, carries the `jti` of a cached entry
  and has `now <= exp` is decided from the cached claims: the revocation and
  role checks still apply, but to the cached `role` and `sub`
  (`CacheHitUsesCachedClaims`). This lasts until a janitor tick removes the
  entry (`SweepForcesVerification`).
- The sweep deletes entries with `now > exp`. An entry with `exp == now`
  survives.
- The parse path with no error and a token not marked valid returns empty
  claims and an empty `jti` without an error. The request then goes on: it
  queries `blacklist:` and is decided with role `""`.
- The role check runs twice, once through `isAuthorized` and once as the
  flag loop. Both are proved to mean `role in roles`, so the second never
  changes the outcome.

## Model

| member | source | states |
|---|---|---|
| `Jwt.StringClaim` | internal/adapters/middleware/auth_middleware.go:119-120 | a non-empty result is the string stored under the claim name; a missing or non-string claim reads as "" |
| `Jwt.NumericClaim` | internal/adapters/middleware/auth_middleware.go:121-122 | a numeric claim reads as its value; a missing or non-numeric `exp` reads as 0 |
| `Jwt.Verify` | internal/adapters/middleware/auth_middleware.go:139-147 | a token with a non-RSA signing method is refused whatever its signature; a token verifies iff its method is RSA and the library accepts the signature |
| `Strings.TrimPrefix` | internal/adapters/middleware/auth_middleware.go:61 | with the prefix present, prefix + result is the header; without it the header is returned unchanged |
| `Strings.TrimPrefixOfConcat` | internal/adapters/middleware/auth_middleware.go:61 | for every prefix and t, trimming the prefix from prefix + t gives back t; with `Bearer ` it says the handler recovers the token from a well-formed header |
| `AuthGate.LookupClaims` | internal/adapters/middleware/auth_middleware.go:111-154 | verification runs only for a decodable token with non-empty jti, `now <= exp` and jti not cached; the cache changes only by storing the verified token's claims and exp under its jti; returned claims are the cached ones (no verification), the verified token's, or empty after the no-error-invalid parse |
| `AuthGate.Decide` | internal/adapters/middleware/auth_middleware.go:50-109 | an empty header gives 401 with nothing else done; admission only with a role in `roles`, after a revocation query the store did not answer with a positive count, carrying the prefix-stripped token; 401-revoked iff the queried key is reported revoked; the cache changes only by the store of a token that verified |
| `AuthGate.IsAuthorized` | internal/adapters/middleware/auth_middleware.go:156-163 | true iff the role is one of the permitted roles |
| `AuthGate.RoleAllowed` | internal/adapters/middleware/auth_middleware.go:88-99 | the flag loop ends with the flag set iff the role is one of the permitted roles |
| `AuthGate.IsRevoked` | internal/adapters/middleware/auth_middleware.go:73 | a store error never revokes; an `Exists` reply revokes iff its count is positive |
| `AuthGate.RevocationKey` | internal/adapters/middleware/auth_middleware.go:72 | the key is `blacklist:` followed by the jti, and stripping `blacklist:` gives the jti back |
| `AuthGate.Purged` | internal/adapters/middleware/auth_middleware.go:172-176 | a tick only removes keys, and every surviving entry is unchanged and has `now <= exp` |
| `AuthGate.ExpiredKeys` | internal/adapters/middleware/auth_middleware.go:172-176 | the keys a tick deletes are keys of the cache |
| `AuthGate.PurgedKeepsLiveEntries` | internal/adapters/middleware/auth_middleware.go:170-178 | after a tick a key is present iff it was present with `now <= exp`, and its entry is unchanged |
| `AuthGate.PurgedCount` | internal/adapters/middleware/auth_middleware.go:170-180 | the keys a tick removes are exactly the expired ones, and the cache shrinks by their number |
| `AuthGate.StorePreservesCertified` | internal/adapters/middleware/auth_middleware.go:151 | storing the entry of a token that verified keeps every cache entry backed by a verified token |
| `AuthGate.DecidePreservesCertified` | internal/adapters/middleware/auth_middleware.go:138-153 | a request never puts unverified claims into the cache |
| `AuthGate.PurgedPreservesCertified` | internal/adapters/middleware/auth_middleware.go:172-175 | a tick keeps every remaining entry backed by a verified token |
| `AuthGate.AdmissionIsAuthenticated` | internal/adapters/middleware/auth_middleware.go:64-107 | an admitted request carries the sub and role of some token that verified (now or when its jti was cached), except after the no-error-invalid parse, which admits only with empty sub and role |
| `AuthGate.MalformedRejected` | internal/adapters/middleware/auth_middleware.go:113-117 | a token ParseUnverified cannot decode gets 401 with cache unchanged, no verification and no revocation query |
| `AuthGate.EmptyJtiRejected` | internal/adapters/middleware/auth_middleware.go:119-126 | a missing, non-string or empty jti gets 401 before any cache lookup, verification or revocation query, cache unchanged |
| `AuthGate.ExpiredRejected` | internal/adapters/middleware/auth_middleware.go:121-131 | the request is refused as expired iff `now > exp` (strict, absent exp is 0), and then before cache lookup, verification and revocation query |
| `AuthGate.CacheHitUsesCachedClaims` | internal/adapters/middleware/auth_middleware.go:133-136 | on a hit no verification happens, the cache is unchanged, `blacklist:<jti>` is queried, and the outcome is decided from the cached claims |
| `AuthGate.ColdPathVerifies` | internal/adapters/middleware/auth_middleware.go:138-153 | on a miss the token is verified; failure gives 401 with cache unchanged; success stores claims and exp under jti, changes no other key and goes on to the revocation query; the no-error-invalid parse leaves the cache unchanged and queries `blacklist:` |
| `AuthGate.RevocationFailsOpen` | internal/adapters/middleware/auth_middleware.go:71-77 | a store error does not refuse: the request ends admitted or forbidden |
| `AuthGate.RoleDecides` | internal/adapters/middleware/auth_middleware.go:79-99 | past the revocation check the request is admitted iff the role claim is permitted, with sub and role of the claims, and is 403 otherwise |
| `AuthGate.RepeatedRequestHitsCache` | internal/adapters/middleware/auth_middleware.go:133-153 | a second request with the same genuine token before its exp does not verify again, leaves the cache as the first left it, and gets the same outcome when the store replies alike |
| `AuthGate.RevokedAfterCaching` | internal/adapters/middleware/auth_middleware.go:71-77 | a token cached as valid is refused with 401 once the store reports its jti revoked, without verification |
| `AuthGate.SweepForcesVerification` | internal/adapters/middleware/auth_middleware.go:170-176 | after a tick past an entry's exp, the next request with that jti takes the cold path |
| `Middleware.AuthMiddleware.constructor` | internal/adapters/middleware/auth_middleware.go:30-40 | a new middleware has an empty cache |
| `Middleware.AuthMiddleware.ClaimsFromCacheOrParse` | internal/adapters/middleware/auth_middleware.go:111-154 | result, new cache and verification count are those of `LookupClaims`; only verified entries are ever cached |
| `Middleware.AuthMiddleware.Authorize` | internal/adapters/middleware/auth_middleware.go:50-109 | outcome, new cache, verification count and revocation queries are those of `Decide`; only verified entries are ever cached |
| `Middleware.AuthMiddleware.Sweep` | internal/adapters/middleware/auth_middleware.go:169-181 | the cache loses exactly its entries with `now > exp`; `deleted` is their number and the drop in cache size; only verified entries remain |
| `Middleware.RepeatedRequest` | internal/adapters/middleware/auth_middleware.go:133-136 | two requests with the same genuine token within its validity run the signature check at most once; both return the same outcome, the one `Decide` gives the first; the cache afterwards is the one the first request left |

## Left out

- Concurrency is not modelled. This covers the `sync.Map` semantics, the janitor goroutine, its ticker and the 10-minute `CacheCleanupInterval`. The cache and the sweep are modelled as sequential operations on one map, and a janitor tick is one call of `Sweep`.
- Logging and the latency measurement in the handler are left out (`log.Printf`, `time.Now`/`time.Since`). The clock is the parameter `now`.
- The HTTP plumbing is left out: `http.Error`, `context.WithValue`, `r.WithContext` and the call of `next`. `Admit(sub, role, token)` stands for calling `next` with those three context values. `Unauthorized` and `Forbidden` stand for the 401 and 403 responses.
- JWT decoding and RSA signature checking are foreign library calls. They are the oracle `jwt`, which gives what the library reports for each token string. The library's own checks inside `Parse` are folded into its reported result.
- The JWT library's verdict (`jwt`) is a function of the token string alone. `jwt.Parse` also checks the time claims `exp` and `nbf` against the current clock when they are present (`iat` only with an option the source does not pass); the model does not make that verdict depend on `now`, so a token whose `Parse` result changes over time (refused before `nbf`, refused after `exp` on the cold path) is not represented. The middleware's own `now > exp` check is modelled.
- `exp` is read as a JSON float and converted to `int64` in the source. Here it is an unbounded integer. Fractional parts, truncation and 64-bit overflow are not modelled.
- The Redis call itself is not modelled: the network, the request context and cancellation. Only its reply (`Exists(n)` or `StoreError`) is an input, as the function `redis` of the key.
- The repository's other files are not part of this model. They hold the health probes (I/O), the media HTTP handlers and the MongoDB repository (CRUD), the video service (pass-throughs), the repository interface, the video domain constants, configuration loading (environment and PEM files) and the program's wiring.
