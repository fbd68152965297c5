# Verification of the authorization service

This project models the decision logic of the Envoy external-authorization service and proves
properties of it in Dafny; `dafny verify dfyconfig.toml` checks the whole project.

## What is modelled

- **The path-pattern compiler** (`Regex`, `Pattern`, `PatternFusion`, `Glob`, `Anchoring`,
  `AnchoringExact`, `PatternCorrect`). `Pattern` holds the compiler as the source writes it: quoting, three textual
  rewrites, anchoring. `Regex` reads regex text (literals, escapes, `.`, `[^/]`, groups, `* + ?`,
  alternation, anchors) and says which spans it matches. The meaning promised for patterns is a
  matcher over tokens, `Pattern.Accepts`. The main theorem goes through the concrete text: what the
  compiler emits, read back and searched with, accepts the paths the glob accepts, if and only if
  the pattern does not end in `$`.
- **The circuit breaker** (`Breaker`, `BreakerRuns`, `BreakerOvershoot`, `BreakerWait`, `Recovery`). One function per
  locked section gives the breaker's state; the class updates its fields in place and each method is
  proved to compute that function. `BreakerRuns` interleaves the four locked sections of `Execute` for
  any number of callers with the administrative calls. `Recovery` puts the `IsOpen` guard of
  `Authorize` in front of it.
- **The decision caches** (`MemoryCache`, `RedisCache`). The bounded map with its eviction loop under any
  iteration order, against an unbounded map with expiry times; and the cache in Redis, whose commands may
  fail and which may drop entries.
- **The decision service** (`Service`, `ServiceTable`, `ServiceRuns`). One call is a function of the state and of what
  the outside world answers during the call (mapping, token, PDP, clock readings, failing or dropping
  cache); the class steps through it over either cache and a `Breaker`. `ServiceTable` says what the function
  comes to for every input: who the caller is, when it is allowed and what the PDP is asked. The other theorems are
  about every run.
- **The service under concurrent requests** (`ServiceSteps`, `ServiceAlone`). A call is broken into the
  steps between which others may run: reading the cache, asking `IsOpen`, each locked section of `Execute`,
  the PDP's answer, storing. Any number of calls interleave. Provenance of decisions is proved for every
  interleaving; the breaker inside goes through a run of `BreakerRuns`; and a call whose steps are not
  interrupted computes the serial decision function.
- **The mapping client** (`Mapping`, `MappingMeaning`, `MappingSteps`). The ordered scan with `continue` and early return, the
  five-minute lookup cache in front of it, and tables that change between calls. `MappingSteps` interleaves
  any number of callers with rewrites of the tables between any two reads of a scan. `MappingMeaning` says which
  paths entries of every kind match and what a call reports.
- **Service and mapping client together** (`EndToEnd`). What an unidentified caller needs to be let through.
- **The JWKS key cache** (`Jwks`, `JwksSteps`). Fetching, filtering and replacing keys, the fresh, stale and
  grace tiers, and the decoding of the exponent with 64-bit wrap-around. `JwksSteps` interleaves concurrent
  refreshes.

Clock readings, the mapping tables, token parsing, the PDP, the JWKS endpoint and failures of Redis
commands are parameters. Times are integers in nanoseconds.

## What was found

- A path_pattern ending in a literal `$` is not anchored at its end: the `$` of the escape `\$` passes
  for the anchor. Without wildcards such a pattern accepts every path it is a prefix of
  (`PatternCorrect.PlainDollarMatchesPrefixes`). The code is modelled as it is and the theorem carries
  the exact condition.
- The comment at internal/mapping/pattern.go:15-22 promises that a match_regex is fully anchored. The
  anchoring step anchors the start of the first branch of a top-level alternation and the end of the last
  one (`Anchoring.AnchoredMeaning`): `a|b` becomes `^a|b$` and accepts `ax`
  (`AnchoringExact.AlternationIsNotAnchored`), while `^a$|^b$`, anchored branch by branch, is matched
  whole. `AnchoringExact.WholeMatchIffFullyAnchored` gives the exact condition: every inner end of the
  alternation carries its own anchor, and the text does not close with an escaped `$`. The condition is
  sufficient for every text (`Anchoring.AnchoredIsWholeMatch`). It is necessary for texts that hold anchors
  only at the ends of their branches and none of whose repetitions can match every character, such as
  `/files/.*|/users/[^/]+`; a branch like `(.|[^/])*` matches every path and needs no anchor.
- README.md:402 describes a half-open test before normal operation resumes. `Authorize` asks `IsOpen`
  before it calls `Execute`, so in serial use an open breaker stays open for ever
  (`ServiceRuns.OpenIsForever`); under concurrency it can recover exactly when a request is held up
  between the guard and the probe (`Recovery.RecoversIffStraggler`).
- A caller without a principal is called `anonymous` in the key text, and the service name in it is the
  client's. So when a principal's id starts with `anonymous:`, a decision that allowed it can answer a caller
  without a principal on an action that is not public (`ServiceRuns.LookalikeIsShared`). Without such ids only
  public actions are ever allowed to such callers, whatever services, paths and methods hold
  (`ServiceRuns.AnonymousOnlyPublic`); the condition on ids is exact
  (`ServiceRuns.AnonymousServedIffLookalike`).
- The half-open transition does not check the recovery time again: a caller admitted before the breaker opened
  can begin a half-open period at the moment it opens (`BreakerWait.ProbedAtOnce`), and only such a caller can
  (`BreakerWait.ProbedAfterWaitOrByStraggler`).
- Concurrent refreshes replace the key cache in the order they finish, so an older document can bring a dropped
  kid back (`JwksSteps.OlderDocumentReturns`).
- The decision-cache key leaves out scope, roles and action, and uses the service name derived from
  the host. Two calls that share a key, the second within the first one's TTL, are safe from confusion under
  every PDP if and only if they ask the same query (`ServiceRuns.UnconfusedIffSameQuery`). The key text
  itself determines its four parts if and only if none of them holds a colon
  (`ServiceRuns.KeyTextDeterminesIffColonFree`).
- The call whose own fetch drops a kid still returns its old key at any age, beyond the grace period
  (`Jwks.DroppingCallIgnoresAge`), and nothing else gets past both limits (`Jwks.OverAgedIffDropped`).
- A cached lookup is not matched against the path again: after a table change it answers from the
  entry's new content, and denies when the entry is gone (`Mapping.HitIsNotRematched`). A path can keep an
  action for five minutes that the scan would no longer give it (`Mapping.StaleAction`); a hit agrees with
  the scan if and only if the cached entry is still the first match (`Mapping.HitAgreesIffStillFirst`).
- The eviction comment at internal/cache/cache.go:158 says that the oldest entry is removed; the code
  removes the one that expires first. The two are the same under every history if and only if allowed and
  denied decisions have the same TTL (`MemoryCache.EvictsOldestIffOneTTL`).

## Model

| member | source | states |
|---|---|---|
| PatternFusion.ParamPass | internal/mapping/pattern.go:68-69 | The parameter rewrite, run on quoted text, turns exactly the pattern's parameters into groups and copies everything else |
| PatternFusion.CharacterClasses | internal/mapping/pattern.go:13-68 | The characters that are quoted, and those a parameter's name may start with and hold |
| PatternFusion.StarPass | internal/mapping/pattern.go:70-71 | Each star rewrite hits exactly the star tokens it is meant for, never inside an escape or in another rewrite's output |
| PatternFusion.TokenizeWellFormed | internal/mapping/pattern.go:47-54 | The tokens spell the pattern; parameters take the longest name, a colon before a name is a parameter, and stars pair up from the left |
| PatternFusion.TokenizeUnique | internal/mapping/pattern.go:47-54 | No other token sequence does: these properties determine the tokens |
| PatternFusion.Fusion | internal/mapping/pattern.go:68-71 | Quoting and the three rewrites equal one left-to-right pass, for every pattern |
| PatternCorrect.ReadsEscape | internal/mapping/pattern.go:68-73 | The emitted text reads back as the sequence of its tokens' expressions, and ends in `$` only as an escape |
| PatternCorrect.TokensMeaning | internal/mapping/pattern.go:50-54 | The expression read back matches a span of a path exactly when the glob accepts that span |
| PatternCorrect.CompiledMeaning | internal/mapping/pattern.go:59-87 | What searching with the compiled pattern accepts, for every pattern, with or without a final `$` |
| PatternCorrect.CompilerCorrect | internal/mapping/pattern.go:59-87 | The compiled pattern and the glob accept the same paths if and only if the pattern does not end in `$` |
| PatternCorrect.PlainDollarMatchesPrefixes | internal/mapping/pattern.go:79-87 | A wildcard-free pattern ending in `$` accepts exactly the paths it is a prefix of |
| Glob.PlainPatternIsExact | internal/mapping/pattern_test.go:5-43 | A pattern without wildcards accepts its own text only: nothing longer, shorter or nested |
| Glob.SegmentsAreKept | internal/mapping/pattern.go:50-54 | Without `**`, accepted paths have as many slashes as the pattern: wildcards stay inside a segment |
| Anchoring.Idempotent | internal/mapping/pattern.go:76-87 | Anchoring twice is anchoring once |
| Anchoring.AnchoredMeaning | internal/mapping/pattern.go:79-87 | For every fragment text, with any anchors and alternations: anchoring pins the start of the first branch unless the text opens with a repeated `^`, the end of the last unless it closes with an escaped `$`, and nothing else |
| Anchoring.AnchoredIsWholeMatch | internal/mapping/pattern.go:15-28 | With real outer anchors, and inner ends of a top-level alternation anchored by the text, searching with the anchored text is matching the whole path |
| AnchoringExact.WholeMatchIffFullyAnchored | internal/mapping/pattern.go:15-28 | Anchoring keeps its promise if and only if every inner end of the alternation is anchored and no escaped `$` closes the text, for texts with anchors at branch ends only and repetitions that leave out some character |
| AnchoringExact.OneCharSpares | internal/mapping/pattern.go:69-71 | Repetitions of single characters and of the emitted wildcards leave out some character |
| AnchoringExact.ReadsAlternation | internal/mapping/pattern.go:15-28 | What the match_regex `a\|b` reads as |
| AnchoringExact.AlternationIsNotAnchored | internal/mapping/pattern.go:15-28 | A text that reads so, anchored, accepts every path starting with `a`, none longer than that being matched whole |
| Breaker.Breaker.constructor | internal/circuitbreaker/breaker.go:60-66 | A new breaker is closed with zero counters |
| Breaker.Breaker.CanExecute | internal/circuitbreaker/breaker.go:100-125 | Admission by state, half-open count and recovery time |
| Breaker.Breaker.IsOpen | internal/circuitbreaker/breaker.go:213-215 | Whether the state is open |
| Breaker.Breaker.RecordRequest | internal/circuitbreaker/breaker.go:128-140 | The whole new state after a request is recorded |
| Breaker.Breaker.RecordFailure | internal/circuitbreaker/breaker.go:143-159 | The whole new state after a failure, including tripping |
| Breaker.Breaker.RecordSuccess | internal/circuitbreaker/breaker.go:162-172 | The whole new state after a success, including closing |
| Breaker.Breaker.TransitionToOpen | internal/circuitbreaker/breaker.go:175-180 | A change to open is counted once and only if it is one |
| Breaker.Breaker.TransitionToHalfOpen | internal/circuitbreaker/breaker.go:183-189 | A change to half-open starts its request count afresh |
| Breaker.Breaker.TransitionToClosed | internal/circuitbreaker/breaker.go:192-198 | A change to closed forgets the failures |
| Breaker.Breaker.Execute | internal/circuitbreaker/breaker.go:69-97 | A serial call is check, probe, record and completion in this order, and its verdict |
| Breaker.Breaker.ForceOpen | internal/circuitbreaker/breaker.go:257-261 | Forces the open state |
| Breaker.Breaker.ForceClose | internal/circuitbreaker/breaker.go:264-268 | Forces the closed state |
| Breaker.Breaker.Reset | internal/circuitbreaker/breaker.go:271-283 | Every field back to its initial value, with the zero failure time |
| Breaker.SerialIsTextbook | internal/circuitbreaker/breaker.go:69-198 | Over every serial run the breaker is the textbook one: count consecutive failures, wait recoveryTime, let one call decide; it never rests half-open |
| Breaker.TripsExactlyAtThreshold | internal/circuitbreaker/breaker.go:143-159 | A serial run stays closed throughout if and only if no prefix ends in failureThreshold failures in a row |
| BreakerRuns.RunKeepsInvariant | internal/circuitbreaker/breaker.go:80-96 | In every interleaving, the half-open count is the number of running callers recorded in the current period |
| BreakerRuns.NeverWedges | internal/circuitbreaker/breaker.go:111-140 | A refused half-open call means at least halfOpenMaxRequests callers are in flight; with none in flight the next call is admitted |
| BreakerRuns.CompletionEndsProbing | internal/circuitbreaker/breaker.go:143-172 | Any completion ends the half-open period, closing or opening the breaker by its outcome |
| BreakerRuns.Overshoot | internal/circuitbreaker/breaker.go:76-87 | With at most w callers between check and record, the half-open count is at most halfOpenMaxRequests - 1 + w, in every interleaving |
| BreakerOvershoot.OvershootIsReached | internal/circuitbreaker/breaker.go:76-87 | That bound is attained, for every limit and every w, by callers alone: failures open the breaker and calls overshoot |
| BreakerRuns.Accounting | internal/circuitbreaker/breaker.go:128-198 | Conservation: recorded requests have failed, succeeded or are in flight, and stateChanges counts the actual changes, in every interleaving with Reset |
| BreakerRuns.ClosedBelowThreshold | internal/circuitbreaker/breaker.go:143-198 | In every interleaving a closed breaker has seen fewer than failureThreshold failures |
| BreakerRuns.FieldsMean | internal/circuitbreaker/breaker.go:128-198 | In every interleaving and every state, lastFailureTime is when the last failure was recorded, failureCount and halfOpenRequests count what they are named for since they were last cleared, totalFailures counts all failures and totalTimeouts none |
| BreakerRuns.OpenAdmitsAfterLastFailure | internal/circuitbreaker/breaker.go:113-149 | An open breaker admits exactly when recoveryTime has passed since the last failure of the run, even one recorded while it was open |
| BreakerWait.ProbedAfterWaitOrByStraggler | internal/circuitbreaker/breaker.go:76-121 | In every interleaving a half-open period begins with a caller that found the breaker open recoveryTime after the last failure of the run until then, or was admitted before it opened |
| BreakerWait.ProbedAtOnce | internal/circuitbreaker/breaker.go:76-87 | For every configuration, a run that trips the breaker and begins a half-open period at the same time |
| Recovery.OpenWithoutStragglersIsForever | internal/service/service.go:333-353 | An open breaker with no straggling request stays open in every interleaving of further requests |
| Recovery.RecoversIffStraggler | internal/service/service.go:333-353 | An open breaker can leave the open state if and only if a request is held up before the probe |
| Recovery.ReachableRecoversIffStraggler | internal/service/service.go:333-353 | In particular in every state requests can bring a new breaker to |
| MemoryCache.MemoryCache.constructor | internal/cache/cache.go:76-81 | An empty cache |
| MemoryCache.MemoryCache.Get | internal/cache/cache.go:83-106 | A hit exactly for a present, unexpired entry; an expired one is removed; hits and misses are counted |
| MemoryCache.MemoryCache.Set | internal/cache/cache.go:108-126 | The new map, after an eviction if it was full; capacity is kept for non-empty keys |
| MemoryCache.MemoryCache.Delete | internal/cache/cache.go:128-135 | Removes the key and updates the size |
| MemoryCache.MemoryCache.Clear | internal/cache/cache.go:137-144 | Empties the map |
| MemoryCache.MemoryCache.GetStats | internal/cache/cache.go:146-155 | In serial use the reported size is never below the true one |
| MemoryCache.MemoryCache.EvictOldest | internal/cache/cache.go:157-172 | The loop, visiting the keys in any order, removes what the scan of that order chooses |
| MemoryCache.EvictsAMinimum | internal/cache/cache.go:157-172 | With non-empty keys exactly one entry goes, of minimal expiry, under every order |
| MemoryCache.ExpiredShieldsLive | internal/cache/cache.go:112-115 | A full map holding an expired entry never loses a live one |
| MemoryCache.EmptyKeyBlocksEviction | internal/cache/cache.go:163-171 | Why keys must be non-empty: visited last, an empty key makes eviction remove nothing |
| MemoryCache.KeepsCapacity | internal/cache/cache.go:112-122 | One Set keeps the map within max(1, maxMemorySize) |
| MemoryCache.AlwaysWithinCapacity | internal/cache/cache.go:108-172 | So does every history of concurrent operations |
| MemoryCache.PresentIsLastSet | internal/cache/cache.go:83-172 | After every history, with any orders and interleaving at the lock gap of Get, an entry present is the one last set and not since removed |
| MemoryCache.HitsAreGenuine | internal/cache/cache.go:83-106 | A hit returns the last value set, unexpired and not since removed; only extra misses occur |
| MemoryCache.EvictsOldestIffOneTTL | internal/cache/cache.go:157-172 | Eviction removes the least recently set entry, under every history and order, if and only if allowed and denied decisions have the same TTL |
| MemoryCache.NewerIsEvicted | internal/cache/cache.go:157-172 | With two TTLs, a history after which the newer of two entries is evicted |
| RedisCache.RedisCache.constructor | internal/cache/cache.go:185-204 | An empty cache |
| RedisCache.RedisCache.Get | internal/cache/cache.go:239-261 | The unexpired entry, or a miss, or an uncounted failure |
| RedisCache.RedisCache.Set | internal/cache/cache.go:263-275 | The entry is stored unless the command fails, whatever the server drops |
| Service.GetRoles | internal/jwt/jwt.go:389-409 | Direct roles, realm roles and groups in order of first appearance |
| Service.DistinctIsASet | internal/jwt/jwt.go:388-400 | The same values, none twice, each before those that first appear after it |
| Service.Service.constructor | internal/service/service.go:54-145 | An empty cache, in Redis when that is configured and of 10000 entries in memory otherwise, and a new breaker that lets three half-open requests through |
| Service.Service.CacheGet | internal/service/service.go:266-268 | A hit, or a miss that an error of the cache is taken for |
| Service.Service.Authorize | internal/service/service.go:148-380 | The stepwise call computes the decision function's response and leaves its state |
| Service.Service.AuthorizeIdentified | internal/service/service.go:257-338 | The part from the cache key to the breaker guard, branch by branch |
| Service.Service.ConsultPdp | internal/service/service.go:340-380 | The PDP call through the breaker, its errors, and caching |
| Service.Service.CacheAuthResult | internal/service/service.go:499-523 | A decision is stored with the TTL its outcome calls for |
| Service.CacheRoundTrip | internal/service/service.go:499-546 | A PDP response stored and read back keeps allowed, status and action |
| ServiceTable.BearerExactly | internal/jwt/jwt.go:425-437 | A token is used exactly when the header is "bearer" in any case, a space, and the token |
| ServiceTable.CallerIs | internal/service/service.go:670-702 | A bad token turns the caller away; without a token, or a name in it, it has no principal; else the preferred user name or the subject |
| ServiceTable.RolesAre | internal/service/service.go:694-700 | The PDP is told each role of the token once, and "authenticated" if there are none |
| ServiceTable.RolesInOrder | internal/jwt/jwt.go:388-409 | Direct roles come before others, and roles of the realm before those that are only groups |
| ServiceTable.ServiceOfHost | internal/service/service.go:705-718 | The service each host stands for |
| ServiceTable.AskedExactly | internal/service/service.go:383-443 | The PDP is asked only by a policy call that misses and is not refused, about its principal, action and resource, in the first scope given of the call's, its service and the default |
| ServiceTable.AllowedExactly | internal/service/service.go:208-380 | A call is allowed if and only if its action is public, a live cached decision allows, it is "authenticated" with a principal, or the PDP answers EFFECT_ALLOW - or cannot, in fail_open mode |
| ServiceTable.StatusExactly | internal/service/service.go:208-380 | The status of every call |
| ServiceTable.NamesExactly | internal/service/service.go:208-380 | The principal, action and cache mark of every response |
| ServiceTable.DenialReason | internal/service/service.go:530-538 | A PDP's denial is put down to policy exactly when the action has an effect |
| ServiceTable.EntryKeeps | internal/service/service.go:499-523 | What is kept of a response, dated and for the lifetime of its verdict |
| ServiceRuns.KeyTextUnambiguous | internal/service/service.go:720-723 | Principal, service, path and method are recovered from the key text when all but the path are free of `:` |
| ServiceRuns.KeyTextDeterminesIffColonFree | internal/service/service.go:720-723 | Among all callers, a key text determines its four parts if and only if none of them holds a `:` |
| ServiceRuns.EntryProvenance | internal/service/service.go:371-375 | Every cached entry of every run is a PDP decision stored by a call with that key |
| ServiceRuns.OnlyDecisionsCached | internal/service/service.go:499-523 | No degraded or error response is ever cached, in either failure mode |
| ServiceRuns.HitRepeatsDecision | internal/service/service.go:266-281 | Every hit of every run repeats what the PDP said to an earlier call under the same key text, an allow for at most cacheTTL and a denial for at most cacheFailedTTL |
| ServiceRuns.HitOnFirst | internal/service/service.go:266-281 | A second call with the key is a hit exactly while the first one's decision lives, and repeats it |
| ServiceRuns.AllowProvenance | internal/service/service.go:208-380 | Every Allowed response of every run is public, or authenticated with a known principal, or rests on an EFFECT_ALLOW under the same key text given now or at most cacheTTL before, or is a degraded fail_open one; the key text means the same principal when principals are free of `:`, and the same principal, service, path and method when services and methods are, too |
| ServiceRuns.AnonymousOnlyPublic | internal/service/service.go:233-330 | Without a principal from a valid token only public actions are ever allowed, in either failure mode, as long as no principal's id starts with `anonymous:` |
| ServiceRuns.LookalikeIsShared | internal/service/service.go:257-281 | A caller without a principal is answered from the allowed call of a principal whose id starts with `anonymous:` |
| ServiceRuns.AnonymousServedIffLookalike | internal/service/service.go:257-281 | The calls of a principal can let a caller without one through to an action that is not public if and only if its id starts with `anonymous:` |
| EndToEnd.AnonymousNeedsPublicMapping | internal/service/service.go:208-244 | Then such a caller is allowed only where the path resolves to a public entry, by an id some scan chose first within 300 seconds |
| EndToEnd.AnonymousNeedsPublicMappingConcurrently | internal/service/service.go:208-244 | The same with concurrent callers, in every interleaving |
| EndToEnd.UnmappedIsDenied | internal/service/service.go:208-228 | A path without a matching entry or cached id is denied, in both failure modes and whatever the token, touching neither cache nor PDP |
| EndToEnd.ActionIsAnEntrys | internal/service/service.go:208-232 | The action the service goes on with is an entry's of the current tables |
| ServiceRuns.Lockstep | internal/service/service.go:332-377 | Two services differing only in failure mode keep equal states and queries and differ only in degraded against error responses |
| ServiceRuns.NeverHalfOpen | internal/service/service.go:332-357 | Serial runs of Authorize never rest half-open |
| ServiceRuns.OpenIsForever | internal/service/service.go:333-338 | Once open, the breaker of a serial run never changes and the PDP is never asked again |
| ServiceRuns.SharingSuffices | internal/service/service.go:412-418 | Calls sharing a key ask the same query when they also share action, roles, raw service and effective scope |
| ServiceRuns.Transparent | internal/service/service.go:257-281 | With a functional PDP and keys that determine queries, every call of every run gets the same Allowed, Status and Action with the cache as without it |
| ServiceRuns.SharedKeyConfuses | internal/service/service.go:720-743 | Two calls sharing a key on which the PDP differs do get a different answer with the cache |
| ServiceRuns.UnconfusedIffSameQuery | internal/service/service.go:257-281 | Two policy calls sharing a key, the second while the first decision lives, get the same decision with the cache as without under every PDP if and only if they ask the same query |
| ServiceRuns.ScopeIsNotInTheKey | internal/service/service.go:412-418 | Calls differing only in scope share a key but not a query |
| ServiceRuns.HostAliasesService | internal/service/service.go:705-723 | A service derived from the host shares keys with the same service named outright, but not queries |
| ServiceSteps.EveryEntryStored | internal/service/service.go:371-375 | In every interleaving of concurrent calls, every cached entry is the PDP's decision stored by a call with that key |
| ServiceSteps.EveryResponse | internal/service/service.go:208-380 | In every interleaving, every response is unaided, or read from an entry stored before, or the PDP's answer, or an outage report |
| ServiceSteps.AllowedInAnyInterleaving | internal/service/service.go:208-380 | Allow provenance in every interleaving: public, authenticated with a known principal, or EFFECT_ALLOW under the same key text, the caller's own or stored before its read and at most cacheTTL old, or degraded in fail_open mode |
| ServiceSteps.AnonymousOnlyPublicConcurrently | internal/service/service.go:233-330 | Without a principal from a valid token only public actions are allowed, in every interleaving, as long as no principal's id starts with `anonymous:` |
| ServiceSteps.RightDecision | internal/service/service.go:257-380 | With a functional PDP and keys that determine queries, every policy call not told of an outage gets the PDP's decision on its own query, in every interleaving |
| ServiceSteps.BreakerRunInside | internal/service/service.go:333-357 | The breaker inside the service goes through a run of the interleaved breaker, so its theorems hold there |
| ServiceSteps.ServiceBreakerSound | internal/circuitbreaker/breaker.go:100-140 | Under concurrent requests a half-open breaker refuses only with three requests in flight and admits with none, a closed one is below its threshold, and every recorded request has failed, succeeded or is in flight |
| ServiceSteps.ShutForever | internal/service/service.go:333-353 | Once the breaker is open and nobody is held up before the probe, it stays open and no further request reaches the PDP, in every interleaving |
| ServiceSteps.LockstepConcurrently | internal/service/service.go:332-377 | The two failure modes admit exactly the same interleavings, with equal caches and breakers and responses differing only in outage reports |
| ServiceAlone.AloneIsDecide | internal/service/service.go:148-380 | A call that runs uninterrupted, from any state of the concurrent service, computes the serial decision function |
| Mapping.Client.constructor | internal/mapping/client.go:68-95 | An empty lookup cache over the given tables, with a connection when Sentinel hosts and a master name are given |
| Mapping.Client.GetAction | internal/mapping/client.go:99-120 | An action with its mapping, or the error that makes the caller deny: no connection, a failed lookup, or no mapping |
| Mapping.Client.GetActionFromRedis | internal/mapping/client.go:123-139 | The cached id's details, or the scan |
| Mapping.Client.GetMappingDetails | internal/mapping/client.go:142-172 | The entry of a cached id, or a failure |
| Mapping.Client.PatternMatchingFallback | internal/mapping/client.go:175-242 | The scan's answer and what it writes to the lookup cache |
| Mapping.ScanFindsFirst | internal/mapping/client.go:188-241 | The scan answers the first loadable, compilable, matching entry, and nothing only if there is none |
| Mapping.FirstMatchUnique | internal/mapping/client.go:188-241 | There is only one such answer |
| Mapping.LookupKeyUnambiguous | internal/mapping/client.go:125-125 | Method and path are recovered from the lookup key when methods hold no `:` |
| Mapping.CachedWasFound | internal/mapping/client.go:215-218 | Every cached id was found by a scan for a call with that lookup key, which means that method and path unless methods hold `:`, when it was cached |
| Mapping.BoundedStaleness | internal/mapping/client.go:123-241 | With changing tables and failing reads, the id used was a scan's first match within the last 300 seconds, for that method and path unless methods hold `:` |
| Mapping.HitIsNotRematched | internal/mapping/client.go:130-134 | For 300 seconds the answer follows the cached id's current entry, whatever the tables now say |
| Mapping.HitAgreesIffStillFirst | internal/mapping/client.go:130-134 | A hit agrees with the scan if and only if the list can be read and the cached id is still the first match |
| Mapping.StaleAction | internal/mapping/client.go:130-134 | For any two entries matching a path, tables and calls for which the path keeps the first one's action while the scan gives the second's |
| Mapping.CacheAgreesWithScan | internal/mapping/client.go:123-241 | With fixed tables and clean table reads, every call answers what the uncached scan answers |
| Mapping.GlobEntryMatches | internal/mapping/pattern.go:33-45 | A plain glob entry compiles and matches the paths of its glob |
| Mapping.ResolvesFirstGlob | internal/mapping/client.go:174-242 | Over plain globs, every call resolves to the first listed entry whose glob accepts the path |
| MappingMeaning.EntryMatches | internal/mapping/pattern.go:23-74 | Every entry, by match_regex, raw pattern or glob, compiles and matches exactly the paths its own pattern finds with its outer ends anchored, or its glob accepts |
| MappingMeaning.OwnRegexMatchesWhole | internal/mapping/pattern.go:15-28 | With real outer anchors and anchored inner ends, an entry's own regex matches the whole path |
| MappingMeaning.PlainRegexIsExact | internal/mapping/pattern_test.go:169-181 | A match_regex without metacharacters matches its own text only |
| MappingMeaning.MatchesByItsText | internal/mapping/pattern.go:33-74 | For any engine, an entry matches by the text compiled from it, and not at all if that does not compile |
| MappingMeaning.ScanReports | internal/mapping/client.go:99-242 | Over any such entries, a call that no cached id answers reports the action of the first listed entry accepting the path, or an error |
| MappingMeaning.UnmappedIsError | internal/mapping/client.go:109-117 | No match, no list or an unreadable list is an error |
| MappingMeaning.SuccessIsAnEntrys | internal/mapping/client.go:99-172 | A success reports the non-empty action of an entry of the tables |
| MappingMeaning.AnswerByCache | internal/mapping/client.go:127-138 | When a cached id is used, and that otherwise the scan answers |
| MappingSteps.EveryIdWasChosen | internal/mapping/client.go:123-241 | With any number of callers and tables changing between any two reads, the id a caller uses was chosen by its own scan, or by one for the same lookup key saved at most 300 seconds before; a scan's choice matched when it was read and no entry listed before it did when that was read |
| MappingSteps.UnmatchedReadAll | internal/mapping/client.go:188-241 | A caller told that nothing matches has read every listed entry, none matching when it was read |
| MappingSteps.CachedWasChosen | internal/mapping/client.go:215-218 | Every cached id was chosen by the scan of a caller with the same lookup key, in every interleaving |
| MappingSteps.AgreesWithScan | internal/mapping/client.go:123-241 | While the tables stay and table reads do not fail, every id used in every interleaving is the uncached scan's |
| MappingSteps.AloneIsAnswer | internal/mapping/client.go:123-242 | A call that runs alone, from any state, answers and saves as the serial model says |
| Jwks.DecodeExponent | internal/jwt/jwt.go:365-369 | The loop computes the big-endian value wrapped to a signed 64-bit int |
| Jwks.ExponentRoundTrip | internal/jwt/jwt.go:365-369 | It undoes the minimal big-endian encoding below 2^63 (section 2 of RFC 7518) |
| Jwks.WrapIsInt64 | internal/jwt/jwt.go:365-369 | The wrapped value is the 64-bit int congruent to the big-endian value modulo 2^64 |
| Jwks.EncodedKeyIsRead | internal/jwt/jwt.go:352-378 | An encoded key is read back, modulus for modulus and exponent for exponent (section 6.3.1 of RFC 7518) |
| Jwks.EncodedKeyIsCarried | internal/jwt/jwt.go:321-339 | A document that ends with an encoded key carries it under its kid |
| Jwks.JwkToRSAPublicKey | internal/jwt/jwt.go:352-378 | A key, or a failure when a parameter does not decode |
| Jwks.KeysOf | internal/jwt/jwt.go:321-339 | The loop keeps, for each kid, exactly its last usable RSA key; it is empty exactly when the fetch fails |
| Jwks.KeyMapCarries | internal/jwt/jwt.go:321-339 | What the key map holds is what the document carries |
| Jwks.KeyStore.constructor | internal/jwt/jwt.go:96-124 | An empty key cache |
| Jwks.KeyStore.FetchJWKS | internal/jwt/jwt.go:290-349 | A successful fetch replaces all keys and the fetch time; a failed one changes nothing |
| Jwks.KeyStore.GetPublicKey | internal/jwt/jwt.go:222-287 | The key returned and the cache left, tier by tier |
| Jwks.CacheIsLastFetch | internal/jwt/jwt.go:341-345 | Over every run, the cache is the last successful fetch |
| Jwks.KeyProvenance | internal/jwt/jwt.go:222-287 | Every key returned came from a successful fetch carrying it: this call's, or one younger than ttl, or than graceTTL while fetching fails, or one this call's fetch just dropped |
| Jwks.DroppedKidNeedsRefetch | internal/jwt/jwt.go:268-287 | Once the last successful fetch omits a kid, only a call whose own fetch carries it gets a key |
| Jwks.DroppingCallIgnoresAge | internal/jwt/jwt.go:273-280 | The call whose fetch drops a kid returns the old key at any age |
| Jwks.OverAgedIffDropped | internal/jwt/jwt.go:243-287 | Past ttl and graceTTL, a key the call's own fetch does not carry is returned if and only if that fetch dropped a cached kid |
| Jwks.AvailableDuringOutage | internal/jwt/jwt.go:243-260 | While fetching fails, a carried kid resolves to its key until the later of ttl and graceTTL, and then no longer |
| JwksSteps.CacheIsLastWrite | internal/jwt/jwt.go:341-345 | In every interleaving of concurrent callers the cache is the document written last |
| JwksSteps.KeyOrigin | internal/jwt/jwt.go:222-287 | In every interleaving a returned key was carried by a document in the cache when the caller first looked, and is young enough or was just dropped, or by one no older than its own when it read again |
| JwksSteps.DroppedKidNeedsLaterWrite | internal/jwt/jwt.go:268-287 | After a document without a kid is written, a caller reading only then gets a key for it only from a document written later |
| JwksSteps.OlderDocumentReturns | internal/jwt/jwt.go:341-345 | A run in which a document fetched earlier is written later and its key is served |
| JwksSteps.AloneIsSerial | internal/jwt/jwt.go:222-287 | A caller that runs uninterrupted, from any state, does what the serial model says |

## Left out

- HTTP and gRPC servers, header extraction and response headers in cmd/main.go: input and output.
- Redis, Sentinel, HTTP and JSON transport: Redis is a map with expiry whose commands may fail, and the PDP and the JWKS endpoint are answers or errors.
- Signature verification, issuer and time checks of tokens: token parsing is an answer giving claims or an error.
- SHA-256: `ServiceRuns.GoodHash` assumes an injective hash with non-empty results; it is the only such assumption.
- Regular expressions outside the fragment of `Regex` (other classes, counted repetition, flags, size and nesting limits); the mapping client takes the regexp engine as a parameter, constrained by `Mapping.EngineConforms` only for the globs that are resolved.
- Capture-group values: group names do not affect matching.
- Text is a sequence of characters: invalid UTF-8 does not occur in decoded JSON.
- Overflow of counters: breaker and cache counters are unbounded integers; only the exponent loop wraps around.
- Telemetry, logging, metrics, health reports, configuration loading, mock modes and the unused legacy fetch.
- Nil receivers of the breaker.
- Service.Service.Authorize: calls on one service object are serial; concurrent calls are the subject of `ServiceSteps`, on values.
- Service.Service.constructor: connecting to Redis may fail, and then there is no service; that error is not modelled.
- RedisCache.RedisCache.Set: a TTL that is not positive expires at once; what the Redis client makes of such a TTL is not part of this model. Keys are hashed once more before they are sent, which renames them.
- ServiceRuns.AllowProvenance: the age of a decision is counted from when it was stored, not from when the PDP computed it.
- ServiceSteps.AllowedInAnyInterleaving: likewise; and the clock readings of a call are given with it and need not agree with the order of steps.
- AnchoringExact.WholeMatchIffFullyAnchored: for a text with a repetition that can match every character, or with anchors inside a branch, the condition is sufficient only; whether a branch without its own anchors matches every path is then a question of language inclusion.
- MemoryCache.MemoryCache.Get: hit and miss counters are counted for serial use only, because the source increments them under a read lock.
- Mapping.Client.GetAction: an error says which step failed, not the cause it wraps.
- Mapping.Client.PatternMatchingFallback: one call of the class sees one snapshot of the tables and one clock reading; reads at different moments are the subject of `MappingSteps`, on values.
- Jwks.KeyStore.GetPublicKey: calls of the class are serial; concurrent refreshes are the subject of `JwksSteps`, on values.
