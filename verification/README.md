# Ousia: a verified model of the gateway and its control plane

Ousia is an L7 gateway with a small control plane. Nearly all of its hard behaviour is in
small stateful components: a circuit breaker shared by retrying requests, token buckets that
are refilled by integer division and evicted when idle, a router and balancers that are patched
to follow a stored configuration, balancers driven by atomic counters, leases renewed over a
network, and a debouncer for health probes. This project models these components in Dafny and
proves what holds over all their runs.

Objects of the program are classes here, with the same fields, and each method is proved against
a function or relation on values; the theorems about whole runs are lemmas about those.

- `Breaker`, `Retry`, `Resiliency`, `SharedBreaker`, `ConcurrentRequests`,
  `BreakerCache`: the resiliency pipeline.
- `RateLimit`, `Eviction`: token buckets of the rate limiter and of the connection bouncer.
- `Router`, `Config`, `Coherence`, `Pools`: routing, configuration edits, and how
  router and balancers follow the store.
- `Slices`, `ConfigObjects`, `ControlPlane`, `AdminRuns`: the same on the heap, with lists that are
  edited in place in shared backing arrays.
- `Fairness`, `RoundRobin`, `LeastConn`, `Balancers`: the balancers.
- `Registry`, `Lease`: the mesh registry and the sidecar registrar.
- `HealthCheck`, `ServiceMapper`: the probe debouncer and the sidecar's service table.
- `Common`, `Sorting`: shared arithmetic, list filters, and sorting by priority.

Conventions. Instants and durations are integers in nanoseconds, and every clock reading is a
parameter; histories are ordered in time. The program's sort is not stable, so a sorted list is
any arrangement by ascending priority, and the theorems hold for all of them. Duration parsing and
rendering are an inverse pair. A multiset of (host, route) pairs is described by its counts under
every predicate on pairs.

Where code and documentation differ, the model follows the code. The documentation lists IP hash
among the balancing algorithms; the factory rejects it, and so does `Pools.KnownAlgorithm`. The
breaker's `halfOpenMax` of one suggests a single probe; it only bounds the successes needed, and a
half-open breaker admits every request (`Breaker.FirstReportDecides`).

Some properties one would expect are false, and the lemmas say exactly when they hold: backoff
beyond 37 retries (`Retry.BackoffIsExactUpTo37`), invisible eviction
(`Eviction.EvictionIsInvisibleExactly`), tokens in range (`RateLimit.TokensInRangeExactly`),
agreement of the router with every stored host (`Coherence.AgreementExactly`), a router without hosts
that the store lacks (`Coherence.RouterNeverForgets`, and per operation
`Coherence.UpsertLeavesGhostExactly`, `Coherence.DeleteLeavesGhostExactly` and
`Coherence.ReloadLeavesGhostExactly`), preserved TLS settings (`Coherence.TlsSurvivesExactly` in the
store, `Coherence.RouterTlsExactly` in the router), preserved rate limits and health checks
(`Coherence.RateLimitsSurviveExactly`, `Pools.HealthChecksSurviveExactly`), coherent pools
(`Pools.ReloadCoherentExactly`, `Pools.RemoveMatchesExactly`) and in-flight counts
(`LeastConn.AddConservesExactly`).

## Model

| member | source | states |
|---|---|---|
| Breaker.CircuitBreaker.constructor | internal/middleware/circuitbreaker.go:31-38 | a new breaker is closed with nothing counted and needs one success to close again |
| Breaker.CircuitBreaker.Allow | internal/middleware/circuitbreaker.go:40-60 | the answer and the whole new state of an admission request: refused only while open and before the timeout, half-open after it |
| Breaker.CircuitBreaker.Success | internal/middleware/circuitbreaker.go:62-75 | the whole new state after a success report, which may be late |
| Breaker.CircuitBreaker.Failure | internal/middleware/circuitbreaker.go:77-95 | the whole new state after a failure report, which may be late |
| Breaker.FieldsFollowHistory | internal/middleware/circuitbreaker.go:40-95 | over every history the failure count is the number of failures since the last success, closed implies below the threshold, half-open implies no success counted |
| Breaker.NoAdmissionBeforeTimeout | internal/middleware/circuitbreaker.go:47-54 | once open at s nothing is admitted before s + timeout and the breaker stays open, whatever late reports arrive |
| Breaker.ProbeRate | internal/middleware/circuitbreaker.go:47-53 | open-to-half-open transitions in a span number at most one more than the whole timeouts in it |
| Breaker.OpensExactlyWhenTripped | internal/middleware/circuitbreaker.go:77-95 | before the first probe a breaker is open if and only if some prefix of its history ends in threshold failures without a success between them |
| Breaker.FirstReportDecides | internal/middleware/circuitbreaker.go:55-74 | half-open admits any number of requests until the first report, which alone closes or reopens the breaker |
| Breaker.StateFollowsHistory | internal/middleware/circuitbreaker.go:40-95 | over every history of a fresh breaker: open exactly while no request came a whole timeout after the latest tripping failure since then (and opened at that failure), half-open exactly from the first such request to the next report, closed otherwise |
| Breaker.AdmitsExactly | internal/middleware/circuitbreaker.go:40-60 | a request is refused if and only if the breaker has tripped, no request came a whole timeout later since, and this one does not either |
| Retry.WithRetry | internal/middleware/retry.go:22-43 | calls stop at the first success or after MaxAttempts; the verdict is success if and only if one of those calls succeeds; every pause made is the backoff of its attempt |
| Retry.BackoffIsExactUpTo37 | internal/middleware/retry.go:33-36 | in 64-bit arithmetic all pauses are min(base * 2^a, cap), and never shrink, if and only if the retry count is at most 37 (or wraps to no attempt) |
| Retry.OverflowAt37 | internal/middleware/retry.go:33-38 | the pause after attempt 37 overflows to a negative number although attempt 36 paused for the cap |
| Retry.DefaultPauses | internal/middleware/retry.go:12-38 | three calls, or one more than the retry count; pauses of 100, 200, 400, 800 and 1600 ms, then 2 s |
| Retry.TotalSleep | internal/middleware/retry.go:33-38 | the pauses of a run add up to the sum of min(base * 2^a, cap) |
| Resiliency.ResiliencyTransport.TryOnce | internal/gateway/handler.go:141-170 | one pass of the loop body: admission decided by the shared breaker in its current state, one report per admitted attempt, none for a refused one |
| Resiliency.ResiliencyTransport.RoundTrip | internal/gateway/handler.go:133-177 | with other requests using the breaker in between, the attempts are those the breaker decides, at most three or one more than the retry count, and stop only at a response below 500; the caller gets the response of the last admitted attempt, and an error if and only if none was admitted or that one failed in transport; the breaker ends where all calls in order lead |
| Resiliency.AttemptEndsWith | internal/gateway/handler.go:142-169 | a refused attempt ends with its request for admission, an admitted one with its report: a success if and only if it got a response below 500 |
| Resiliency.LogIsDetermined | internal/gateway/handler.go:141-171 | the attempts of a request are determined by the replies, the clock, the other calls and the initial breaker |
| Resiliency.LastReplyIsLastAdmitted | internal/gateway/handler.go:173-176 | no reply exists if and only if every attempt was refused; otherwise the reply kept is the one of the last attempt that reached the upstream |
| Resiliency.OneReportPerAdmission | internal/gateway/handler.go:142-169 | a request asks once per attempt, reports once per admitted attempt, and reports success exactly for replies below 500 |
| SharedBreaker.UpstreamHitsBound | internal/gateway/handler.go:141-171 | T slots that ask and report in any interleaving against a failing upstream, attempts in flight included, reach it at most threshold - failures + T - 1 times until the timeout has passed |
| SharedBreaker.BoundIsTight | internal/gateway/handler.go:141-171 | for every breaker and every T some run reaches that bound |
| SharedBreaker.SingleSlotHits | internal/gateway/handler.go:141-171 | one slot reaches the upstream exactly min(attempts, threshold - failures) times |
| SharedBreaker.HitsPerProbe | internal/middleware/circuitbreaker.go:40-95 | without limit of time: threshold - failures + T - 1 hits, and T more for each time the breaker lets a probe through |
| SharedBreaker.HitsOverTime | internal/middleware/circuitbreaker.go:40-95 | hence T more per whole timeout in the span of the run, and once more |
| SharedBreaker.ProbeBoundIsTight | internal/middleware/circuitbreaker.go:40-95 | for every breaker, every T and every number of probes some run reaches that bound |
| ConcurrentRequests.RequestsAreMoves | internal/gateway/handler.go:133-177 | requests of the transport that meet each other's breaker calls are a legal run of as many slots as requests run at a time, with the same hits and attempts |
| ConcurrentRequests.ConcurrentRequestsHits | internal/gateway/handler.go:133-177 | any number of failing requests of the transport, at most T at a time, with any retry counts and any interleaving of their breaker calls: at most threshold - failures + T - 1 attempts, those in flight included, reach the upstream until the timeout has passed |
| ConcurrentRequests.ConcurrentRequestsHitsOverTime | internal/gateway/handler.go:133-177 | the same over any span of time, with T more per whole timeout in it, and once more |
| ConcurrentRequests.SequentialRequestsHits | internal/gateway/handler.go:133-177 | sequential failing requests, whatever their retry counts, reach the upstream exactly min(all attempts, threshold - failures) times |
| BreakerCache.Handler.GetCircuitBreaker | internal/gateway/handler.go:37-56 | returns the breaker stored for the endpoint, creating one (threshold 3, five seconds) only if there was none |
| BreakerCache.Handler.LookupOrCreate | internal/gateway/handler.go:46-55 | the write-locked section checks again and never replaces an entry |
| BreakerCache.OneBreakerPerEndpoint | internal/gateway/handler.go:37-56 | in every interleaving of any number of callers, answers for the same endpoint are the same breaker, for different ones different, and no endpoint gets two |
| BreakerCache.EntriesAreStable | internal/gateway/handler.go:38-55 | map entries are never overwritten or removed, and a returned answer never changes |
| BreakerCache.TwoTurnsSuffice | internal/gateway/handler.go:38-55 | a caller has its answer after at most two locked sections |
| BreakerCache.Callers | internal/gateway/handler.go:37-56 | any callers on one handler object, in any interleaving of their locked sections: answers for the same endpoint are the same object, for different ones different, and two sections are enough |
| RateLimit.RateLimiter.Allow | pkg/middleware/ratelimit.go:61-88 | answer and new bucket map of a call with its two clock readings |
| RateLimit.RateLimiter.Cleanup | pkg/middleware/ratelimit.go:98-103 | a cleanup pass gives every key one turn, in some order, each with its own clock reading |
| RateLimit.PassEvictsExactly | pkg/middleware/ratelimit.go:98-103 | a pass removes the key of each turn if and only if it is idle for more than ten minutes at that turn, and otherwise keeps its bucket unchanged |
| RateLimit.PassSkips | pkg/middleware/ratelimit.go:98-103 | a pass leaves alone every key that gets no turn |
| RateLimit.RefillTruncates | pkg/middleware/ratelimit.go:74-80 | a refill adds rate per whole second, truncated toward zero even when the clock goes back, and caps at the burst |
| RateLimit.HeldKeyAdmits | pkg/middleware/ratelimit.go:74-87 | calls of a held key at one instant: as many are admitted as there are tokens after adding rate per whole second since it was last seen, capped by the burst |
| RateLimit.NewKeyAdmits | pkg/middleware/ratelimit.go:66-73 | a key that is not held gets one call and its burst, unless 10000 keys are held: then every call is refused and nothing is recorded |
| RateLimit.KeysAreCapped | pkg/middleware/ratelimit.go:66-73 | no run holds more than 10000 keys |
| RateLimit.WindowBound | pkg/middleware/ratelimit.go:61-88 | between two calls of a key that is not evicted meanwhile, admissions are at most one burst plus rate per whole second from the first call to the last, for any rate and burst |
| RateLimit.WindowBoundIsTight | pkg/middleware/ratelimit.go:61-88 | for every whole number of seconds some window reaches the bound, if a second refills no more than a bucket holds |
| RateLimit.BouncerBound | internal/gateway/bouncer.go:53-80 | the connection bouncer, which never evicts, obeys the same bound from its first call on |
| RateLimit.TokensInRangeExactly | pkg/middleware/ratelimit.go:74-87 | tokens stay within 0..burst over every run if and only if burst is at least 1 and the rate is not negative |
| Eviction.EvictionIsInvisibleExactly | pkg/middleware/ratelimit.go:61-106 | no run within the key cap can tell from its answers whether cleanup ran, if and only if 600 * rate >= burst >= 1 |
| Eviction.CleanupSimulates | pkg/middleware/ratelimit.go:66-106 | under that condition the run with cleanup and the run without give the same answers and agree on every bucket still held |
| Eviction.EvictionShows | pkg/middleware/ratelimit.go:66-106 | otherwise a concrete run gets a different answer |
| Router.Router.constructor | internal/router/router.go:18-29 | a new router holds, per name, the last host listed with its routes in some priority order |
| Router.Router.AddVirtualHost | internal/router/router.go:53-60 | sets exactly one host, its routes arranged by priority; the order of equal priorities is left open |
| Router.Router.RemoveVirtualHost | internal/router/router.go:62-66 | removes exactly one host |
| Router.Router.Match | internal/router/router.go:31-51 | on every reachable router the answer is a matching route of minimum priority of the exact host, of the wildcard only if the exact host is absent, and none if and only if none matches; method, path and every header condition of the route found hold of the request |
| Router.MatchRoute | internal/router/router.go:68-92 | decides the match condition, header by header |
| Router.NoConditionAcceptsAll | internal/router/router.go:68-92 | a route without conditions accepts every request |
| Router.HeaderCondition | internal/router/router.go:85-89 | a further header condition keeps exactly the requests whose header reads so, a missing one as empty |
| Router.MethodCondition | internal/router/router.go:71-73 | a list of methods keeps exactly the requests with one of them |
| Router.ExactPathCondition | internal/router/router.go:75-78 | an exact path keeps exactly the requests for it, whatever the prefix |
| Router.PrefixCondition | internal/router/router.go:79-83 | a prefix keeps exactly the requests whose path continues it |
| Router.NewHoldsLastListed | internal/router/router.go:18-29 | a new router holds, per listed name, routes and TLS settings of the last host listed with it, and no other name |
| Router.PortIsStripped | internal/router/router.go:94-99 | an appended port is stripped from any host, and a host is its own normal form if and only if it has no colon |
| Router.PortDoesNotMatter | internal/router/router.go:31-51 | a port after a colon-free host does not change which answers are right (section 7.2 of RFC 9110) |
| Config.DeleteRemovesOne | internal/controlplane/admin.go:497-513 | deleting an id removes one (host, route) pair, the first found, and no other |
| Config.UpsertAddsOne | internal/controlplane/admin.go:515-573 | an upsert adds exactly the new pair to what deleting its id leaves, whatever order the sort chooses |
| Config.UpsertContract | internal/controlplane/admin.go:515-573 | given unique ids: ids stay unique, the new pair is held once in a priority-sorted list of the named host, all pairs of other ids are kept with multiplicity, no empty and no duplicate host appears |
| Config.DeleteUndoesUpsert | internal/controlplane/admin.go:497-573 | deleting a freshly added id finds that route and restores the multiset of pairs |
| Coherence.UpsertKeepsCover | internal/controlplane/admin.go:216-219 | an upsert keeps every stored route held by the router under its host |
| Coherence.UpsertAgreesExactly | internal/controlplane/admin.go:607-640 | from agreement on every stored host, an upsert keeps it on every host then stored if and only if the id was not moved away from a host that lives on |
| Coherence.UpsertLeavesGhostExactly | internal/controlplane/admin.go:216-219 | an upsert leaves a host in the router that the store lacks if and only if it moved a host's only route to another host |
| Coherence.UpsertMirrorsExactly | internal/controlplane/admin.go:216-219 | an upsert keeps the host names and routes of the router those of the store (TLS settings aside) if and only if the route was not moved from another host |
| Coherence.DeleteResyncs | internal/controlplane/admin.go:277-286 | every successful delete re-establishes agreement on all stored hosts |
| Coherence.DeleteLeavesGhostExactly | internal/controlplane/admin.go:642-671 | a delete leaves a host in the router that the store lacks if and only if it took a host's only route |
| Coherence.ReloadLeavesGhostExactly | internal/controlplane/updater.go:20-61 | a reload leaves such a host if and only if the new configuration lacks a stored one |
| Coherence.GhostHostStillServes | internal/controlplane/admin.go:642-671 | after the last route of a host is deleted, requests to that host keep their answers |
| Coherence.UpsertKeepsTlsExactly | internal/controlplane/admin.go:515-573 | an upsert keeps the stored TLS settings of a host, the one it names or any other, if and only if it does not take the host's only route |
| Coherence.DeleteKeepsTlsExactly | internal/controlplane/admin.go:497-513 | the same for a delete |
| Coherence.TlsSurvivesExactly | internal/controlplane/admin.go:497-573 | over every run between reloads, the stored TLS settings of a name stay until a step takes the last route of its host; then they are gone even if the name is stored again |
| Coherence.RouterTlsExactly | internal/controlplane/admin.go:607-671 | in the router a stored host has its TLS settings from the start or the reload until the first upsert under it or the first delete that leaves it stored, and none after that |
| Coherence.RateLimitsSurviveExactly | internal/controlplane/admin.go:424-473 | over every run the hosts are as last loaded until the first request that stores a clone; from then on none has a rate limit |
| Coherence.StoreIsAlwaysCovered | internal/controlplane/admin.go:607-671 | over every run of upserts, deletes, endpoint edits and reloads the router holds every stored route under its host |
| Coherence.StoredRouteIsServed | internal/controlplane/admin.go:607-671 | at any point of any run a request that a stored route matches gets a route of at least that priority |
| Coherence.StoredRouteIsHeld | internal/controlplane/admin.go:607-671 | over every run each stored route is held by the router under its host, alike in id, priority, match, upstream pool, prefix to strip, header edits, timeout and retry count |
| Coherence.LoadedRouteIsHeld | internal/controlplane/updater.go:20-61 | so are all routes after a reload or a start-up that lists each host name once |
| Coherence.AgreementExactly | internal/controlplane/admin.go:607-671 | over every run, the router agrees with a stored host if and only if the host is not stale, and with all stored hosts if and only if no host is stale; staleness is computed step by step from the edits |
| Coherence.RouterNeverForgets | internal/controlplane/admin.go:607-671 | over every run, the router serves exactly the host names that some state of the run stored |
| Coherence.GhostEntryIsFrozen | internal/controlplane/admin.go:607-671 | what the router holds under a name does not change while the store lacks the name |
| Coherence.RouterIsStoreExactly | internal/controlplane/admin.go:607-671 | over every run, the router holds the stored host names with their routes and no other host (TLS settings aside) if and only if no host is stale and every name ever stored is stored |
| Coherence.AnswersFollowTheStore | internal/router/router.go:31-51 | end to end over every run: if neither the request's host nor the wildcard is stale or was lost, the right answers of the router are exactly those of the naive search over the stored configuration |
| Coherence.StartUpIsFresh | internal/gateway/bootstrap.go:98-141 | the router built at start-up from the configuration starts such a run |
| Pools.EditOutcome | internal/controlplane/admin.go:575-605 | an endpoint edit is rejected exactly for a known id on addition or an unknown one on removal, and removal undoes addition |
| Pools.EditEffect | internal/controlplane/admin.go:331-388 | an endpoint edit field by field: accepted if and only if pool and balancer exist and the id is new, or known on removal; it appends to, or drops the first with the id from, the list of that pool, appends to or filters the members of that balancer, and touches nothing else |
| Pools.ReloadedByName | internal/controlplane/updater.go:63-97 | a reload gives a pool of one of the four algorithms a balancer with that algorithm and the configured endpoints, weight 0 read as 1; other pools keep what they had |
| Pools.RemoveMatchesExactly | internal/controlplane/admin.go:379-386 | a removal keeps pool and balancer alike if and only if the id occurs once in the pool |
| Pools.EditKeepsCoherence | internal/controlplane/admin.go:361-386 | endpoint edits keep every pool equal to its balancer in id, address and effective weight; rejected ones change neither side |
| Pools.ReloadCoherentExactly | internal/controlplane/updater.go:63-97 | after a reload store and balancers are coherent if and only if each pool has a known algorithm or already matched its old balancer |
| Pools.PoolsStayCoherent | internal/controlplane/updater.go:63-97 | over every run of endpoint edits, route edits and reloads each stored pool equals its balancer, in order |
| Pools.HealthChecksSurviveExactly | internal/controlplane/admin.go:424-473 | over every run the pools are as last loaded until the first request that stores a clone; from then on none has a health check |
| Slices.Append | internal/controlplane/admin.go:515-531 | append writes into spare capacity of the backing array, or moves to a new one |
| Slices.RemoveAt | internal/controlplane/admin.go:503 | the in-place shift over the backing array removes one item |
| Slices.SortInPlace | internal/controlplane/admin.go:542-544 | the list is sorted where it lies; the order of equal priorities is left open |
| ConfigObjects.CloneConfig | internal/controlplane/admin.go:424-473 | a clone with tables and lists in fresh backing arrays only, that keeps gateway, host names, TLS settings, routes, pool names, algorithms and endpoints and loses rate limits and health checks |
| ConfigObjects.DeleteRouteFromConfig | internal/controlplane/admin.go:497-513 | the shift in the backing array of the route list, or of the host table, computes the delete on values and says whether it found the id |
| ConfigObjects.AddOrUpdateRouteInConfig | internal/controlplane/admin.go:515-573 | delete, append and sort in the backing arrays are an upsert on values |
| ConfigObjects.UpdateUpstreamEndpointsInConfig | internal/controlplane/admin.go:575-605 | the edit of the backing array of the endpoint list is the edit on values; a rejected one changes nothing |
| ControlPlane.ApplyRouteToRouter | internal/controlplane/admin.go:607-640 | only the first host of the name is rebuilt, without TLS settings; nothing happens if there is none |
| ControlPlane.ApplyVirtualHosts | internal/controlplane/updater.go:20-61 | every host of the configuration is rebuilt and no other entry of the router changes |
| ControlPlane.ApplyUpstreams | internal/controlplane/updater.go:63-97 | a balancer per pool of a known algorithm; others are skipped and none is dropped |
| ControlPlane.Bootstrap | internal/gateway/bootstrap.go:18-66 | start-up succeeds if and only if all algorithms are known and, with a TLS address, the certificate of the first host with TLS settings loads; it then builds router and balancers from the configuration |
| ControlPlane.AdminAPI.AddRoute | internal/controlplane/admin.go:189-222 | created if and only if id, host and upstream are given and the timeout parses, and without effect otherwise; then store and router hold under the named host a route with the id, priority, match, upstream, timeout and retry count of the body and no header edits, by one upsert step; no object and no backing array of configurations handed out before, the current one included, is written |
| ControlPlane.AdminAPI.UpdateRoute | internal/controlplane/admin.go:242-275 | the same with the id taken from the path |
| ControlPlane.AdminAPI.DeleteRoute | internal/controlplane/admin.go:277-287 | 404 without effect if and only if the id is unknown; otherwise one delete step; earlier configurations are not written |
| ControlPlane.AdminAPI.AddEndpoint | internal/controlplane/admin.go:331-370 | the status for every case; rejected requests change neither side; otherwise store and balancer are edited alike and the routing state is only cloned; earlier configurations are not written |
| ControlPlane.AdminAPI.RemoveEndpoint | internal/controlplane/admin.go:372-388 | the same for a removal |
| ControlPlane.AdminAPI.Reload | internal/controlplane/watcher.go:61-74 | the store takes the new configuration and router and balancers make one reload step |
| AdminRuns.Serve | internal/controlplane/admin.go:189-388 | any sequence of requests and reloads on the heap makes a run of states as above: the router covers the store, serves exactly the names ever stored and agrees if and only if no host is stale, balancers match the pools if all that was loaded was loadable, and no earlier configuration is written |
| AdminRuns.SnapshotKeepsValue | internal/controlplane/admin.go:424-473 | a configuration whose memory was not written is as valid as before and has the same value |
| AdminRuns.StartLeads | internal/gateway/bootstrap.go:18-66 | what start-up builds begins such a run |
| Balancers.New | internal/balancer/factory.go:9-20 | plain round robin for round-robin and the empty name, weighted for wrr, least connections for least-conn, with the configured endpoints; none for any other algorithm |
| Balancers.Edit | internal/controlplane/admin.go:361-386 | Add and Remove of all three balancer objects have the effect on the visible endpoints that pool coherence assumes |
| RoundRobin.Healthy | internal/balancer/balancer.go:18-26 | the loop computes the filter by health |
| RoundRobin.FilterKeepsOrder | internal/balancer/balancer.go:18-26 | the filter keeps all and only the healthy endpoints, in order |
| RoundRobin.RoundRobinBalancer.Next | internal/balancer/roundrobin.go:20-31 | the healthy endpoint the ticket selects; no ticket is drawn if there is none |
| RoundRobin.RoundRobinBalancer.Remove | internal/balancer/roundrobin.go:39-49 | drops exactly the endpoints with the id |
| RoundRobin.WeightedBalancer.Next | internal/balancer/wrr.go:20-42 | the slot of the weight expansion that the ticket selects, a healthy endpoint; none if and only if none is healthy, and then no ticket is drawn |
| RoundRobin.ExpandCounts | internal/balancer/wrr.go:29-38 | the expansion has one slot per unit of effective weight |
| RoundRobin.NextSlots | internal/balancer/wrr.go:29-38 | a further endpoint gets the next slots: as many as its weight, or one if that is not positive |
| RoundRobin.PicksInProportion | internal/balancer/wrr.go:29-41 | any full cycle picks two endpoints in proportion to their positive weights, and one without as often as one of weight 1 |
| RoundRobin.WeightedShare | internal/balancer/wrr.go:29-41 | n consecutive tickets give an endpoint between floor(n/W)*w and floor(n/W)*w + min(w, n mod W) picks, and any W - w + 1 at least one |
| RoundRobin.EvenShare | internal/balancer/roundrobin.go:29-30 | the same for plain round robin with one slot each |
| RoundRobin.DrawWeighted | internal/balancer/wrr.go:20-42 | n calls of Next in a row choose an endpoint as often as the tickets pick it, hence within the weighted bounds |
| RoundRobin.DrawEvenly | internal/balancer/roundrobin.go:20-31 | the same for plain round robin |
| RoundRobin.WrapIsSeamlessExactly | internal/balancer/wrr.go:40-41 | the 64-bit wrap keeps the rotation if and only if the number of slots divides 2^64 |
| Fairness.FairShare | internal/balancer/wrr.go:40-41 | bounds on the picks of any window of tickets over any slot list; full cycles are exact |
| Fairness.FairShareIsTight | internal/balancer/wrr.go:29-41 | both bounds are reached, for every number of tickets, when the slots of an endpoint stand together as the expansion puts them |
| Fairness.GapBound | internal/balancer/wrr.go:40-41 | the gap between two picks of a holder of w of W slots is at most W - w + 1 |
| Fairness.InterleavingDoesNotMatter | internal/balancer/wrr.go:40-41 | concurrent callers together pick as often as one caller drawing as many tickets |
| LeastConn.LeastConnBalancer.Next | internal/balancer/leastconn.go:28-48 | the first healthy entry with the fewest requests in flight is chosen and counted, and an error if and only if none is healthy |
| LeastConn.LeastConnBalancer.Done | internal/balancer/leastconn.go:50-59 | only the count of the first entry with the id goes down, by one |
| LeastConn.LeastConnBalancer.Add | internal/balancer/leastconn.go:61-65 | appends an entry with no request in flight |
| LeastConn.LeastConnBalancer.Remove | internal/balancer/leastconn.go:67-77 | drops exactly the entries with the id, counts of the others kept |
| LeastConn.InFlightConserved | internal/gateway/handler.go:71-76 | over every interleaving of select, count, done, add and remove that adds only free ids, each count equals the requests sent and not yet done, hence is never negative |
| LeastConn.AddConservesExactly | internal/balancer/leastconn.go:61-65 | after an addition every count equals the requests sent and not yet done over all that can follow without further additions, if and only if the id is in no entry and has no request outstanding |
| LeastConn.ReAddGoesNegative | internal/balancer/leastconn.go:50-77 | removing and re-adding an endpoint while a request is out drives the count to -1 |
| Registry.MeshRegistry.Register | internal/controlplane/registry.go:57-74 | inserts, or renews in place keeping service and registration time |
| Registry.MeshRegistry.Heartbeat | internal/controlplane/registry.go:76-86 | renews a known instance and says whether it was known |
| Registry.MeshRegistry.Deregister | internal/controlplane/registry.go:88-97 | removes the instance and says whether it was known |
| Registry.MeshRegistry.Sweep | internal/controlplane/registry.go:45-52 | a cleanup tick keeps exactly the instances within ttl |
| Registry.MeshRegistry.LiveInstances | internal/controlplane/registry.go:99-113 | each instance within ttl once, and no other |
| Registry.MeshRegistry.InstancesByService | internal/controlplane/registry.go:115-124 | each live instance of the service once, and no other |
| Registry.MeshRegistry.ServiceNames | internal/controlplane/registry.go:126-137 | exactly the services with a live instance, each once |
| Registry.RecordFollowsHistory | internal/controlplane/registry.go:57-97 | over every history a record has the address, port and metadata of the latest registration of its id, service and registration time of the one that created it, and the time of the latest registration or heartbeat |
| Registry.LiveThroughout | internal/controlplane/registry.go:37-113 | if refreshes are at most ttl apart the instance is live at every moment, wherever cleanup ticks fall |
| Lease.SidecarRegistrar.Heartbeat | internal/gateway/sidecar_registrar.go:74-94 | what the registry sees of one heartbeat tick: a beat, then a registration unless the beat was answered and found |
| Lease.SidecarRegistrar.Register | internal/gateway/sidecar_registrar.go:51-72 | what the registry sees of a registration |
| Lease.SidecarRegistrar.Deregister | internal/gateway/sidecar_registrar.go:96-110 | what the registry sees of the final deregistration |
| Lease.ListedExactlyDuringLease | internal/gateway/sidecar_registrar.go:34-94 | over every run, with lost messages, cleanup ticks and other traffic, the sidecar is listed if and only if its latest effective contact is at most ttl old |
| Lease.OneRoundRestores | internal/gateway/sidecar_registrar.go:74-94 | after any silence one heartbeat round whose last request arrives, the beat itself answered, unanswered or lost, has the sidecar listed again for a whole ttl |
| Lease.HeartbeatIsMoves | internal/gateway/sidecar_registrar.go:74-94 | the effect that the registrar object states for a tick is that of legal moves of the protocol |
| Lease.StartAndStopAreMoves | internal/gateway/sidecar_registrar.go:34-49 | so are the effects of the first registration and of the deregistration |
| HealthCheck.Watch | pkg/healthcheck/healthcheck.go:61-99 | the watch loop leaves the flag the debouncer computes from the probe results |
| HealthCheck.FlagFollowsHistory | pkg/healthcheck/healthcheck.go:73-96 | a healthy endpoint goes down exactly when its last FailThreshold probes failed, an unhealthy one up exactly when its last SuccessThreshold probes succeeded |
| HealthCheck.FlapBound | pkg/healthcheck/healthcheck.go:73-96 | over n probes FailThreshold * downs + SuccessThreshold * ups <= n, and the two kinds alternate |
| ServiceMapper.Mapper.Update | internal/gateway/sidecar_discovery.go:25-30 | sets the targets and restarts the rotation |
| ServiceMapper.Mapper.Next | internal/gateway/sidecar_discovery.go:32-42 | the target the wrapped counter selects, none for an unknown or empty service |
| ServiceMapper.PickIsRotation | internal/gateway/sidecar_discovery.go:25-42 | the j-th pick since the latest refresh of a service is target j modulo their number, whatever happens to other services |

## Left out

- HTTP servers, reverse proxying, TLS handshakes, JSON handling, metrics, logging, the command line, the web UI and WASM plugins: I/O, libraries or thin wrappers.
- YAML loading, validation, file watching and hashing: a reload is one step with a configuration that was accepted.
- Interleavings of two admin handlers: get, clone and set are not atomic in the program, and handlers are serialized here.
- Request, Timeout, CORS, RequestID and Chain middleware and the response header writer: they would only add easy members.
- RateLimit.RateLimiter.Allow: the product of elapsed seconds and rate and the token sum are unbounded here; in 64 bits they overflow only for rates beyond a billion per second over centuries.
- Breaker.CircuitBreaker.Failure: the failure counter is unbounded here.
- Resiliency.ResiliencyTransport.RoundTrip: response bodies are not modelled, so the drained body of a returned 5xx response is not visible; pauses between attempts show only as later clock readings.
- Router.MatchRoute: header names are taken in canonical form, and paths are compared as given.
- ConfigObjects.CloneConfig: method and header lists inside one route and the metadata of one endpoint are values; no edit of the program writes to them.
- Router.Router.AddVirtualHost: the route list of a virtual host is a value; every caller builds a new one for the router.
- ControlPlane.AdminAPI.AddEndpoint: balancers appear as an algorithm and an endpoint list; `Balancers.Edit` shows that the balancer objects behave so.
- RoundRobin.RoundRobinBalancer.Remove: lists are values, so a list handed out by Endpoints and filtered in place later is not modelled.
- LeastConn.LeastConnBalancer.Next: minimality is for one call at a time; concurrent calls overlap, and only conservation is proved for them.
- Registry.MeshRegistry.LiveInstances: instances are values; pointers that callers keep while the registry updates them are not modelled.
- Lease.ListedExactlyDuringLease: a request that times out at the client and arrives later than the next step is not modelled.
- HealthCheck.Watch: probes are a list of results; endpoints that a reload creates are not watched by the program either.
- ServiceMapper.Mapper.Update: fetching the upstream list and filtering it by health before the update.
