/** The stored configuration as values, its translation to routes, and what the admin
    edits do to it. */
module Config {
  import opened Common
  import opened Sorting
  import opened Router

  /** The text of a duration: absent, the rendering of a number of nanoseconds, or
      something that does not parse. */
  datatype DurationText = Blank | Rendered(ns: int) | Malformed(text: string)

  function ParseDurationOrZero(t: DurationText): int {
    match t
    case Rendered(ns) => ns
    case Blank => 0
    case Malformed(_) => 0
  }

  datatype ActionConfig = ActionConfig(
    upstream: string, stripPrefix: string,
    addHeaders: map<string, string>, removeHeaders: seq<string>,
    addRespHeaders: map<string, string>, removeRespHeaders: seq<string>,
    timeout: DurationText, retryCount: int)

  datatype RouteConfig = RouteConfig(id: string, priority: int, match_: Match, action: ActionConfig)

  datatype RateLimitConfig = RateLimitConfig(requestsPerSecond: int, burst: int, keyBy: string)

  datatype HostConfig = HostConfig(
    hostname: string, tls: Option<TlsConfig>, routes: seq<RouteConfig>, rateLimit: Option<RateLimitConfig>)

  datatype EndpointConfig = EndpointConfig(id: string, address: string, weight: int, meta: map<string, string>)

  datatype HealthCheckConfig = HealthCheckConfig(
    path: string, interval: DurationText, timeout: DurationText, failThreshold: int, successThreshold: int)

  const NO_HEALTH_CHECK := HealthCheckConfig("", Blank, Blank, 0, 0)

  datatype PoolConfig = PoolConfig(
    name: string, algorithm: string, endpoints: seq<EndpointConfig>, healthCheck: HealthCheckConfig)

  datatype GatewayConfig = GatewayConfig(listenAddr: string, tlsAddr: string, adminAddr: string)

  datatype OusiaConfig = OusiaConfig(gateway: GatewayConfig, hosts: seq<HostConfig>, pools: seq<PoolConfig>)

  function PriorityOfConfig(r: RouteConfig): int { r.priority }

  // ------------------------------------------------------------- routes and configs

  function Compile(r: RouteConfig): Route {
    var a := r.action;
    Route(r.id, r.priority, r.match_, Action(
      a.upstream, a.stripPrefix, a.addHeaders, a.removeHeaders, a.addRespHeaders, a.removeRespHeaders,
      ParseDurationOrZero(a.timeout), a.retryCount))
  }

  function Render(r: Route): RouteConfig {
    var a := r.action;
    RouteConfig(r.id, r.priority, r.match_, ActionConfig(
      a.upstreamPool, a.stripPrefix, a.addHeaders, a.removeHeaders, a.addRespHeaders, a.removeRespHeaders,
      Rendered(a.timeout), a.retryCount))
  }

  function CompileAll(rs: seq<RouteConfig>): (out: seq<Route>)
    ensures |out| == |rs| && forall k :: 0 <= k < |out| ==> out[k] == Compile(rs[k])
  {
    seq(|rs|, k requires 0 <= k < |rs| => Compile(rs[k]))
  }

  /** A route of the router does what a stored route says, field by field; a duration that
      is absent or does not parse means none. */
  ghost predicate DoesAsStored(served: Route, c: RouteConfig) {
    && served.id == c.id && served.priority == c.priority && served.match_ == c.match_
    && served.action.upstreamPool == c.action.upstream
    && served.action.stripPrefix == c.action.stripPrefix
    && served.action.addHeaders == c.action.addHeaders
    && served.action.removeHeaders == c.action.removeHeaders
    && served.action.addRespHeaders == c.action.addRespHeaders
    && served.action.removeRespHeaders == c.action.removeRespHeaders
    && served.action.timeout == (if c.action.timeout.Rendered? then c.action.timeout.ns else 0)
    && served.action.retryCount == c.action.retryCount
  }

  // ---------------------------------------------------------------------- the clone

  /** What cloning keeps: everything but the hosts' rate limits and the pools' health
      checks. */
  function Cloned(c: OusiaConfig): OusiaConfig {
    OusiaConfig(c.gateway, ClonedHosts(c.hosts), ClonedPools(c.pools))
  }

  function ClonedHosts(hosts: seq<HostConfig>): (out: seq<HostConfig>)
    ensures |out| == |hosts| && forall k :: 0 <= k < |out| ==> out[k] == hosts[k].(rateLimit := None)
  {
    seq(|hosts|, k requires 0 <= k < |hosts| => hosts[k].(rateLimit := None))
  }

  function ClonedPools(pools: seq<PoolConfig>): (out: seq<PoolConfig>)
    ensures |out| == |pools| && forall k :: 0 <= k < |out| ==> out[k] == pools[k].(healthCheck := NO_HEALTH_CHECK)
  {
    seq(|pools|, k requires 0 <= k < |pools| => pools[k].(healthCheck := NO_HEALTH_CHECK))
  }

  // --------------------------------------------------------------------- route edits

  function RouteId(r: RouteConfig): string { r.id }

  function NameOf(h: HostConfig): string { h.hostname }

  function RouteIndex(rs: seq<RouteConfig>, id: string): nat { IndexBy(rs, RouteId, id) }

  function HostIndex(hosts: seq<HostConfig>, hostname: string): nat { IndexBy(hosts, NameOf, hostname) }

  predicate HasRoute(rs: seq<RouteConfig>, id: string) { RouteIndex(rs, id) < |rs| }

  /** Position of the first host that lists a route with the id, or |hosts|. */
  function OwnerIndex(hosts: seq<HostConfig>, id: string): (k: nat)
    ensures k <= |hosts| && (k < |hosts| ==> HasRoute(hosts[k].routes, id))
    ensures forall j :: 0 <= j < k ==> !HasRoute(hosts[j].routes, id)
  {
    if hosts == [] then 0 else if HasRoute(hosts[0].routes, id) then 0 else 1 + OwnerIndex(hosts[1..], id)
  }

  /** The hosts after deleting the first route with the id; a host left without routes
      goes with it. */
  function DeleteRoute(hosts: seq<HostConfig>, id: string): seq<HostConfig> {
    var vi := OwnerIndex(hosts, id);
    if vi == |hosts| then hosts else WithoutRoute(hosts, vi, RouteIndex(hosts[vi].routes, id))
  }

  function WithoutRoute(hosts: seq<HostConfig>, vi: nat, ri: nat): seq<HostConfig>
    requires vi < |hosts| && ri < |hosts[vi].routes|
  {
    var left := DropAt(hosts[vi].routes, ri);
    if left == [] then DropAt(hosts, vi) else hosts[vi := hosts[vi].(routes := left)]
  }

  /** `out` is a possible result of adding or replacing route `r` under `hostname`. */
  ghost predicate Upserted(hosts: seq<HostConfig>, r: RouteConfig, hostname: string, out: seq<HostConfig>) {
    var base := DeleteRoute(hosts, r.id);
    var vi := HostIndex(base, hostname);
    if vi < |base| then
      && |out| == |base|
      && IsSortOf(base[vi].routes + [r], out[vi].routes, PriorityOfConfig)
      && out == base[vi := base[vi].(routes := out[vi].routes)]
    else out == base + [HostConfig(hostname, None, [r], None)]
  }

  // ------------------------------------------------------- what the edits guarantee

  /** A property of (host, route) pairs. */
  type Pick = (string, RouteConfig) -> bool

  /** How many (host, route) pairs of a configuration satisfy `p`. Two configurations
      hold the same multiset of pairs when these counts agree for every `p`. */
  function CountIn(hostname: string, rs: seq<RouteConfig>, p: Pick): nat {
    if rs == [] then 0 else
      CountIn(hostname, rs[..|rs| - 1], p) + if p(hostname, rs[|rs| - 1]) then 1 else 0
  }

  function Count(hosts: seq<HostConfig>, p: Pick): nat {
    if hosts == [] then 0 else
      Count(hosts[..|hosts| - 1], p) + CountIn(hosts[|hosts| - 1].hostname, hosts[|hosts| - 1].routes, p)
  }

  lemma {:induction false} CountInAppend(hostname: string, a: seq<RouteConfig>, b: seq<RouteConfig>, p: Pick)
    ensures CountIn(hostname, a + b, p) == CountIn(hostname, a, p) + CountIn(hostname, b, p)
  {
    if b == [] {
      assert a + b == a;
    } else {
      CountInAppend(hostname, a, b[..|b| - 1], p);
      assert (a + b)[..|a + b| - 1] == a + b[..|b| - 1];
    }
  }

  lemma {:induction false} CountAppend(a: seq<HostConfig>, b: seq<HostConfig>, p: Pick)
    ensures Count(a + b, p) == Count(a, p) + Count(b, p)
  {
    if b == [] {
      assert a + b == a;
    } else {
      CountAppend(a, b[..|b| - 1], p);
      assert (a + b)[..|a + b| - 1] == a + b[..|b| - 1];
    }
  }

  lemma CountInOne(hostname: string, r: RouteConfig, p: Pick)
    ensures CountIn(hostname, [r], p) == if p(hostname, r) then 1 else 0
  {
    assert [r][..0] == [];
  }

  lemma CountOne(h: HostConfig, p: Pick)
    ensures Count([h], p) == CountIn(h.hostname, h.routes, p)
  {
    assert [h][..0] == [];
  }

  lemma CountInDrop(hostname: string, rs: seq<RouteConfig>, k: nat, p: Pick)
    requires k < |rs|
    ensures CountIn(hostname, rs, p) == CountIn(hostname, DropAt(rs, k), p) + if p(hostname, rs[k]) then 1 else 0
  {
    SplitAt(rs, k);
    CountInAppend(hostname, rs[..k], [rs[k]] + rs[k + 1..], p);
    CountInAppend(hostname, [rs[k]], rs[k + 1..], p);
    CountInAppend(hostname, rs[..k], rs[k + 1..], p);
    CountInOne(hostname, rs[k], p);
  }

  lemma CountAround(hosts: seq<HostConfig>, k: nat, p: Pick)
    requires k < |hosts|
    ensures Count(hosts, p) ==
      Count(hosts[..k], p) + CountIn(hosts[k].hostname, hosts[k].routes, p) + Count(hosts[k + 1..], p)
  {
    SplitAt(hosts, k);
    CountAppend(hosts[..k], [hosts[k]] + hosts[k + 1..], p);
    CountAppend([hosts[k]], hosts[k + 1..], p);
    CountOne(hosts[k], p);
  }

  lemma CountReplace(hosts: seq<HostConfig>, k: nat, h: HostConfig, p: Pick)
    requires k < |hosts|
    ensures Count(hosts[k := h], p) - CountIn(h.hostname, h.routes, p)
      == Count(hosts, p) - CountIn(hosts[k].hostname, hosts[k].routes, p)
  {
    var after := hosts[k := h];
    CountAround(hosts, k, p);
    CountAround(after, k, p);
    assert after[..k] == hosts[..k] && after[k + 1..] == hosts[k + 1..];
  }

  lemma DropMultiset<T>(s: seq<T>, k: nat)
    requires k < |s|
    ensures multiset(DropAt(s, k)) == multiset(s) - multiset{s[k]}
  {
    SplitAt(s, k);
  }

  /** Rearranging routes changes no count. */
  lemma {:induction false} CountInSorted(hostname: string, rs: seq<RouteConfig>, rs': seq<RouteConfig>, p: Pick)
    requires multiset(rs) == multiset(rs')
    ensures CountIn(hostname, rs, p) == CountIn(hostname, rs', p)
  {
    assert |multiset(rs)| == |multiset(rs')|;
    if rs != [] {
      var n := |rs| - 1;
      assert rs[n] in multiset(rs');
      var k :| 0 <= k < |rs'| && rs'[k] == rs[n];
      assert DropAt(rs, n) == rs[..n];
      DropMultiset(rs, n);
      DropMultiset(rs', k);
      CountInSorted(hostname, rs[..n], DropAt(rs', k), p);
      CountInDrop(hostname, rs', k, p);
    }
  }

  /** The pair that deleting the id removes. */
  function Victim(hosts: seq<HostConfig>, id: string): (string, RouteConfig)
    requires OwnerIndex(hosts, id) < |hosts|
  {
    var h := hosts[OwnerIndex(hosts, id)];
    (h.hostname, h.routes[RouteIndex(h.routes, id)])
  }

  /** Deleting removes the one pair found, if any, and no other. */
  lemma DeleteRemovesOne(hosts: seq<HostConfig>, id: string, p: Pick)
    ensures OwnerIndex(hosts, id) == |hosts| ==> DeleteRoute(hosts, id) == hosts
    ensures OwnerIndex(hosts, id) < |hosts| ==>
      var (h, r) := Victim(hosts, id);
      Count(hosts, p) == Count(DeleteRoute(hosts, id), p) + if p(h, r) then 1 else 0
  {
    var vi := OwnerIndex(hosts, id);
    if vi < |hosts| {
      var h := hosts[vi];
      var ri := RouteIndex(h.routes, id);
      var left := DropAt(h.routes, ri);
      CountInDrop(h.hostname, h.routes, ri, p);
      if left == [] {
        CountAround(hosts, vi, p);
        CountAppend(hosts[..vi], hosts[vi + 1..], p);
      } else {
        CountReplace(hosts, vi, h.(routes := left), p);
      }
    }
  }

  /** Upserting adds exactly the new pair to what deleting its id leaves. */
  lemma UpsertAddsOne(hosts: seq<HostConfig>, r: RouteConfig, hostname: string, out: seq<HostConfig>, p: Pick)
    requires Upserted(hosts, r, hostname, out)
    ensures Count(out, p) == Count(DeleteRoute(hosts, r.id), p) + if p(hostname, r) then 1 else 0
  {
    var base := DeleteRoute(hosts, r.id);
    var vi := HostIndex(base, hostname);
    CountInOne(hostname, r, p);
    if vi < |base| {
      var rs := base[vi].routes;
      CountInSorted(hostname, rs + [r], out[vi].routes, p);
      CountInAppend(hostname, rs, [r], p);
      CountReplace(base, vi, base[vi].(routes := out[vi].routes), p);
    } else {
      var h := HostConfig(hostname, None, [r], None);
      CountOne(h, p);
      CountAppend(base, [h], p);
    }
  }

  function HasId(id: string): Pick { (h: string, r: RouteConfig) => r.id == id }

  function IsPair(hostname: string, r: RouteConfig): Pick {
    (h: string, x: RouteConfig) => h == hostname && x == r
  }

  /** No route id occurs twice in the configuration. */
  ghost predicate UniqueIds(hosts: seq<HostConfig>) {
    forall id: string :: Count(hosts, HasId(id)) <= 1
  }

  ghost predicate UniqueNames(hosts: seq<HostConfig>) {
    forall j, k :: 0 <= j < k < |hosts| ==> hosts[j].hostname != hosts[k].hostname
  }

  ghost predicate NoEmptyHost(hosts: seq<HostConfig>) {
    forall k :: 0 <= k < |hosts| ==> hosts[k].routes != []
  }

  /** Pairs whose route has another id than `id`. */
  function Others(id: string, p: Pick): Pick { (h: string, r: RouteConfig) => r.id != id && p(h, r) }

  lemma UpsertKeepsIdsUnique(hosts: seq<HostConfig>, r: RouteConfig, hostname: string, out: seq<HostConfig>)
    requires Upserted(hosts, r, hostname, out) && UniqueIds(hosts)
    ensures UniqueIds(out) && Count(out, HasId(r.id)) == 1
  {
    NoOwnerNoCount(hosts, r.id);
    forall id: string
      ensures Count(out, HasId(id)) <= 1 && (id == r.id ==> Count(out, HasId(id)) == 1)
    {
      assert Count(hosts, HasId(id)) <= 1;
      UpsertAddsOne(hosts, r, hostname, out, HasId(id));
      DeleteRemovesOne(hosts, r.id, HasId(id));
    }
  }

  /** The new pair is there, and every pair of another id occurs as often as before. */
  lemma UpsertKeepsOthers(hosts: seq<HostConfig>, r: RouteConfig, hostname: string, out: seq<HostConfig>, p: Pick)
    requires Upserted(hosts, r, hostname, out)
    ensures Count(out, Others(r.id, p)) == Count(hosts, Others(r.id, p))
    ensures Count(out, IsPair(hostname, r)) >= 1
  {
    UpsertAddsOne(hosts, r, hostname, out, Others(r.id, p));
    DeleteRemovesOne(hosts, r.id, Others(r.id, p));
    UpsertAddsOne(hosts, r, hostname, out, IsPair(hostname, r));
  }

  lemma DeleteCases(hosts: seq<HostConfig>, id: string)
    requires OwnerIndex(hosts, id) < |hosts|
    ensures var vi := OwnerIndex(hosts, id);
      var rs := hosts[vi].routes;
      && |rs| >= 1
      && (|rs| == 1 ==> DeleteRoute(hosts, id) == DropAt(hosts, vi))
      && (|rs| > 1 ==> DeleteRoute(hosts, id) == hosts[vi := hosts[vi].(routes := DropAt(rs, RouteIndex(rs, id)))])
  {
  }

  lemma {:induction false} DeleteKeepsShape(hosts: seq<HostConfig>, id: string)
    ensures NoEmptyHost(hosts) ==> NoEmptyHost(DeleteRoute(hosts, id))
    ensures UniqueNames(hosts) ==> UniqueNames(DeleteRoute(hosts, id))
  {
    var vi := OwnerIndex(hosts, id);
    if vi < |hosts| { WithoutRouteKeepsShape(hosts, vi, RouteIndex(hosts[vi].routes, id)); }
  }

  lemma {:induction false} WithoutRouteKeepsShape(hosts: seq<HostConfig>, vi: nat, ri: nat)
    requires vi < |hosts| && ri < |hosts[vi].routes|
    ensures NoEmptyHost(hosts) ==> NoEmptyHost(WithoutRoute(hosts, vi, ri))
    ensures UniqueNames(hosts) ==> UniqueNames(WithoutRoute(hosts, vi, ri))
  {
  }

  /** The host is the named one and lists the route, by ascending priority. */
  ghost predicate HoldsSorted(h: HostConfig, hostname: string, r: RouteConfig) {
    && h.hostname == hostname && r in h.routes
    && forall i, j :: 0 <= i <= j < |h.routes| ==> h.routes[i].priority <= h.routes[j].priority
  }

  lemma UpsertKeepsShape(hosts: seq<HostConfig>, r: RouteConfig, hostname: string, out: seq<HostConfig>)
    requires Upserted(hosts, r, hostname, out)
    ensures NoEmptyHost(hosts) ==> NoEmptyHost(out)
    ensures UniqueNames(hosts) ==> UniqueNames(out)
    ensures exists k :: 0 <= k < |out| && HoldsSorted(out[k], hostname, r)
  {
    DeleteKeepsShape(hosts, r.id);
    var base := DeleteRoute(hosts, r.id);
    var vi := HostIndex(base, hostname);
    if vi < |base| {
      SortKeepsMembers(base[vi].routes + [r], out[vi].routes, PriorityOfConfig);
      assert (base[vi].routes + [r])[|base[vi].routes|] == r;
    }
    assert out[vi].hostname == hostname && r in out[vi].routes;
  }

  /** The new route is listed under the named host. */
  lemma {:induction false} UpsertPlaces(hosts: seq<HostConfig>, r: RouteConfig, hostname: string, out: seq<HostConfig>)
    requires Upserted(hosts, r, hostname, out)
    ensures var vi := HostIndex(out, hostname); vi < |out| && r in out[vi].routes
  {
    var base := DeleteRoute(hosts, r.id);
    var vi := HostIndex(base, hostname);
    assert out[vi].hostname == hostname && forall k :: 0 <= k < vi ==> out[k].hostname != hostname;
    if vi < |base| {
      SortKeepsMembers(base[vi].routes + [r], out[vi].routes, PriorityOfConfig);
      assert (base[vi].routes + [r])[|base[vi].routes|] == r;
    }
  }

  /** The upsert contract: given unique ids, the result has unique ids, holds the new
      pair, once, in a list of the named host sorted by priority, holds every pair of
      another id as often as before, introduces no empty host and no second host of a
      name. */
  lemma UpsertContract(hosts: seq<HostConfig>, r: RouteConfig, hostname: string, out: seq<HostConfig>)
    requires Upserted(hosts, r, hostname, out) && UniqueIds(hosts)
    ensures UniqueIds(out) && Count(out, IsPair(hostname, r)) == 1
    ensures exists k :: 0 <= k < |out| && HoldsSorted(out[k], hostname, r)
    ensures forall p: Pick :: Count(out, Others(r.id, p)) == Count(hosts, Others(r.id, p))
    ensures (NoEmptyHost(hosts) ==> NoEmptyHost(out)) && (UniqueNames(hosts) ==> UniqueNames(out))
  {
    UpsertKeepsIdsUnique(hosts, r, hostname, out);
    UpsertKeepsShape(hosts, r, hostname, out);
    CountWeaker(out, IsPair(hostname, r), HasId(r.id));
    forall p: Pick
      ensures Count(out, Others(r.id, p)) == Count(hosts, Others(r.id, p)) && Count(out, IsPair(hostname, r)) >= 1
    {
      UpsertKeepsOthers(hosts, r, hostname, out, p);
    }
    assert Count(out, Others(r.id, HasId(r.id))) == Count(hosts, Others(r.id, HasId(r.id)));
  }

  lemma {:induction false} CountInWeaker(hostname: string, rs: seq<RouteConfig>, p: Pick, q: Pick)
    requires forall h, r :: p(h, r) ==> q(h, r)
    ensures CountIn(hostname, rs, p) <= CountIn(hostname, rs, q)
  {
    if rs != [] { CountInWeaker(hostname, rs[..|rs| - 1], p, q); }
  }

  lemma {:induction false} CountWeaker(hosts: seq<HostConfig>, p: Pick, q: Pick)
    requires forall h, r :: p(h, r) ==> q(h, r)
    ensures Count(hosts, p) <= Count(hosts, q)
  {
    if hosts != [] {
      CountWeaker(hosts[..|hosts| - 1], p, q);
      CountInWeaker(hosts[|hosts| - 1].hostname, hosts[|hosts| - 1].routes, p, q);
    }
  }

  lemma {:induction false} NoRouteNoCount(hostname: string, rs: seq<RouteConfig>, id: string)
    ensures !HasRoute(rs, id) <==> CountIn(hostname, rs, HasId(id)) == 0
  {
    if rs != [] {
      var n := |rs| - 1;
      NoRouteNoCount(hostname, rs[..n], id);
      if HasRoute(rs[..n], id) { assert rs[RouteIndex(rs[..n], id)].id == id; }
      if HasRoute(rs, id) && rs[n].id != id { assert rs[..n][RouteIndex(rs, id)].id == id; }
    }
  }

  lemma {:induction false} NoOwnerNoCount(hosts: seq<HostConfig>, id: string)
    ensures OwnerIndex(hosts, id) == |hosts| <==> Count(hosts, HasId(id)) == 0
  {
    if hosts != [] {
      var n := |hosts| - 1;
      NoOwnerNoCount(hosts[..n], id);
      NoRouteNoCount(hosts[n].hostname, hosts[n].routes, id);
      if OwnerIndex(hosts[..n], id) < n { assert HasRoute(hosts[OwnerIndex(hosts[..n], id)].routes, id); }
      if OwnerIndex(hosts, id) < n { assert HasRoute(hosts[..n][OwnerIndex(hosts, id)].routes, id); }
    }
  }

  /** A freshly added route is the one its id finds. */
  lemma {:induction false} VictimIsNew(hosts: seq<HostConfig>, r: RouteConfig, hostname: string, out: seq<HostConfig>)
    requires Upserted(hosts, r, hostname, out) && OwnerIndex(hosts, r.id) == |hosts|
    ensures OwnerIndex(out, r.id) < |out| && Victim(out, r.id) == (hostname, r)
  {
    assert Count(hosts, HasId(r.id)) == 0 by { NoOwnerNoCount(hosts, r.id); }
    UpsertAddsOne(hosts, r, hostname, out, HasId(r.id));
    NoOwnerNoCount(out, r.id);
    var other: Pick := (h: string, x: RouteConfig) => x.id == r.id && !(h == hostname && x == r);
    UpsertAddsOne(hosts, r, hostname, out, other);
    CountWeaker(hosts, other, HasId(r.id));
    DeleteRemovesOne(out, r.id, other);
  }

  /** Deleting a route that was freshly added restores every pair. */
  lemma {:induction false} DeleteUndoesUpsert(hosts: seq<HostConfig>, r: RouteConfig, hostname: string,
      out: seq<HostConfig>, p: Pick)
    requires Upserted(hosts, r, hostname, out) && OwnerIndex(hosts, r.id) == |hosts|
    ensures OwnerIndex(out, r.id) < |out| && Victim(out, r.id) == (hostname, r)
    ensures Count(DeleteRoute(out, r.id), p) == Count(hosts, p)
  {
    VictimIsNew(hosts, r, hostname, out);
    UpsertAddsOne(hosts, r, hostname, out, p);
    DeleteRemovesOne(out, r.id, p);
  }
}
