/** The admin API, the reload and start-up on the heap: configurations are objects that the
    store hands out, and every edit works in place on a fresh clone. */
module ControlPlane {
  import opened Common
  import opened Config
  import opened ConfigObjects
  import R = Router
  import C = Coherence
  import P = Pools

  /** Clone, then edit the clone: what each handler does before it publishes. */
  method CloneWithRoute(cfg: ConfigObject, route: R.Route, hostname: string) returns (clone: ConfigObject)
    requires cfg.Valid()
    ensures clone.Valid() && fresh(clone.Repr)
    ensures Upserted(ClonedHosts(cfg.view.hosts), Render(route), hostname, clone.view.hosts)
    ensures clone.view == Cloned(cfg.view).(hosts := clone.view.hosts)
  {
    clone := CloneConfig(cfg);
    AddOrUpdateRouteInConfig(clone, route, hostname);
  }

  method CloneWithoutRoute(cfg: ConfigObject, id: string) returns (clone: ConfigObject, removed: bool)
    requires cfg.Valid()
    ensures clone.Valid() && fresh(clone.Repr)
    ensures removed == (OwnerIndex(ClonedHosts(cfg.view.hosts), id) < |cfg.view.hosts|)
    ensures clone.view == Cloned(cfg.view).(hosts := DeleteRoute(ClonedHosts(cfg.view.hosts), id))
  {
    clone := CloneConfig(cfg);
    removed := DeleteRouteFromConfig(clone, id);
  }

  method CloneWithEdit(cfg: ConfigObject, poolName: string, edit: P.PoolEdit)
    returns (clone: ConfigObject, error: Option<P.EditError>)
    requires cfg.Valid()
    ensures clone.Valid() && fresh(clone.Repr)
    ensures match P.EditPool(ClonedPools(cfg.view.pools), poolName, edit)
      case Edited(pools) => error.None? && clone.view == Cloned(cfg.view).(pools := pools)
      case Rejected(e) => error == Some(e)
  {
    clone := CloneConfig(cfg);
    error := UpdateUpstreamEndpointsInConfig(clone, poolName, edit);
  }

  // ------------------------------------------------------------ patching the router

  lemma AppliedOneMore(r: R.Hosts, hosts: seq<HostConfig>, h: HostConfig, withTls: bool, mid: R.Hosts, r': R.Hosts)
    requires C.AppliedAll(r, hosts, withTls, mid)
    requires C.Applied(mid, h, if withTls then h.tls else None, r')
    ensures C.AppliedAll(r, hosts + [h], withTls, r')
  {
    assert (hosts + [h])[..|hosts|] == hosts;
    forall name ensures C.AppliedAt(r, hosts + [h], withTls, r', name) {
      assert C.AppliedAt(r, hosts, withTls, mid, name);
    }
  }

  method ApplyHost(router: R.Router, h: HostConfig, tls: Option<R.TlsConfig>)
    requires router.Valid()
    modifies router
    ensures router.Valid() && C.Applied(old(router.hosts), h, tls, router.hosts)
  {
    var _ := router.AddVirtualHost(R.VirtualHost(h.hostname, CompileAll(h.routes), tls));
  }

  ghost predicate RouteApplied(r: R.Hosts, hosts: seq<HostConfig>, hostname: string, r': R.Hosts) {
    var vi := HostIndex(hosts, hostname);
    if vi < |hosts| then C.Applied(r, hosts[vi], None, r') else r' == r
  }

  lemma RouteApplication(s: C.State, route: R.Route, hostname: string, s': C.State)
    requires Upserted(ClonedHosts(s.hosts), Render(route), hostname, s'.hosts)
    requires RouteApplied(s.router, s'.hosts, hostname, s'.router)
    ensures C.UpsertStep(s, route, hostname, s')
  {
    C.NamesAfterUpsert(ClonedHosts(s.hosts), Render(route), hostname, s'.hosts);
  }

  /** Rebuilds the first host of that name, if there is one. */
  method ApplyRouteToRouter(router: R.Router, cfg: ConfigObject, hostname: string)
    requires router.Valid() && cfg.Valid()
    modifies router
    ensures router.Valid()
    ensures RouteApplied(old(router.hosts), cfg.view.hosts, hostname, router.hosts)
  {
    var vi := FindHost(cfg, hostname);
    if vi < cfg.hosts.len {
      HostAt(cfg, vi);
      ApplyHost(router, cfg.hosts.cells[vi].View(), None);
    }
  }

  /** Rebuilds every host of the configuration: without TLS settings after a delete, with
      them on a reload. Hosts the configuration lacks stay in the router. */
  method ApplyVirtualHosts(router: R.Router, cfg: ConfigObject, withTls: bool)
    requires router.Valid() && cfg.Valid() && router !in cfg.Repr
    modifies router
    ensures router.Valid()
    ensures C.AppliedAll(old(router.hosts), cfg.view.hosts, withTls, router.hosts)
  {
    ghost var hosts := cfg.view.hosts;
    for k := 0 to cfg.hosts.len
      invariant router.Valid() && cfg.Valid() && cfg.hosts.len == |hosts|
      invariant C.AppliedAll(old(router.hosts), hosts[..k], withTls, router.hosts)
    {
      ghost var mid := router.hosts;
      HostAt(cfg, k);
      var h := cfg.hosts.cells[k].View();
      ApplyHost(router, h, if withTls then h.tls else None);
      AppliedOneMore(old(router.hosts), hosts[..k], h, withTls, mid, router.hosts);
      assert hosts[..k + 1] == hosts[..k] + [h];
    }
    assert hosts[..|hosts|] == hosts;
  }

  // ------------------------------------------------------------------ the handlers

  datatype Status = Ok | Created | BadRequest | NotFound

  /** The JSON body of a route request. */
  datatype RouteBody = RouteBody(
    virtualHost: string, id: string, priority: int, match_: R.Match, upstream: string,
    timeout: DurationText, retryCount: int)

  /** The route a body describes; it cannot carry header edits or a prefix to strip. */
  function RouteOf(b: RouteBody): R.Route {
    R.Route(b.id, b.priority, b.match_,
      R.Action(b.upstream, "", map[], [], map[], [], ParseDurationOrZero(b.timeout), b.retryCount))
  }

  /** The route in the router and the one in the store are what the body asks for, field by
      field. */
  ghost predicate ServesBody(served: R.Route, b: RouteBody) {
    && served.id == b.id && served.priority == b.priority && served.match_ == b.match_
    && served.action.upstreamPool == b.upstream && served.action.stripPrefix == ""
    && served.action.addHeaders == map[] && served.action.removeHeaders == []
    && served.action.addRespHeaders == map[] && served.action.removeRespHeaders == []
    && served.action.timeout == (if b.timeout.Rendered? then b.timeout.ns else 0)
    && served.action.retryCount == b.retryCount
  }

  ghost predicate StoresBody(c: RouteConfig, b: RouteBody) {
    && c.id == b.id && c.priority == b.priority && c.match_ == b.match_
    && c.action.upstream == b.upstream && c.action.stripPrefix == ""
    && c.action.addHeaders == map[] && c.action.removeHeaders == []
    && c.action.addRespHeaders == map[] && c.action.removeRespHeaders == []
    && c.action.timeout == Rendered(if b.timeout.Rendered? then b.timeout.ns else 0)
    && c.action.retryCount == b.retryCount
  }

  /** The store holds what the body asks for, under the host it names, and the router too. */
  ghost predicate Took(s: C.State, b: RouteBody) {
    && (exists h, c :: h in s.hosts && h.hostname == b.virtualHost && c in h.routes && StoresBody(c, b))
    && b.virtualHost in s.router
    && exists served :: served in s.router[b.virtualHost].routes && ServesBody(served, b)
  }

  lemma {:induction false} UpsertTakes(s: C.State, b: RouteBody, s': C.State)
    requires C.UpsertStep(s, RouteOf(b), b.virtualHost, s')
    ensures Took(s', b)
  {
    var c := Render(RouteOf(b));
    UpsertPlaces(ClonedHosts(s.hosts), c, b.virtualHost, s'.hosts);
    var h := s'.hosts[HostIndex(s'.hosts, b.virtualHost)];
    var i :| 0 <= i < |h.routes| && h.routes[i] == c;
    assert StoresBody(c, b) && h in s'.hosts;
    C.CoveredIsHeld(s'.router, h, i);
    var served :| served in s'.router[h.hostname].routes && DoesAsStored(served, c);
    assert ServesBody(served, b);
  }

  class Store {
    var cfg: ConfigObject

    constructor (initial: ConfigObject)
      ensures cfg == initial
    {
      cfg := initial;
    }
  }

  method BuildVirtualHosts(cfg: ConfigObject) returns (vhs: seq<R.VirtualHost>)
    requires cfg.Valid()
    ensures vhs == C.CompileHosts(cfg.view.hosts)
  {
    vhs := [];
    for k := 0 to cfg.hosts.len
      invariant cfg.hosts.len == |cfg.view.hosts| && vhs == C.CompileHosts(cfg.view.hosts)[..k]
    {
      HostAt(cfg, k);
      vhs := vhs + [C.CompileHost(cfg.hosts.cells[k].View())];
    }
  }

  ghost predicate AllKnown(pools: seq<PoolConfig>) {
    forall k :: 0 <= k < |pools| ==> P.KnownAlgorithm(pools[k].algorithm)
  }

  method CheckAlgorithms(cfg: ConfigObject) returns (ok: bool)
    requires cfg.Valid()
    ensures ok <==> AllKnown(cfg.view.pools)
  {
    for k := 0 to cfg.pools.len
      invariant cfg.pools.len == |cfg.view.pools|
      invariant forall j :: 0 <= j < k ==> P.KnownAlgorithm(cfg.view.pools[j].algorithm)
    {
      PoolAt(cfg, k);
      if !P.KnownAlgorithm(cfg.pools.cells[k].algorithm) {
        return false;
      }
    }
    return true;
  }

  /** The first host with TLS settings supplies the certificate of the TLS listener;
      `loads` tells which certificate and key files can be loaded. */
  method LoadCertificate(cfg: ConfigObject, loads: R.TlsConfig -> bool) returns (ok: bool)
    requires cfg.Valid()
    ensures
      var hosts := cfg.view.hosts;
      var loaded := cfg.view.gateway.tlsAddr == "" ||
        forall k :: 0 <= k < |hosts| && hosts[k].tls.Some? && (forall j :: 0 <= j < k ==> hosts[j].tls.None?) ==>
          loads(hosts[k].tls.value);
      ok <==> loaded
  {
    if cfg.gateway.tlsAddr == "" {
      return true;
    }
    for k := 0 to cfg.hosts.len
      invariant cfg.hosts.len == |cfg.view.hosts|
      invariant forall j :: 0 <= j < k ==> cfg.view.hosts[j].tls.None?
    {
      HostAt(cfg, k);
      var tls := cfg.hosts.cells[k].tls;
      if tls.Some? {
        return loads(tls.value);
      }
    }
    return true;
  }

  /** Every stored route is held by the router under its host, alike in every field. */
  ghost predicate AllHeld(s: C.State) {
    forall hi, i :: 0 <= hi < |s.hosts| && 0 <= i < |s.hosts[hi].routes| ==>
      C.Held(s.router, s.hosts[hi].hostname, s.hosts[hi].routes[i])
  }

  lemma {:induction false} BuiltIsHeld(hosts: seq<HostConfig>, router: R.Hosts)
    requires UniqueNames(hosts) && R.BuiltFrom(C.CompileHosts(hosts), router)
    ensures AllHeld(C.State(hosts, router))
  {
    C.StartUpIsFresh(hosts, router);
    C.LoadedRouteIsHeld(map[], hosts, true, router);
  }

  lemma {:induction false} ReloadIsHeld(s: C.State, hosts: seq<HostConfig>, s': C.State)
    requires C.ReloadStep(s, hosts, s')
    ensures UniqueNames(hosts) ==> AllHeld(s')
  {
    if UniqueNames(hosts) { C.LoadedRouteIsHeld(s.router, hosts, true, s'.router); }
  }

  /** Start-up refuses a configuration with an unknown algorithm, and one whose TLS
      listener has no certificate to load. */
  method Bootstrap(cfg: ConfigObject, loads: R.TlsConfig -> bool) returns (api: Option<AdminAPI>)
    requires cfg.Valid()
    ensures
      var hosts := cfg.view.hosts;
      var loaded := cfg.view.gateway.tlsAddr == "" ||
        forall k :: 0 <= k < |hosts| && hosts[k].tls.Some? && (forall j :: 0 <= j < k ==> hosts[j].tls.None?) ==>
          loads(hosts[k].tls.value);
      api.Some? <==> AllKnown(cfg.view.pools) && loaded
    ensures api.Some? ==>
      && api.value.Valid() && api.value.store.cfg == cfg && fresh(api.value)
      && R.BuiltFrom(C.CompileHosts(cfg.view.hosts), api.value.router.hosts)
      && (UniqueNames(cfg.view.hosts) ==> AllHeld(C.State(cfg.view.hosts, api.value.router.hosts)))
      && api.value.balancers == P.Reloaded(map[], cfg.view.pools)
  {
    var vhs := BuildVirtualHosts(cfg);
    var known := CheckAlgorithms(cfg);
    if !known {
      return None;
    }
    var lbs := ApplyUpstreams(map[], cfg);
    var loaded := LoadCertificate(cfg, loads);
    if !loaded {
      return None;
    }
    var router := new R.Router(vhs);
    var store := new Store(cfg);
    var created := new AdminAPI(router, lbs, store);
    if UniqueNames(cfg.view.hosts) { BuiltIsHeld(cfg.view.hosts, router.hosts); }
    return Some(created);
  }

  /** Pools of an unknown algorithm are skipped; no balancer is ever dropped. */
  method ApplyUpstreams(balancers: P.Balancers, cfg: ConfigObject) returns (out: P.Balancers)
    requires cfg.Valid()
    ensures out == P.Reloaded(balancers, cfg.view.pools)
  {
    out := balancers;
    for k := 0 to cfg.pools.len
      invariant cfg.pools.len == |cfg.view.pools| && out == P.Reloaded(balancers, cfg.view.pools[..k])
    {
      assert cfg.view.pools[..k + 1][..k] == cfg.view.pools[..k];
      PoolAt(cfg, k);
      var up := cfg.pools.cells[k];
      if !P.KnownAlgorithm(up.algorithm) {
        continue;
      }
      out := out[up.name := P.Balancer(up.algorithm, P.LoadMembers(up.endpoints.Items()))];
    }
    assert cfg.view.pools[..cfg.pools.len] == cfg.view.pools;
  }

  /** In the handlers `kept` is any memory apart from these three objects: the store's
      configuration, the ones handed out before it, with the backing arrays of all their
      lists. No handler writes to it. */
  class AdminAPI {
    const router: R.Router
    const store: Store
    var balancers: P.Balancers

    /** Memory apart from the control plane's own. */
    ghost predicate Apart(memory: set<object>) { router !in memory && store !in memory && this !in memory }

    ghost predicate Valid()
      reads this, store, store.cfg, store.cfg.Repr, router
    {
      router.Valid() && store.cfg.Valid() && Apart(store.cfg.Repr)
    }

    ghost function Config(): OusiaConfig
      reads store, store.cfg
    {
      store.cfg.view
    }

    ghost function Routing(): C.State
      reads store, store.cfg, router
    {
      C.State(Config().hosts, router.hosts)
    }

    ghost function Serving(): P.State
      reads this, store, store.cfg
    {
      P.State(Config().pools, balancers)
    }

    constructor (router: R.Router, balancers: P.Balancers, store: Store)
      requires router.Valid() && store.cfg.Valid() && router !in store.cfg.Repr && store !in store.cfg.Repr
      ensures Valid() && this.router == router && this.balancers == balancers && this.store == store
    {
      this.router, this.balancers, this.store := router, balancers, store;
    }

    /** The store takes over a configuration with a new route, then the router rebuilds
        the one host the route was put under. */
    method PublishRoute(cfg: ConfigObject, hostname: string)
      requires Valid() && cfg.Valid() && Apart(cfg.Repr)
      modifies store, router
      ensures Valid() && store.cfg == cfg
      ensures RouteApplied(old(router.hosts), cfg.view.hosts, hostname, router.hosts)
    {
      store.cfg := cfg;
      ApplyRouteToRouter(router, cfg, hostname);
    }

    /** ... or every host. */
    method PublishAll(cfg: ConfigObject, withTls: bool)
      requires Valid() && cfg.Valid() && Apart(cfg.Repr)
      modifies store, router
      ensures Valid() && store.cfg == cfg
      ensures C.AppliedAll(old(router.hosts), cfg.view.hosts, withTls, router.hosts)
    {
      store.cfg := cfg;
      ApplyVirtualHosts(router, cfg, withTls);
    }

    /** The common part of adding and updating a route. */
    method PutRoute(route: R.Route, hostname: string)
      requires Valid()
      modifies store, router
      ensures Valid()
      ensures C.UpsertStep(old(Routing()), route, hostname, Routing())
      ensures Serving() == P.Refreshed(old(Serving()))
    {
      var cfg := CloneWithRoute(store.cfg, route, hostname);
      ghost var before := Routing();
      PublishRoute(cfg, hostname);
      RouteApplication(before, route, hostname, Routing());
    }

    method AddRoute(body: RouteBody, ghost kept: set<object>) returns (status: Status)
      requires Valid() && Apart(kept)
      modifies store, router
      ensures Valid() && (status == Created || status == BadRequest)
      ensures status == Created <==>
        body.id != "" && body.virtualHost != "" && body.upstream != "" && !body.timeout.Malformed?
      ensures status == BadRequest ==> unchanged(store) && unchanged(router)
      ensures status == Created ==>
        && C.UpsertStep(old(Routing()), RouteOf(body), body.virtualHost, Routing())
        && Serving() == P.Refreshed(old(Serving()))
        && Took(Routing(), body)
      ensures unchanged(kept)
    {
      if body.id == "" || body.virtualHost == "" || body.upstream == "" {
        return BadRequest;
      }
      if body.timeout.Malformed? {
        return BadRequest;
      }
      ghost var before := Routing();
      PutRoute(RouteOf(body), body.virtualHost);
      UpsertTakes(before, body, Routing());
      return Created;
    }

    /** The id comes from the path and replaces the body's. */
    method UpdateRoute(id: string, body: RouteBody, ghost kept: set<object>) returns (status: Status)
      requires Valid() && Apart(kept)
      modifies store, router
      ensures Valid() && (status == Ok || status == BadRequest)
      ensures status == Ok <==> id != "" && body.virtualHost != "" && body.upstream != "" && !body.timeout.Malformed?
      ensures status == BadRequest ==> unchanged(store) && unchanged(router)
      ensures status == Ok ==>
        && C.UpsertStep(old(Routing()), RouteOf(body.(id := id)), body.virtualHost, Routing())
        && Serving() == P.Refreshed(old(Serving()))
        && Took(Routing(), body.(id := id))
      ensures unchanged(kept)
    {
      if id == "" || body.virtualHost == "" || body.upstream == "" || body.timeout.Malformed? {
        return BadRequest;
      }
      ghost var before := Routing();
      PutRoute(RouteOf(body.(id := id)), body.virtualHost);
      UpsertTakes(before, body.(id := id), Routing());
      return Ok;
    }

    /** Deletes the route if it exists, and rebuilds every remaining host. */
    method RemoveRoute(id: string) returns (removed: bool)
      requires Valid()
      modifies store, router
      ensures Valid()
      ensures removed == C.Lists(old(Routing()), id)
      ensures !removed ==> unchanged(store) && unchanged(router)
      ensures removed ==>
        && C.DeleteStep(old(Routing()), id, Routing())
        && Serving() == P.Refreshed(old(Serving()))
    {
      var cfg;
      cfg, removed := CloneWithoutRoute(store.cfg, id);
      if removed {
        PublishAll(cfg, false);
      }
    }

    method DeleteRoute(id: string, ghost kept: set<object>) returns (status: Status)
      requires Valid() && Apart(kept)
      modifies store, router
      ensures Valid() && unchanged(kept)
      ensures status ==
        if id == "" then BadRequest else if C.Lists(old(Routing()), id) then Ok else NotFound
      ensures status != Ok ==> unchanged(store) && unchanged(router)
      ensures status == Ok ==>
        && C.DeleteStep(old(Routing()), id, Routing())
        && Serving() == P.Refreshed(old(Serving()))
    {
      if id == "" {
        return BadRequest;
      }
      var removed := RemoveRoute(id);
      status := if removed then Ok else NotFound;
    }

    /** The balancer takes the edit, then the store the edited configuration. */
    method Commit(cfg: ConfigObject, poolName: string, edit: P.PoolEdit)
      requires Valid() && cfg.Valid() && Apart(cfg.Repr) && poolName in balancers
      modifies this`balancers, store
      ensures Valid() && store.cfg == cfg
      ensures balancers == old(balancers)[poolName := P.EditBalancer(old(balancers)[poolName], edit)]
    {
      balancers := balancers[poolName := P.EditBalancer(balancers[poolName], edit)];
      store.cfg := cfg;
    }

    /** The common part of the endpoint handlers: the store's copy is edited first, and
        the balancer only if that succeeded. */
    method EditEndpoint(poolName: string, edit: P.PoolEdit) returns (status: Status)
      requires Valid()
      modifies this`balancers, store
      ensures Valid()
      ensures status ==
        if poolName !in old(balancers) then NotFound
        else if P.Accepts(old(Serving()), poolName, edit) then Ok
        else BadRequest
      ensures status != Ok ==> unchanged(store) && balancers == old(balancers)
      ensures status == Ok ==>
        && Serving() == P.EditStep(old(Serving()), poolName, edit)
        && Routing() == C.Refreshed(old(Routing()))
    {
      if poolName !in balancers {
        return NotFound;
      }
      var cfg, error := CloneWithEdit(store.cfg, poolName, edit);
      if error.Some? {
        return BadRequest;
      }
      Commit(cfg, poolName, edit);
      return Ok;
    }

    method AddEndpoint(poolName: string, id: string, address: string, weight: int, ghost kept: set<object>)
      returns (status: Status)
      requires Valid() && Apart(kept)
      modifies this`balancers, store
      ensures Valid() && unchanged(kept)
      ensures var edit := P.AddEndpoint(EndpointConfig(id, address, if weight <= 0 then 1 else weight, map[]));
        && status == (if id == "" || address == "" then BadRequest
                      else if poolName !in old(balancers) then NotFound
                      else if P.Accepts(old(Serving()), poolName, edit) then Created
                      else BadRequest)
        && (status == Created ==>
              && Serving() == P.EditStep(old(Serving()), poolName, edit)
              && Routing() == C.Refreshed(old(Routing())))
      ensures status != Created ==> unchanged(store) && balancers == old(balancers)
    {
      if id == "" || address == "" {
        return BadRequest;
      }
      status := EditEndpoint(poolName, P.AddEndpoint(EndpointConfig(id, address, P.DefaultWeight(weight), map[])));
      if status == Ok {
        status := Created;
      }
    }

    method RemoveEndpoint(poolName: string, id: string, ghost kept: set<object>) returns (status: Status)
      requires Valid() && Apart(kept)
      modifies this`balancers, store
      ensures Valid() && unchanged(kept)
      ensures status ==
        if poolName !in old(balancers) then NotFound
        else if P.Accepts(old(Serving()), poolName, P.RemoveEndpoint(id)) then Ok
        else BadRequest
      ensures status != Ok ==> unchanged(store) && balancers == old(balancers)
      ensures status == Ok ==>
        && Serving() == P.EditStep(old(Serving()), poolName, P.RemoveEndpoint(id))
        && Routing() == C.Refreshed(old(Routing()))
    {
      status := EditEndpoint(poolName, P.RemoveEndpoint(id));
    }

    /** The store takes the configuration over, then router and balancers follow. */
    method Replace(cfg: ConfigObject)
      requires Valid() && cfg.Valid() && Apart(cfg.Repr)
      modifies this`balancers, store, router
      ensures Valid() && store.cfg == cfg
      ensures C.ReloadStep(old(Routing()), Config().hosts, Routing())
      ensures Serving() == P.ReloadStep(old(Serving()), Config().pools)
    {
      PublishAll(cfg, true);
      balancers := ApplyUpstreams(balancers, cfg);
    }

    /** The watcher's reload with a configuration that passed validation. */
    method Reload(cfg: ConfigObject, ghost kept: set<object>)
      requires Valid() && cfg.Valid() && Apart(cfg.Repr) && Apart(kept)
      modifies this`balancers, store, router
      ensures Valid() && store.cfg == cfg && cfg.view == old(cfg.view)
      ensures C.ReloadStep(old(Routing()), Config().hosts, Routing())
      ensures UniqueNames(Config().hosts) ==> AllHeld(Routing())
      ensures Serving() == P.ReloadStep(old(Serving()), Config().pools)
      ensures unchanged(kept)
    {
      ghost var before := Routing();
      Replace(cfg);
      ReloadIsHeld(before, cfg.view.hosts, Routing());
    }
  }
}
