/** Configurations on the heap: host and pool records whose lists are slices, the deep
    clone, and the edits, which work in place. */
module ConfigObjects {
  import opened Common
  import opened Sorting
  import opened Slices
  import opened Config
  import R = Router
  import P = Pools

  datatype HostRecord = HostRecord(
    hostname: string, tls: Option<R.TlsConfig>, routes: Slice<RouteConfig>, rateLimit: Option<RateLimitConfig>)
  {
    function View(): HostConfig
      requires routes.Fits()
      reads routes.cells
    {
      HostConfig(hostname, tls, routes.Items(), rateLimit)
    }
  }

  datatype PoolRecord = PoolRecord(
    name: string, algorithm: string, endpoints: Slice<EndpointConfig>, healthCheck: HealthCheckConfig)
  {
    function View(): PoolConfig
      requires endpoints.Fits()
      reads endpoints.cells
    {
      PoolConfig(name, algorithm, endpoints.Items(), healthCheck)
    }
  }

  const NONE := -1

  /** The records have backing arrays of their own, all in `repr`, and hold these values,
      but for the one at position `edited`, whose list an edit is working on. */
  ghost predicate HoldHosts(hosts: seq<HostRecord>, values: seq<HostConfig>, edited: int, repr: set<object>)
    reads repr
  {
    && |hosts| == |values|
    && (forall k :: 0 <= k < |hosts| ==> hosts[k].routes.Fits() && hosts[k].routes.cells in repr)
    && (forall k :: 0 <= k < |hosts| && k != edited ==> hosts[k].View() == values[k])
    && (forall j, k :: 0 <= j < k < |hosts| ==> hosts[j].routes.cells != hosts[k].routes.cells)
  }

  ghost predicate HoldPools(pools: seq<PoolRecord>, values: seq<PoolConfig>, edited: int, repr: set<object>)
    reads repr
  {
    && |pools| == |values|
    && (forall k :: 0 <= k < |pools| ==> pools[k].endpoints.Fits() && pools[k].endpoints.cells in repr)
    && (forall k :: 0 <= k < |pools| && k != edited ==> pools[k].View() == values[k])
    && (forall j, k :: 0 <= j < k < |pools| ==> pools[j].endpoints.cells != pools[k].endpoints.cells)
  }

  lemma HoldOneMoreHost(hosts: seq<HostRecord>, values: seq<HostConfig>, repr: set<object>, vh: HostRecord)
    requires HoldHosts(hosts, values, NONE, repr) && vh.routes.Fits() && vh.routes.cells !in repr
    ensures HoldHosts(hosts + [vh], values + [vh.View()], NONE, repr + {vh.routes.cells})
  {
    var more := hosts + [vh];
    assert forall k :: 0 <= k < |hosts| ==> more[k] == hosts[k];
    assert more[|hosts|] == vh;
  }

  lemma HoldOneMorePool(pools: seq<PoolRecord>, values: seq<PoolConfig>, repr: set<object>, up: PoolRecord)
    requires HoldPools(pools, values, NONE, repr) && up.endpoints.Fits() && up.endpoints.cells !in repr
    ensures HoldPools(pools + [up], values + [up.View()], NONE, repr + {up.endpoints.cells})
  {
    var more := pools + [up];
    assert forall k :: 0 <= k < |pools| ==> more[k] == pools[k];
    assert more[|pools|] == up;
  }

  lemma HoldOneHostLess(hosts: seq<HostRecord>, values: seq<HostConfig>, repr: set<object>, vi: nat)
    requires HoldHosts(hosts, values, vi, repr) && vi < |hosts|
    ensures HoldHosts(DropAt(hosts, vi), DropAt(values, vi), NONE, repr)
  {
    var left := DropAt(hosts, vi);
    assert forall k :: 0 <= k < |left| ==> left[k] == hosts[if k < vi then k else k + 1];
  }

  /** `view` is the value of the configuration and `Repr` its memory: the object, the two
      tables, and the backing array of every list in them. */
  class ConfigObject {
    var gateway: GatewayConfig
    var hosts: Slice<HostRecord>
    var pools: Slice<PoolRecord>
    ghost var view: OusiaConfig
    ghost var Repr: set<object>

    /** Valid but for the lists of one host and one pool. */
    ghost predicate ValidBut(host: int, pool: int)
      reads this, Repr
    {
      && {this, hosts.cells, pools.cells} <= Repr && hosts.Fits() && pools.Fits()
      && gateway == view.gateway
      && HoldHosts(hosts.Items(), view.hosts, host, Repr)
      && HoldPools(pools.Items(), view.pools, pool, Repr)
    }

    ghost predicate Valid()
      reads this, Repr
      ensures Valid() ==> this in Repr
    {
      ValidBut(NONE, NONE)
    }

    constructor (gateway: GatewayConfig, hosts: Slice<HostRecord>, pools: Slice<PoolRecord>,
                 ghost view: OusiaConfig, ghost repr: set<object>)
      requires gateway == view.gateway && {hosts.cells, pools.cells} <= repr && hosts.Fits() && pools.Fits()
      requires HoldHosts(hosts.Items(), view.hosts, NONE, repr) && HoldPools(pools.Items(), view.pools, NONE, repr)
      ensures Valid() && this.view == view && Repr == repr + {this}
    {
      this.gateway, this.hosts, this.pools, this.view := gateway, hosts, pools, view;
      Repr := repr + {this};
    }
  }

  method CloneHost(vh: HostRecord) returns (newVh: HostRecord)
    requires vh.routes.Fits()
    ensures newVh.routes.Fits() && fresh(newVh.routes.cells) && newVh.View() == vh.View().(rateLimit := None)
  {
    var routes := Copy(vh.routes);
    newVh := HostRecord(vh.hostname, vh.tls, routes, None);
  }

  method ClonePool(up: PoolRecord) returns (newUp: PoolRecord)
    requires up.endpoints.Fits()
    ensures newUp.endpoints.Fits() && fresh(newUp.endpoints.cells)
    ensures newUp.View() == up.View().(healthCheck := NO_HEALTH_CHECK)
  {
    var endpoints := Copy(up.endpoints);
    newUp := PoolRecord(up.name, up.algorithm, endpoints, NO_HEALTH_CHECK);
  }

  method AppendHostClone(table: Slice<HostRecord>, vh: HostRecord, ghost done: seq<HostConfig>, ghost repr: set<object>)
    returns (out: Slice<HostRecord>, ghost newVh: HostRecord)
    requires table.Fits() && vh.routes.Fits() && HoldHosts(table.Items(), done, NONE, repr)
    modifies table.cells
    ensures out.Fits() && (out.cells == table.cells || fresh(out.cells)) && fresh(newVh.routes.cells)
    ensures HoldHosts(out.Items(), done + [old(vh.View()).(rateLimit := None)], NONE, repr + {newVh.routes.cells})
  {
    var clone := CloneHost(vh);
    newVh := clone;
    HoldOneMoreHost(table.Items(), done, repr, clone);
    out := Append(table, clone);
  }

  method CloneHosts(hosts: Slice<HostRecord>, ghost values: seq<HostConfig>, ghost owned: set<object>)
    returns (out: Slice<HostRecord>, ghost repr: set<object>)
    requires hosts.Fits() && HoldHosts(hosts.Items(), values, NONE, owned)
    ensures out.Fits() && fresh(repr) && out.cells in repr
    ensures HoldHosts(out.Items(), ClonedHosts(values), NONE, repr)
  {
    out := Empty();
    repr := {};
    for k := 0 to hosts.len
      invariant out.Fits() && fresh(out.cells) && fresh(repr)
      invariant HoldHosts(out.Items(), ClonedHosts(values)[..k], NONE, repr)
    {
      assert hosts.cells[k] == hosts.Items()[k];
      ghost var newVh;
      out, newVh := AppendHostClone(out, hosts.cells[k], ClonedHosts(values)[..k], repr);
      repr := repr + {newVh.routes.cells};
      assert ClonedHosts(values)[..k + 1] == ClonedHosts(values)[..k] + [ClonedHosts(values)[k]];
    }
    repr := repr + {out.cells};
  }

  method AppendPoolClone(table: Slice<PoolRecord>, up: PoolRecord, ghost done: seq<PoolConfig>, ghost repr: set<object>)
    returns (out: Slice<PoolRecord>, ghost newUp: PoolRecord)
    requires table.Fits() && up.endpoints.Fits() && HoldPools(table.Items(), done, NONE, repr)
    modifies table.cells
    ensures out.Fits() && (out.cells == table.cells || fresh(out.cells)) && fresh(newUp.endpoints.cells)
    ensures HoldPools(out.Items(), done + [old(up.View()).(healthCheck := NO_HEALTH_CHECK)],
      NONE, repr + {newUp.endpoints.cells})
  {
    var clone := ClonePool(up);
    newUp := clone;
    HoldOneMorePool(table.Items(), done, repr, clone);
    out := Append(table, clone);
  }

  method ClonePools(pools: Slice<PoolRecord>, ghost values: seq<PoolConfig>, ghost owned: set<object>)
    returns (out: Slice<PoolRecord>, ghost repr: set<object>)
    requires pools.Fits() && HoldPools(pools.Items(), values, NONE, owned)
    ensures out.Fits() && fresh(repr) && out.cells in repr
    ensures HoldPools(out.Items(), ClonedPools(values), NONE, repr)
  {
    out := Empty();
    repr := {};
    for k := 0 to pools.len
      invariant out.Fits() && fresh(out.cells) && fresh(repr)
      invariant HoldPools(out.Items(), ClonedPools(values)[..k], NONE, repr)
    {
      assert pools.cells[k] == pools.Items()[k];
      ghost var newUp;
      out, newUp := AppendPoolClone(out, pools.cells[k], ClonedPools(values)[..k], repr);
      repr := repr + {newUp.endpoints.cells};
      assert ClonedPools(values)[..k + 1] == ClonedPools(values)[..k] + [ClonedPools(values)[k]];
    }
    repr := repr + {out.cells};
  }

  /** A deep copy: it shares no object and no backing array with the original. */
  method CloneConfig(cfg: ConfigObject) returns (clone: ConfigObject)
    requires cfg.Valid()
    ensures clone.Valid() && fresh(clone.Repr)
    ensures clone.view == Cloned(cfg.view)
    ensures clone.view.gateway == cfg.view.gateway
    ensures |clone.view.hosts| == |cfg.view.hosts| && forall k :: 0 <= k < |cfg.view.hosts| ==>
      clone.view.hosts[k] == HostConfig(cfg.view.hosts[k].hostname, cfg.view.hosts[k].tls, cfg.view.hosts[k].routes,
          None)
    ensures |clone.view.pools| == |cfg.view.pools| && forall k :: 0 <= k < |cfg.view.pools| ==>
      var p := cfg.view.pools[k];
      clone.view.pools[k] == PoolConfig(p.name, p.algorithm, p.endpoints, HealthCheckConfig("", Blank, Blank, 0, 0))
  {
    ghost var hostCells, poolCells;
    var hosts, pools;
    hosts, hostCells := CloneHosts(cfg.hosts, cfg.view.hosts, cfg.Repr);
    pools, poolCells := ClonePools(cfg.pools, cfg.view.pools, cfg.Repr);
    clone := new ConfigObject(cfg.gateway, hosts, pools, Cloned(cfg.view), hostCells + poolCells);
  }

  // ---------------------------------------------------------------------- searches

  lemma HostAt(cfg: ConfigObject, k: nat)
    requires cfg.Valid() && k < cfg.hosts.len
    ensures cfg.hosts.cells[k].routes.Fits() && cfg.hosts.cells[k].View() == cfg.view.hosts[k]
    ensures cfg.hosts.cells[k].routes.cells in cfg.Repr && |cfg.view.hosts| == cfg.hosts.len
  {
    assert cfg.hosts.Items()[k] == cfg.hosts.cells[k];
  }

  lemma PoolAt(cfg: ConfigObject, k: nat)
    requires cfg.Valid() && k < cfg.pools.len
    ensures cfg.pools.cells[k].endpoints.Fits() && cfg.pools.cells[k].View() == cfg.view.pools[k]
    ensures cfg.pools.cells[k].endpoints.cells in cfg.Repr && |cfg.view.pools| == cfg.pools.len
  {
    assert cfg.pools.Items()[k] == cfg.pools.cells[k];
  }

  /** Position of the first route with the id. */
  method FindRoute(routes: Slice<RouteConfig>, id: string) returns (ri: nat)
    requires routes.Fits()
    ensures ri == RouteIndex(routes.Items(), id)
  {
    for j := 0 to routes.len
      invariant forall k :: 0 <= k < j ==> routes.cells[k].id != id
    {
      if routes.cells[j].id == id {
        assert routes.Items()[j].id == id;
        return j;
      }
    }
    return routes.len;
  }

  /** ... and of its host; vi is the number of hosts if there is none. */
  method FindRouteIndexes(cfg: ConfigObject, id: string) returns (vi: nat, ri: nat)
    requires cfg.Valid()
    ensures vi == OwnerIndex(cfg.view.hosts, id) <= cfg.hosts.len == |cfg.view.hosts|
    ensures vi < cfg.hosts.len ==> ri == RouteIndex(cfg.view.hosts[vi].routes, id)
  {
    for i := 0 to cfg.hosts.len
      invariant forall j :: 0 <= j < i ==> !HasRoute(cfg.view.hosts[j].routes, id)
    {
      HostAt(cfg, i);
      ri := FindRoute(cfg.hosts.cells[i].routes, id);
      if ri < cfg.hosts.cells[i].routes.len {
        return i, ri;
      }
    }
    return cfg.hosts.len, 0;
  }

  method FindHost(cfg: ConfigObject, hostname: string) returns (vi: nat)
    requires cfg.Valid()
    ensures vi == HostIndex(cfg.view.hosts, hostname) <= cfg.hosts.len == |cfg.view.hosts|
  {
    for i := 0 to cfg.hosts.len
      invariant forall j :: 0 <= j < i ==> cfg.view.hosts[j].hostname != hostname
    {
      HostAt(cfg, i);
      if cfg.hosts.cells[i].hostname == hostname {
        return i;
      }
    }
    return cfg.hosts.len;
  }

  method FindPool(cfg: ConfigObject, name: string) returns (ui: nat)
    requires cfg.Valid()
    ensures ui == P.PoolIndex(cfg.view.pools, name) <= cfg.pools.len == |cfg.view.pools|
  {
    for i := 0 to cfg.pools.len
      invariant forall j :: 0 <= j < i ==> cfg.view.pools[j].name != name
    {
      PoolAt(cfg, i);
      if cfg.pools.cells[i].name == name {
        return i;
      }
    }
    return cfg.pools.len;
  }

  method FindEndpoint(es: Slice<EndpointConfig>, id: string) returns (ei: nat)
    requires es.Fits()
    ensures ei == P.EndpointIndex(es.Items(), id) <= es.len
  {
    for i := 0 to es.len
      invariant forall j :: 0 <= j < i ==> es.cells[j].id != id
    {
      if es.cells[i].id == id {
        assert es.Items()[i].id == id;
        return i;
      }
    }
    return es.len;
  }

  // ------------------------------------------------------------------------- edits

  /** Writes the record of an edited host back into the table. */
  method PutHost(cfg: ConfigObject, vi: nat, vh: HostRecord)
    requires cfg.ValidBut(vi, NONE) && vi < cfg.hosts.len && vh.routes.Fits()
    requires vh.routes.cells == cfg.hosts.cells[vi].routes.cells || vh.routes.cells !in cfg.Repr
    modifies cfg, cfg.hosts.cells
    ensures cfg.Valid() && cfg.Repr == old(cfg.Repr) + {vh.routes.cells}
    ensures cfg.view == old(cfg.view).(hosts := old(cfg.view.hosts)[vi := old(vh.View())])
  {
    ghost var was := cfg.hosts.Items();
    cfg.hosts.cells[vi] := vh;
    cfg.Repr := cfg.Repr + {vh.routes.cells};
    cfg.view := cfg.view.(hosts := cfg.view.hosts[vi := vh.View()]);
    assert cfg.hosts.Items() == was[vi := vh];
  }

  /** Takes a host out of the table, whose list may be in any state. */
  method DropHost(cfg: ConfigObject, vi: nat)
    requires cfg.ValidBut(vi, NONE) && vi < cfg.hosts.len
    modifies cfg, cfg.hosts.cells
    ensures cfg.Valid() && cfg.Repr == old(cfg.Repr)
    ensures cfg.view == old(cfg.view).(hosts := DropAt(old(cfg.view.hosts), vi))
  {
    HoldOneHostLess(cfg.hosts.Items(), cfg.view.hosts, cfg.Repr, vi);
    cfg.hosts := RemoveAt(cfg.hosts, vi);
    cfg.view := cfg.view.(hosts := DropAt(cfg.view.hosts, vi));
  }

  method AppendHost(cfg: ConfigObject, vh: HostRecord)
    requires cfg.Valid() && vh.routes.Fits() && vh.routes.cells !in cfg.Repr
    modifies cfg, cfg.hosts.cells
    ensures cfg.Valid() && fresh(cfg.Repr - old(cfg.Repr) - {vh.routes.cells})
    ensures cfg.view == old(cfg.view).(hosts := old(cfg.view.hosts) + [old(vh.View())])
  {
    HoldOneMoreHost(cfg.hosts.Items(), cfg.view.hosts, cfg.Repr, vh);
    cfg.hosts := Append(cfg.hosts, vh);
    cfg.Repr := cfg.Repr + {vh.routes.cells, cfg.hosts.cells};
    cfg.view := cfg.view.(hosts := cfg.view.hosts + [vh.View()]);
  }

  /** Takes a route out of its host's list, and the host out of the table if that was its
      last. */
  method TakeRoute(cfg: ConfigObject, vi: nat, ri: nat)
    requires cfg.Valid() && vi < |cfg.view.hosts| && ri < |cfg.view.hosts[vi].routes|
    modifies cfg.Repr
    ensures cfg.Valid() && cfg.Repr == old(cfg.Repr)
    ensures cfg.view == old(cfg.view).(hosts := WithoutRoute(old(cfg.view.hosts), vi, ri))
  {
    HostAt(cfg, vi);
    var vh := cfg.hosts.cells[vi];
    var routes := RemoveAt(vh.routes, ri);
    if routes.len == 0 {
      DropHost(cfg, vi);
    } else {
      PutHost(cfg, vi, vh.(routes := routes));
    }
  }

  method DeleteRouteFromConfig(cfg: ConfigObject, id: string) returns (removed: bool)
    requires cfg.Valid()
    modifies cfg.Repr
    ensures cfg.Valid() && cfg.Repr == old(cfg.Repr)
    ensures removed == (OwnerIndex(old(cfg.view.hosts), id) < |old(cfg.view.hosts)|)
    ensures cfg.view == old(cfg.view).(hosts := DeleteRoute(old(cfg.view.hosts), id))
  {
    var vi, ri := FindRouteIndexes(cfg, id);
    if vi == cfg.hosts.len {
      return false;
    }
    TakeRoute(cfg, vi, ri);
    return true;
  }

  /** Appends to the list of a host, then sorts the list where it lies. */
  method AddSorted(list: Slice<RouteConfig>, r: RouteConfig) returns (out: Slice<RouteConfig>)
    requires list.Fits()
    modifies list.cells
    ensures out.Fits() && (out.cells == list.cells || fresh(out.cells))
    ensures IsSortOf(old(list.Items()) + [r], out.Items(), PriorityOfConfig)
  {
    out := Append(list, r);
    SortInPlace(out, PriorityOfConfig);
  }

  method AddToHost(cfg: ConfigObject, vi: nat, r: RouteConfig) returns (ghost routes: seq<RouteConfig>)
    requires cfg.Valid() && vi < cfg.hosts.len
    modifies cfg.Repr
    ensures cfg.Valid() && fresh(cfg.Repr - old(cfg.Repr)) && vi < |old(cfg.view.hosts)|
    ensures IsSortOf(old(cfg.view.hosts)[vi].routes + [r], routes, PriorityOfConfig)
    ensures cfg.view == old(cfg.view).(hosts := old(cfg.view.hosts)[vi := old(cfg.view.hosts)[vi].(routes := routes)])
  {
    HostAt(cfg, vi);
    var vh := cfg.hosts.cells[vi];
    var list := AddSorted(vh.routes, r);
    routes := list.Items();
    PutHost(cfg, vi, vh.(routes := list));
  }

  method AddHost(cfg: ConfigObject, hostname: string, r: RouteConfig)
    requires cfg.Valid()
    modifies cfg, cfg.hosts.cells
    ensures cfg.Valid() && fresh(cfg.Repr - old(cfg.Repr))
    ensures cfg.view == old(cfg.view).(hosts := old(cfg.view.hosts) + [HostConfig(hostname, None, [r], None)])
  {
    var routes := Empty();
    routes := Append(routes, r);
    var vh := HostRecord(hostname, None, routes, None);
    assert vh.View() == HostConfig(hostname, None, [r], None) by { assert routes.Items() == [r]; }
    AppendHost(cfg, vh);
  }

  method AddOrUpdateRouteInConfig(cfg: ConfigObject, route: R.Route, hostname: string)
    requires cfg.Valid()
    modifies cfg.Repr
    ensures cfg.Valid() && fresh(cfg.Repr - old(cfg.Repr))
    ensures Upserted(old(cfg.view.hosts), Render(route), hostname, cfg.view.hosts)
    ensures cfg.view == old(cfg.view).(hosts := cfg.view.hosts)
  {
    var _ := DeleteRouteFromConfig(cfg, route.id);
    var vi := FindHost(cfg, hostname);
    if vi < cfg.hosts.len {
      ghost var routes := AddToHost(cfg, vi, Render(route));
    } else {
      AddHost(cfg, hostname, Render(route));
    }
  }

  method PutPool(cfg: ConfigObject, ui: nat, up: PoolRecord)
    requires cfg.ValidBut(NONE, ui) && ui < cfg.pools.len && up.endpoints.Fits()
    requires up.endpoints.cells == cfg.pools.cells[ui].endpoints.cells || up.endpoints.cells !in cfg.Repr
    modifies cfg, cfg.pools.cells
    ensures cfg.Valid() && cfg.Repr == old(cfg.Repr) + {up.endpoints.cells}
    ensures cfg.view == old(cfg.view).(pools := old(cfg.view.pools)[ui := old(up.View())])
  {
    ghost var was := cfg.pools.Items();
    cfg.pools.cells[ui] := up;
    cfg.Repr := cfg.Repr + {up.endpoints.cells};
    cfg.view := cfg.view.(pools := cfg.view.pools[ui := up.View()]);
    assert cfg.pools.Items() == was[ui := up];
  }

  /** Appends to the list of a pool, or removes from it where it lies. */
  method EditEndpoints(list: Slice<EndpointConfig>, edit: P.PoolEdit)
      returns (error: Option<P.EditError>, out: Slice<EndpointConfig>)
    requires list.Fits()
    modifies list.cells
    ensures out.Fits() && (out.cells == list.cells || fresh(out.cells))
    ensures match P.EditList(old(list.Items()), edit)
      case Changed(es) => error.None? && out.Items() == es
      case Refused(e) => error == Some(e) && unchanged(list.cells)
  {
    match edit {
      case AddEndpoint(e) =>
        var ei := FindEndpoint(list, e.id);
        if ei < list.len {
          return Some(P.EndpointExists), list;
        }
        out := Append(list, e);
      case RemoveEndpoint(id) =>
        var ei := FindEndpoint(list, id);
        if ei == list.len {
          return Some(P.EndpointNotFound), list;
        }
        out := RemoveAt(list, ei);
    }
    error := None;
  }

  method UpdateUpstreamEndpointsInConfig(cfg: ConfigObject, poolName: string, edit: P.PoolEdit)
      returns (error: Option<P.EditError>)
    requires cfg.Valid()
    modifies cfg.Repr
    ensures cfg.Valid() && fresh(cfg.Repr - old(cfg.Repr))
    ensures match P.EditPool(old(cfg.view.pools), poolName, edit)
      case Edited(pools) => error.None? && cfg.view == old(cfg.view).(pools := pools)
      case Rejected(e) => error == Some(e) && cfg.view == old(cfg.view)
  {
    var ui := FindPool(cfg, poolName);
    if ui == cfg.pools.len {
      return Some(P.PoolNotFound);
    }
    PoolAt(cfg, ui);
    var up := cfg.pools.cells[ui];
    var endpoints;
    error, endpoints := EditEndpoints(up.endpoints, edit);
    if error.None? {
      PutPool(cfg, ui, up.(endpoints := endpoints));
    }
  }
}
