/** How far the router, patched step by step, follows the hosts of the store. */
module Coherence {
  import opened Common
  import opened Sorting
  import opened Router
  import opened Config

  /** The last host of that name, which is the one that ends up in the router. */
  function LastHost(hosts: seq<HostConfig>, name: string): Option<HostConfig> {
    if hosts == [] then None
    else if hosts[|hosts| - 1].hostname == name then Some(hosts[|hosts| - 1])
    else LastHost(hosts[..|hosts| - 1], name)
  }

  /** `r'` is `r` after one host was put into it with the given TLS settings. */
  ghost predicate Applied(r: Hosts, h: HostConfig, tls: Option<TlsConfig>, r': Hosts) {
    && h.hostname in r'
    && IsSortOf(CompileAll(h.routes), r'[h.hostname].routes, PriorityOf)
    && r' == WithHost(r, VirtualHost(h.hostname, CompileAll(h.routes), tls), r'[h.hostname].routes)
  }

  /** `r'` is `r` after all hosts were put into it, in order. */
  ghost predicate AppliedAll(r: Hosts, hosts: seq<HostConfig>, withTls: bool, r': Hosts) {
    forall name :: AppliedAt(r, hosts, withTls, r', name)
  }

  ghost predicate AppliedAt(r: Hosts, hosts: seq<HostConfig>, withTls: bool, r': Hosts, name: string) {
    match LastHost(hosts, name)
    case None => (name in r' <==> name in r) && (name in r ==> r'[name] == r[name])
    case Some(h) =>
      && name in r'
      && IsSortOf(CompileAll(h.routes), r'[name].routes, PriorityOf)
      && r'[name] == VirtualHost(name, r'[name].routes, if withTls then h.tls else None)
  }

  /** The admin API and the reload both patch the router host by host. */
  datatype State = State(hosts: seq<HostConfig>, router: Hosts)

  datatype Op =
    | Upsert(route: Route, hostname: string)
    | Delete(id: string)
    | Reload(hosts: seq<HostConfig>)
    | EndpointEdit

  /** One admin request or reload, as the handlers execute it: clone, edit, store, then
      patch the router. An endpoint edit stores a clone too and leaves the router alone. */
  ghost predicate Next(s: State, op: Op, s': State) {
    match op
    case Upsert(route, hostname) => UpsertStep(s, route, hostname, s')
    case Delete(id) => if Lists(s, id) then DeleteStep(s, id, s') else s' == s
    case Reload(hosts) => ReloadStep(s, hosts, s')
    case EndpointEdit => s' == Refreshed(s)
  }

  function Refreshed(s: State): State { State(ClonedHosts(s.hosts), s.router) }

  ghost predicate UpsertStep(s: State, route: Route, hostname: string, s': State) {
    && Upserted(ClonedHosts(s.hosts), Render(route), hostname, s'.hosts)
    && HostIndex(s'.hosts, hostname) < |s'.hosts|
    && Applied(s.router, s'.hosts[HostIndex(s'.hosts, hostname)], None, s'.router)
  }

  predicate Lists(s: State, id: string) { OwnerIndex(ClonedHosts(s.hosts), id) < |s.hosts| }

  ghost predicate ReloadStep(s: State, hosts: seq<HostConfig>, s': State) {
    s'.hosts == hosts && AppliedAll(s.router, hosts, true, s'.router)
  }

  /** The id was found and its route deleted. */
  ghost predicate DeleteStep(s: State, id: string, s': State) {
    && Lists(s, id)
    && s'.hosts == DeleteRoute(ClonedHosts(s.hosts), id)
    && AppliedAll(s.router, s'.hosts, false, s'.router)
  }

  // ------------------------------------------------------------------ the agreements

  /** The router holds every route of the host under its name. */
  ghost predicate Covers(r: Hosts, h: HostConfig) {
    h.hostname in r && multiset(CompileAll(h.routes)) <= multiset(r[h.hostname].routes)
  }

  /** The router holds exactly the host's routes under its name. */
  ghost predicate Agrees(r: Hosts, h: HostConfig) {
    h.hostname in r && multiset(CompileAll(h.routes)) == multiset(r[h.hostname].routes)
  }

  ghost predicate AllCovered(s: State) {
    forall k :: 0 <= k < |s.hosts| ==> Covers(s.router, s.hosts[k])
  }

  ghost predicate AllAgree(s: State) {
    forall k :: 0 <= k < |s.hosts| ==> Agrees(s.router, s.hosts[k])
  }

  predicate Stores(s: State, name: string) { HostIndex(s.hosts, name) < |s.hosts| }

  /** No name in the router that the store does not have. */
  ghost predicate NoGhostHost(s: State) {
    forall name :: name in s.router ==> Stores(s, name)
  }

  /** The router holds the stored hosts with their routes and nothing else. */
  ghost predicate Mirrors(s: State) { AllAgree(s) && NoGhostHost(s) }

  // ------------------------------------------------------------------ small facts

  lemma {:induction false} LastHostIsListed(hosts: seq<HostConfig>, k: nat)
    requires UniqueNames(hosts) && k < |hosts|
    ensures LastHost(hosts, hosts[k].hostname) == Some(hosts[k])
  {
    if k < |hosts| - 1 { LastHostIsListed(hosts[..|hosts| - 1], k); }
  }

  lemma {:induction false} LastHostExists(hosts: seq<HostConfig>, name: string)
    ensures LastHost(hosts, name).Some? <==> HostIndex(hosts, name) < |hosts|
    ensures LastHost(hosts, name).Some? ==> LastHost(hosts, name).value.hostname == name
  {
    if hosts != [] {
      var n := |hosts| - 1;
      LastHostExists(hosts[..n], name);
      if HostIndex(hosts[..n], name) < n { assert hosts[HostIndex(hosts[..n], name)].hostname == name; }
      if HostIndex(hosts, name) < n { assert hosts[..n][HostIndex(hosts, name)].hostname == name; }
    }
  }

  lemma CompileDrop(rs: seq<RouteConfig>, k: nat)
    requires k < |rs|
    ensures multiset(CompileAll(DropAt(rs, k))) <= multiset(CompileAll(rs))
    ensures |DropAt(rs, k)| == |rs| - 1
  {
    assert CompileAll(DropAt(rs, k)) == DropAt(CompileAll(rs), k);
    DropMultiset(CompileAll(rs), k);
  }

  /** The host that lists the route lists no other one. */
  predicate OwnsAlone(hosts: seq<HostConfig>, id: string) {
    var vi := OwnerIndex(hosts, id);
    vi < |hosts| && |hosts[vi].routes| == 1
  }

  /** Which host stands at position k after the delete. */
  lemma {:induction false} SurvivorOf(base: seq<HostConfig>, id: string, k: nat) returns (j: nat)
    requires k < |DeleteRoute(base, id)|
    ensures j < |base| && (j == OwnerIndex(base, id) ==> !OwnsAlone(base, id))
    ensures DeleteRoute(base, id)[k] ==
      if j == OwnerIndex(base, id) then base[j].(routes := DropAt(base[j].routes, RouteIndex(base[j].routes, id)))
      else base[j]
  {
    var vi := OwnerIndex(base, id);
    j := k;
    if vi == |base| {
      assert DeleteRoute(base, id) == base;
    } else {
      DeleteCases(base, id);
      if OwnsAlone(base, id) {
        assert DeleteRoute(base, id) == DropAt(base, vi);
        if vi <= k { j := k + 1; }
      }
    }
  }

  /** Every host after the delete was there before, with at least the same routes. */
  lemma DeletedHost(hosts: seq<HostConfig>, id: string, k: nat) returns (j: nat)
    requires k < |DeleteRoute(hosts, id)|
    ensures j < |hosts|
    ensures var h := DeleteRoute(hosts, id)[k];
      && h.hostname == hosts[j].hostname
      && multiset(CompileAll(h.routes)) <= multiset(CompileAll(hosts[j].routes))
      && (j != OwnerIndex(hosts, id) ==> h == hosts[j])
      && (j == OwnerIndex(hosts, id) ==> |hosts[j].routes| > 1)
  {
    j := SurvivorOf(hosts, id, k);
    if j == OwnerIndex(hosts, id) { CompileDrop(hosts[j].routes, RouteIndex(hosts[j].routes, id)); }
  }

  lemma CloneChangesNoRoute(s: State)
    ensures var c := State(ClonedHosts(s.hosts), s.router);
      && (AllCovered(s) <==> AllCovered(c)) && (AllAgree(s) <==> AllAgree(c))
      && (UniqueNames(s.hosts) <==> UniqueNames(c.hosts))
  {
    var c := ClonedHosts(s.hosts);
    assert forall k :: 0 <= k < |c| ==> c[k].hostname == s.hosts[k].hostname && c[k].routes == s.hosts[k].routes;
  }

  lemma AppliedHostAgrees(r: Hosts, h: HostConfig, tls: Option<TlsConfig>, r': Hosts)
    requires Applied(r, h, tls, r')
    ensures Agrees(r', h)
    ensures forall name :: name != h.hostname ==> (name in r' <==> name in r) && (name in r ==> r'[name] == r[name])
  {
  }

  lemma AppliedAllAgree(r: Hosts, hosts: seq<HostConfig>, withTls: bool, r': Hosts)
    requires UniqueNames(hosts) && AppliedAll(r, hosts, withTls, r')
    ensures AllAgree(State(hosts, r'))
  {
    forall k | 0 <= k < |hosts| ensures Agrees(r', hosts[k]) {
      LastHostIsListed(hosts, k);
      assert AppliedAt(r, hosts, withTls, r', hosts[k].hostname);
    }
  }

  lemma AgreeImpliesCovered(s: State)
    requires AllAgree(s)
    ensures AllCovered(s)
  {
    forall k | 0 <= k < |s.hosts| ensures Covers(s.router, s.hosts[k]) {
      assert Agrees(s.router, s.hosts[k]);
    }
  }

  /** What an upsert does to the host at position k of its result: the target agrees
      with the router, and another host is one that deleting the id left in place. */
  lemma UpsertedHost(base: seq<HostConfig>, r: RouteConfig, hostname: string, out: seq<HostConfig>, k: nat)
    requires UniqueNames(base) && Upserted(base, r, hostname, out) && k < |out|
    ensures UniqueNames(out) && HostIndex(out, hostname) < |out|
    ensures out[k].hostname == hostname ==> k == HostIndex(out, hostname)
    ensures out[k].hostname != hostname ==> k < |DeleteRoute(base, r.id)| && out[k] == DeleteRoute(base, r.id)[k]
  {
    UpsertKeepsShape(base, r, hostname, out);
    var left := DeleteRoute(base, r.id);
    var vi := HostIndex(left, hostname);
    assert out[if vi < |left| then vi else |left|].hostname == hostname;
  }

  // ------------------------------------------------------------------ one step

  lemma UpsertKeepsCover(s: State, route: Route, hostname: string, s': State)
    requires UniqueNames(s.hosts) && AllCovered(s) && Next(s, Upsert(route, hostname), s')
    ensures UniqueNames(s'.hosts) && AllCovered(s')
  {
    var base, r := ClonedHosts(s.hosts), Render(route);
    CloneChangesNoRoute(s);
    var target := s'.hosts[HostIndex(s'.hosts, hostname)];
    AppliedHostAgrees(s.router, target, None, s'.router);
    forall k: nat | k < |s'.hosts| ensures Covers(s'.router, s'.hosts[k]) {
      UpsertedHost(base, r, hostname, s'.hosts, k);
      if s'.hosts[k].hostname != hostname {
        var j := DeletedHost(base, r.id, k);
        assert Covers(s.router, base[j]);
      }
    }
    UpsertKeepsShape(base, r, hostname, s'.hosts);
  }

  /** The route is taken away from a host of another name that keeps other routes. */
  predicate LeavesStale(hosts: seq<HostConfig>, id: string, hostname: string) {
    var vi := OwnerIndex(hosts, id);
    vi < |hosts| && hosts[vi].hostname != hostname && |hosts[vi].routes| > 1
  }

  /** After an upsert the store and the router still agree on every stored host exactly
      when the route was not moved away from a host that lives on. (A host that does not
      live on leaves a ghost instead, see UpsertLeavesGhostExactly.) */
  lemma UpsertAgreesExactly(s: State, route: Route, hostname: string, s': State)
    requires UniqueNames(s.hosts) && AllAgree(s) && Next(s, Upsert(route, hostname), s')
    ensures AllAgree(s') <==> !LeavesStale(ClonedHosts(s.hosts), route.id, hostname)
  {
    var base, r := ClonedHosts(s.hosts), Render(route);
    CloneChangesNoRoute(s);
    var target := s'.hosts[HostIndex(s'.hosts, hostname)];
    AppliedHostAgrees(s.router, target, None, s'.router);
    if LeavesStale(base, route.id, hostname) {
      StaleHost(s, route, hostname, s');
    } else {
      forall k: nat | k < |s'.hosts| ensures Agrees(s'.router, s'.hosts[k]) {
        UpsertedHost(base, r, hostname, s'.hosts, k);
        if s'.hosts[k].hostname != hostname {
          var j := DeletedHost(base, r.id, k);
          assert Agrees(s.router, base[j]);
        }
      }
    }
  }

  lemma StaleHost(s: State, route: Route, hostname: string, s': State)
    requires UniqueNames(s.hosts) && AllAgree(s) && Next(s, Upsert(route, hostname), s')
    requires LeavesStale(ClonedHosts(s.hosts), route.id, hostname)
    ensures !AllAgree(s')
  {
    var base := ClonedHosts(s.hosts);
    var vi := OwnerIndex(base, route.id);
    var old_ := base[vi];
    var ri := RouteIndex(old_.routes, route.id);
    CloneChangesNoRoute(s);
    CompileDrop(old_.routes, ri);
    AppliedHostAgrees(s.router, s'.hosts[HostIndex(s'.hosts, hostname)], None, s'.router);
    assert DeleteRoute(base, route.id)[vi] == old_.(routes := DropAt(old_.routes, ri));
    assert Agrees(s.router, old_);
    assert s'.hosts[vi] == DeleteRoute(base, route.id)[vi];
    assert |multiset(CompileAll(s'.hosts[vi].routes))| < |multiset(CompileAll(old_.routes))|;
    assert !Agrees(s'.router, s'.hosts[vi]);
  }

  /** Every successful delete, and every reload, brings full agreement back. */
  lemma DeleteResyncs(s: State, id: string, s': State)
    requires UniqueNames(s.hosts) && Next(s, Delete(id), s')
    requires OwnerIndex(ClonedHosts(s.hosts), id) < |s.hosts|
    ensures UniqueNames(s'.hosts) && AllAgree(s')
  {
    CloneChangesNoRoute(s);
    DeleteKeepsShape(ClonedHosts(s.hosts), id);
    AppliedAllAgree(s.router, s'.hosts, false, s'.router);
  }

  /** The name of a host whose only route is deleted leaves the store, and whatever the
      router holds under it stays. */
  lemma LastRouteDeleted(s: State, id: string, s': State)
    requires UniqueNames(s.hosts) && Next(s, Delete(id), s')
    requires OwnerIndex(ClonedHosts(s.hosts), id) < |s.hosts|
    requires |s.hosts[OwnerIndex(ClonedHosts(s.hosts), id)].routes| == 1
    ensures var name := s.hosts[OwnerIndex(ClonedHosts(s.hosts), id)].hostname;
      && HostIndex(s'.hosts, name) == |s'.hosts|
      && (name in s'.router <==> name in s.router) && (name in s.router ==> s'.router[name] == s.router[name])
  {
    var base := ClonedHosts(s.hosts);
    CloneChangesNoRoute(s);
    HostGone(base, id, OwnerIndex(base, id));
    RouterEntry(s, Delete(id), s', base[OwnerIndex(base, id)].hostname);
  }

  /** No step takes a name out of the router, and what the router holds under a name
      that the store then lacks is what it held before. */
  lemma RouterEntry(s: State, op: Op, s': State, name: string)
    requires Next(s, op, s')
    ensures name in s.router ==> name in s'.router
    ensures !Stores(s', name) ==>
      (name in s'.router <==> name in s.router) && (name in s.router ==> s'.router[name] == s.router[name])
  {
    if op.Reload? || op.Delete? {
      LastHostExists(s'.hosts, name);
      if s' != s { assert AppliedAt(s.router, s'.hosts, op.Reload?, s'.router, name); }
    }
  }

  /** After a step from a state without ghost hosts there is one exactly when a stored
      name left the store. */
  lemma GhostsAreLostNames(s: State, op: Op, s': State)
    requires AllCovered(s) && NoGhostHost(s) && Next(s, op, s')
    ensures NoGhostHost(s') <==> forall name :: Stores(s, name) ==> Stores(s', name)
  {
    forall name ensures name in s.router <==> Stores(s, name) {
      if Stores(s, name) { assert Covers(s.router, s.hosts[HostIndex(s.hosts, name)]); }
    }
    forall name ensures name in s'.router && !Stores(s', name) <==> Stores(s, name) && !Stores(s', name) {
      RouterEntry(s, op, s', name);
    }
  }

  lemma NamesAfterDelete(base: seq<HostConfig>, id: string)
    requires UniqueNames(base)
    ensures forall k :: 0 <= k < |base| ==>
      (HostIndex(DeleteRoute(base, id), base[k].hostname) < |DeleteRoute(base, id)| <==>
        !(k == OwnerIndex(base, id) && OwnsAlone(base, id)))
  {
    forall k | 0 <= k < |base|
      ensures HostIndex(DeleteRoute(base, id), base[k].hostname) < |DeleteRoute(base, id)| <==>
        !(k == OwnerIndex(base, id) && OwnsAlone(base, id))
    {
      if k == OwnerIndex(base, id) && OwnsAlone(base, id) {
        HostGone(base, id, k);
      } else {
        var k' := HostAfterDelete(base, id, k);
      }
    }
  }

  /** Deleting a host's last route drops the host from the store but never from the
      router. */
  lemma DeleteLeavesGhostExactly(s: State, id: string, s': State)
    requires UniqueNames(s.hosts) && AllCovered(s) && NoGhostHost(s) && Next(s, Delete(id), s')
    ensures NoGhostHost(s') <==> !OwnsAlone(ClonedHosts(s.hosts), id)
  {
    var base := ClonedHosts(s.hosts);
    CloneChangesNoRoute(s);
    GhostsAreLostNames(s, Delete(id), s');
    NamesAfterDelete(base, id);
    NamesOf(s, base);
    if OwnsAlone(base, id) { assert Stores(s, base[OwnerIndex(base, id)].hostname); }
  }

  lemma NamesOf(s: State, base: seq<HostConfig>)
    requires base == ClonedHosts(s.hosts) && UniqueNames(base)
    ensures forall name :: Stores(s, name) ==>
      HostIndex(s.hosts, name) < |base| && base[HostIndex(s.hosts, name)].hostname == name
    ensures forall k :: 0 <= k < |base| ==> Stores(s, base[k].hostname)
  {
    assert forall k :: 0 <= k < |base| ==> base[k].hostname == s.hosts[k].hostname;
  }

  /** Moving a host's only route to another host does the same to the host it leaves. */
  lemma UpsertLeavesGhostExactly(s: State, route: Route, hostname: string, s': State)
    requires UniqueNames(s.hosts) && AllCovered(s) && NoGhostHost(s) && Next(s, Upsert(route, hostname), s')
    ensures var base := ClonedHosts(s.hosts);
      NoGhostHost(s') <==> !(OwnsAlone(base, route.id) && base[OwnerIndex(base, route.id)].hostname != hostname)
  {
    var base := ClonedHosts(s.hosts);
    CloneChangesNoRoute(s);
    GhostsAreLostNames(s, Upsert(route, hostname), s');
    NamesAfterDelete(base, route.id);
    NamesOf(s, base);
    NamesAfterUpsert(base, Render(route), hostname, s'.hosts);
    if OwnsAlone(base, route.id) { assert Stores(s, base[OwnerIndex(base, route.id)].hostname); }
  }

  lemma NamesAfterUpsert(base: seq<HostConfig>, r: RouteConfig, hostname: string, out: seq<HostConfig>)
    requires Upserted(base, r, hostname, out)
    ensures forall name :: HostIndex(out, name) < |out| <==>
      name == hostname || HostIndex(DeleteRoute(base, r.id), name) < |DeleteRoute(base, r.id)|
  {
    var left := DeleteRoute(base, r.id);
    var vi := HostIndex(left, hostname);
    assert forall k :: 0 <= k < |left| ==> out[k].hostname == left[k].hostname;
    assert out[vi].hostname == hostname;
    forall name
      ensures HostIndex(out, name) < |out| <==> name == hostname || HostIndex(left, name) < |left|
    {
      var k, j := HostIndex(out, name), HostIndex(left, name);
      if j < |left| { assert out[j].hostname == name; }
      if k < |left| { assert left[k].hostname == name; }
    }
  }

  /** An upsert keeps the router a mirror of the store exactly when the route was not moved
      away from another host: if that host lives on it becomes stale, else a ghost. */
  lemma UpsertMirrorsExactly(s: State, route: Route, hostname: string, s': State)
    requires UniqueNames(s.hosts) && Mirrors(s) && Next(s, Upsert(route, hostname), s')
    ensures var base := ClonedHosts(s.hosts);
      var vi := OwnerIndex(base, route.id);
      Mirrors(s') <==> !(vi < |base| && base[vi].hostname != hostname)
  {
    var base := ClonedHosts(s.hosts);
    AgreeImpliesCovered(s);
    UpsertAgreesExactly(s, route, hostname, s');
    UpsertLeavesGhostExactly(s, route, hostname, s');
    if OwnerIndex(base, route.id) < |base| { DeleteCases(base, route.id); }
  }

  /** A reload never removes a host: it leaves a ghost exactly when the new configuration
      lacks a stored one. */
  lemma ReloadLeavesGhostExactly(s: State, hosts: seq<HostConfig>, s': State)
    requires AllCovered(s) && NoGhostHost(s) && Next(s, Reload(hosts), s')
    ensures NoGhostHost(s') <==> forall k :: 0 <= k < |s.hosts| ==> HostIndex(hosts, s.hosts[k].hostname) < |hosts|
  {
    GhostsAreLostNames(s, Reload(hosts), s');
    forall k | 0 <= k < |s.hosts| ensures Stores(s, s.hosts[k].hostname) {
    }
  }

  /** In that case the deleted route is still served: a request that its host routed to
      it keeps its answers. */
  lemma GhostHostStillServes(s: State, id: string, s': State, req: Request, found: Option<Route>)
    requires UniqueNames(s.hosts) && AllAgree(s) && Next(s, Delete(id), s')
    requires OwnerIndex(ClonedHosts(s.hosts), id) < |s.hosts|
    requires var owner := s.hosts[OwnerIndex(ClonedHosts(s.hosts), id)];
      |owner.routes| == 1 && NormalizeHost(req.host) == owner.hostname
    ensures IsBestMatch(s'.router, req, found) <==> IsBestMatch(s.router, req, found)
  {
    LastRouteDeleted(s, id, s');
    assert Agrees(s.router, s.hosts[OwnerIndex(ClonedHosts(s.hosts), id)]);
  }

  /** Where a host that keeps a route stands after the delete, with the same settings. */
  lemma HostAfterDelete(base: seq<HostConfig>, id: string, k: nat) returns (k': nat)
    requires UniqueNames(base) && k < |base|
    requires !(k == OwnerIndex(base, id) && |base[k].routes| == 1)
    ensures k' < |DeleteRoute(base, id)| && HostIndex(DeleteRoute(base, id), base[k].hostname) == k'
    ensures DeleteRoute(base, id)[k'].tls == base[k].tls
  {
    var vi := OwnerIndex(base, id);
    var left := DeleteRoute(base, id);
    DeleteKeepsShape(base, id);
    k' := if vi < k && |base[vi].routes| == 1 then k - 1 else k;
    assert left[k'].hostname == base[k].hostname && left[k'].tls == base[k].tls;
  }

  lemma HostGone(base: seq<HostConfig>, id: string, k: nat)
    requires UniqueNames(base) && k < |base|
    requires k == OwnerIndex(base, id) && |base[k].routes| == 1
    ensures HostIndex(DeleteRoute(base, id), base[k].hostname) == |DeleteRoute(base, id)|
  {
    DeleteCases(base, id);
  }

  /** The TLS settings stored for a name; None also if the name is not stored. */
  function TlsOf(hosts: seq<HostConfig>, name: string): Option<TlsConfig> {
    var k := HostIndex(hosts, name);
    if k < |hosts| then hosts[k].tls else None
  }

  /** The name is that of the host whose only route has this id. */
  predicate LosesLast(hosts: seq<HostConfig>, id: string, name: string) {
    OwnsAlone(hosts, id) && hosts[OwnerIndex(hosts, id)].hostname == name
  }

  lemma {:induction false} TlsAfterDelete(base: seq<HostConfig>, id: string, name: string)
    requires UniqueNames(base)
    ensures TlsOf(DeleteRoute(base, id), name) == if LosesLast(base, id, name) then None else TlsOf(base, name)
  {
    var k, left := HostIndex(base, name), DeleteRoute(base, id);
    if k == |base| {
      if HostIndex(left, name) < |left| {
        var j := SurvivorOf(base, id, HostIndex(left, name));
        assert false;
      }
    } else if LosesLast(base, id, name) {
      HostGone(base, id, OwnerIndex(base, id));
    } else {
      var k' := HostAfterDelete(base, id, k);
    }
  }

  lemma {:induction false} TlsAfterUpsert(base: seq<HostConfig>, r: RouteConfig, hostname: string,
      out: seq<HostConfig>, name: string)
    requires UniqueNames(base) && Upserted(base, r, hostname, out)
    ensures TlsOf(out, name) == if LosesLast(base, r.id, name) then None else TlsOf(base, name)
  {
    var left := DeleteRoute(base, r.id);
    TlsAfterDelete(base, r.id, name);
    NamesAfterUpsert(base, r, hostname, out);
    var j, k := HostIndex(left, name), HostIndex(out, name);
    assert forall i :: 0 <= i < |left| ==> out[i].hostname == left[i].hostname && out[i].tls == left[i].tls;
    if j < |left| {
      assert out[j].hostname == name;
      assert k == j;
    } else if k < |out| {
      assert k >= |left|;
    }
  }

  /** An upsert keeps the TLS settings of a host, the one it names or any other, exactly
      when it does not take the host's only route: the host goes then, with its settings,
      and is at best created anew without them. */
  lemma UpsertKeepsTlsExactly(base: seq<HostConfig>, r: RouteConfig, hostname: string, out: seq<HostConfig>, k: nat)
    requires UniqueNames(base) && Upserted(base, r, hostname, out)
    requires k < |base| && base[k].tls.Some?
    ensures TlsOf(out, base[k].hostname) == base[k].tls <==> !(k == OwnerIndex(base, r.id) && |base[k].routes| == 1)
  {
    TlsAfterUpsert(base, r, hostname, out, base[k].hostname);
    assert HostIndex(base, base[k].hostname) == k;
  }

  lemma DeleteKeepsTlsExactly(base: seq<HostConfig>, id: string, k: nat)
    requires UniqueNames(base) && k < |base| && base[k].tls.Some?
    ensures TlsOf(DeleteRoute(base, id), base[k].hostname) == base[k].tls <==>
      !(k == OwnerIndex(base, id) && |base[k].routes| == 1)
  {
    TlsAfterDelete(base, id, base[k].hostname);
    assert HostIndex(base, base[k].hostname) == k;
  }

  // ------------------------------------------------------------------ whole runs

  /** A router built from the initial configuration, as at start-up. */
  ghost predicate Fresh(s: State) {
    UniqueNames(s.hosts) && AppliedAll(map[], s.hosts, true, s.router)
  }

  ghost predicate IsRun(ss: seq<State>, ops: seq<Op>) {
    && |ss| == |ops| + 1 && Fresh(ss[0])
    && (forall k: nat :: k < |ops| ==> StepAt(ss, ops, k))
  }

  ghost predicate StepAt(ss: seq<State>, ops: seq<Op>, k: nat)
    requires k < |ops| < |ss|
  {
    Next(ss[k], ops[k], ss[k + 1]) && (ops[k].Reload? ==> UniqueNames(ops[k].hosts))
  }

  lemma StepKeepsCover(s: State, op: Op, s': State)
    requires UniqueNames(s.hosts) && AllCovered(s) && Next(s, op, s')
    requires op.Reload? ==> UniqueNames(op.hosts)
    ensures UniqueNames(s'.hosts) && AllCovered(s')
  {
    match op
    case Upsert(route, hostname) => UpsertKeepsCover(s, route, hostname, s');
    case Delete(id) =>
      if OwnerIndex(ClonedHosts(s.hosts), id) < |s.hosts| {
        DeleteResyncs(s, id, s');
        AgreeImpliesCovered(s');
      }
    case Reload(hosts) =>
      AppliedAllAgree(s.router, hosts, true, s'.router);
      AgreeImpliesCovered(s');
    case EndpointEdit => CloneChangesNoRoute(s);
  }

  /** Over every run, every (host, route) pair of the store is held by the router under
      that host: a request can never miss a stored route. */
  lemma {:induction false} StoreIsAlwaysCovered(ss: seq<State>, ops: seq<Op>, k: nat)
    requires IsRun(ss, ops) && k < |ss|
    ensures UniqueNames(ss[k].hosts) && AllCovered(ss[k])
  {
    if k == 0 {
      AppliedAllAgree(map[], ss[0].hosts, true, ss[0].router);
      AgreeImpliesCovered(ss[0]);
    } else {
      StoreIsAlwaysCovered(ss, ops, k - 1);
      assert StepAt(ss, ops, k - 1);
      StepKeepsCover(ss[k - 1], ops[k - 1], ss[k]);
    }
  }

  /** End to end: at any point of any run, a request to a stored host that a stored
      route matches is answered with a route of at least that priority. */
  lemma StoredRouteIsServed(ss: seq<State>, ops: seq<Op>, k: nat, hi: nat, r: RouteConfig, req: Request,
      found: Option<Route>)
    requires IsRun(ss, ops) && k < |ss| && hi < |ss[k].hosts| && r in ss[k].hosts[hi].routes
    requires NormalizeHost(req.host) == ss[k].hosts[hi].hostname && MatchesRoute(Compile(r), req)
    requires IsBestMatch(ss[k].router, req, found)
    ensures found.Some? && found.value.priority <= r.priority
  {
    StoreIsAlwaysCovered(ss, ops, k);
    var h := ss[k].hosts[hi];
    assert Covers(ss[k].router, h);
    var i :| 0 <= i < |h.routes| && h.routes[i] == r;
    assert CompileAll(h.routes)[i] == Compile(r);
    assert Compile(r) in multiset(CompileAll(h.routes));
    assert Compile(r) in ss[k].router[h.hostname].routes;
  }

  /** Under that name the router holds a route that does what the stored one says. */
  ghost predicate Held(r: Hosts, name: string, c: RouteConfig) {
    name in r && exists served :: served in r[name].routes && DoesAsStored(served, c)
  }

  lemma {:induction false} CoveredIsHeld(r: Hosts, h: HostConfig, i: nat)
    requires Covers(r, h) && i < |h.routes|
    ensures Held(r, h.hostname, h.routes[i])
  {
    var served := CompileAll(h.routes)[i];
    assert served in multiset(CompileAll(h.routes));
    assert served in r[h.hostname].routes && DoesAsStored(served, h.routes[i]);
  }

  /** Over every run, start-up and reloads included, each stored route is held by the router
      under its host, alike in every field. */
  lemma {:induction false} StoredRouteIsHeld(ss: seq<State>, ops: seq<Op>, k: nat, hi: nat, i: nat)
    requires IsRun(ss, ops) && k < |ss| && hi < |ss[k].hosts| && i < |ss[k].hosts[hi].routes|
    ensures Held(ss[k].router, ss[k].hosts[hi].hostname, ss[k].hosts[hi].routes[i])
  {
    StoreIsAlwaysCovered(ss, ops, k);
    assert Covers(ss[k].router, ss[k].hosts[hi]);
    CoveredIsHeld(ss[k].router, ss[k].hosts[hi], i);
  }

  /** After a start-up or a reload that lists each name once, likewise. */
  lemma {:induction false} LoadedRouteIsHeld(r: Hosts, hosts: seq<HostConfig>, withTls: bool, r': Hosts)
    requires UniqueNames(hosts) && AppliedAll(r, hosts, withTls, r')
    ensures forall hi, i :: 0 <= hi < |hosts| && 0 <= i < |hosts[hi].routes| ==>
      Held(r', hosts[hi].hostname, hosts[hi].routes[i])
  {
    var s := State(hosts, r');
    AppliedAllAgree(r, hosts, withTls, r');
    AgreeImpliesCovered(s);
    forall hi, i | 0 <= hi < |hosts| && 0 <= i < |hosts[hi].routes|
      ensures Held(r', hosts[hi].hostname, hosts[hi].routes[i])
    {
      assert Covers(r', s.hosts[hi]);
      CoveredIsHeld(r', hosts[hi], i);
    }
  }

  /** Handler by handler a run grows. */
  lemma RunExtends(ss: seq<State>, ops: seq<Op>, op: Op, s': State)
    requires IsRun(ss, ops) && Next(ss[|ops|], op, s') && (op.Reload? ==> UniqueNames(op.hosts))
    ensures IsRun(ss + [s'], ops + [op])
  {
    forall k: nat | k <= |ops| ensures StepAt(ss + [s'], ops + [op], k) {
      if k < |ops| { assert StepAt(ss, ops, k); }
    }
  }

  // ------------------------------------------------- what edits lose for good

  /** The step takes the only route of the host of that name. */
  predicate TakesLast(s: State, op: Op, name: string) {
    match op
    case Upsert(route, _) => LosesLast(ClonedHosts(s.hosts), route.id, name)
    case Delete(id) => LosesLast(ClonedHosts(s.hosts), id, name)
    case Reload(_) => false
    case EndpointEdit => false
  }

  lemma {:induction false} TlsOfClone(hosts: seq<HostConfig>, name: string)
    ensures TlsOf(ClonedHosts(hosts), name) == TlsOf(hosts, name)
  {
    var j, k := HostIndex(ClonedHosts(hosts), name), HostIndex(hosts, name);
    if j < |hosts| { assert hosts[j].hostname == name; }
    if k < |hosts| { assert ClonedHosts(hosts)[k].hostname == name; }
  }

  lemma {:induction false} TlsStep(s: State, op: Op, s': State, name: string)
    requires UniqueNames(s.hosts) && Next(s, op, s') && !op.Reload?
    ensures TlsOf(s'.hosts, name) == if TakesLast(s, op, name) then None else TlsOf(s.hosts, name)
  {
    var base := ClonedHosts(s.hosts);
    TlsOfClone(s.hosts, name);
    assert UniqueNames(base) by { CloneChangesNoRoute(s); }
    match op
    case Upsert(route, hostname) => TlsAfterUpsert(base, Render(route), hostname, s'.hosts, name);
    case Delete(id) => TlsAfterDelete(base, id, name);
    case EndpointEdit =>
  }

  /** Some step from j on, before k, does so. */
  predicate TookLast(ss: seq<State>, ops: seq<Op>, j: nat, k: nat, name: string)
    requires k <= |ops| < |ss|
  {
    j < k && (TakesLast(ss[k - 1], ops[k - 1], name) || TookLast(ss, ops, j, k - 1, name))
  }

  /** Over every run without a reload, the stored TLS settings of a name are what they were
      unless some step took the last route of its host; then they are gone, even if a host
      of that name is stored again. */
  lemma {:induction false} TlsSurvivesExactly(ss: seq<State>, ops: seq<Op>, j: nat, k: nat, name: string)
    requires IsRun(ss, ops) && j <= k < |ss| && forall i :: j <= i < k ==> !ops[i].Reload?
    ensures TlsOf(ss[k].hosts, name) == if TookLast(ss, ops, j, k, name) then None else TlsOf(ss[j].hosts, name)
  {
    if j < k {
      TlsSurvivesExactly(ss, ops, j, k - 1, name);
      StoreIsAlwaysCovered(ss, ops, k - 1);
      assert StepAt(ss, ops, k - 1);
      TlsStep(ss[k - 1], ops[k - 1], ss[k], name);
    }
  }

  function RouterTls(r: Hosts, name: string): Option<TlsConfig> { if name in r then r[name].tls else None }

  /** The step rebuilds the router's entry of that name without TLS settings. */
  predicate StripsTls(s: State, op: Op, s': State, name: string) {
    (op.Upsert? && op.hostname == name) || (op.Delete? && Lists(s, op.id) && Stores(s', name))
  }

  lemma {:induction false} RouterTlsStep(s: State, op: Op, s': State, name: string)
    requires Next(s, op, s') && !op.Reload?
    ensures RouterTls(s'.router, name) == if StripsTls(s, op, s', name) then None else RouterTls(s.router, name)
  {
    if op.Delete? && Lists(s, op.id) {
      LastHostExists(s'.hosts, name);
      assert AppliedAt(s.router, s'.hosts, false, s'.router, name);
    }
  }

  predicate StrippedTls(ss: seq<State>, ops: seq<Op>, j: nat, k: nat, name: string)
    requires k <= |ops| < |ss|
  {
    j < k && (StripsTls(ss[k - 1], ops[k - 1], ss[k], name) || StrippedTls(ss, ops, j, k - 1, name))
  }

  /** Only start-up and reloads give a host TLS settings in the router: after one, a stored
      host has its own until the first upsert under it, or the first delete that leaves it
      stored, and none from then on. */
  lemma {:induction false} RouterTlsExactly(ss: seq<State>, ops: seq<Op>, j: nat, k: nat, name: string)
    requires IsRun(ss, ops) && j <= k < |ss| && forall i :: j <= i < k ==> !ops[i].Reload?
    requires (j == 0 || ops[j - 1].Reload?) && Stores(ss[j], name)
    ensures RouterTls(ss[k].router, name) ==
      if StrippedTls(ss, ops, j, k, name) then None else TlsOf(ss[j].hosts, name)
  {
    if j < k {
      RouterTlsExactly(ss, ops, j, k - 1, name);
      assert StepAt(ss, ops, k - 1);
      RouterTlsStep(ss[k - 1], ops[k - 1], ss[k], name);
    } else {
      LoadedTls(ss, ops, j, name);
    }
  }

  lemma {:induction false} LoadedTls(ss: seq<State>, ops: seq<Op>, j: nat, name: string)
    requires IsRun(ss, ops) && j < |ss| && (j == 0 || ops[j - 1].Reload?) && Stores(ss[j], name)
    ensures RouterTls(ss[j].router, name) == TlsOf(ss[j].hosts, name)
  {
    assert UniqueNames(ss[j].hosts) by { StoreIsAlwaysCovered(ss, ops, j); }
    assert AppliedAll(if j == 0 then map[] else ss[j - 1].router, ss[j].hosts, true, ss[j].router) by {
      if j > 0 { assert StepAt(ss, ops, j - 1); }
    }
    AppliedTls(if j == 0 then map[] else ss[j - 1].router, ss[j].hosts, ss[j].router, name);
  }

  lemma {:induction false} AppliedTls(r: Hosts, hosts: seq<HostConfig>, r': Hosts, name: string)
    requires UniqueNames(hosts) && AppliedAll(r, hosts, true, r') && HostIndex(hosts, name) < |hosts|
    ensures RouterTls(r', name) == TlsOf(hosts, name)
  {
    LastHostIsListed(hosts, HostIndex(hosts, name));
    assert AppliedAt(r, hosts, true, r', name);
  }

  /** Position of the latest start-up or reload. */
  function LastLoad(ops: seq<Op>, k: nat): (j: nat)
    requires k <= |ops|
    ensures j <= k
  {
    if k == 0 || ops[k - 1].Reload? then k else LastLoad(ops, k - 1)
  }

  /** Some request since then stored a clone. */
  predicate ClonedSince(ss: seq<State>, ops: seq<Op>, k: nat)
    requires k <= |ops| < |ss|
  {
    k > 0 &&
    match ops[k - 1]
    case Reload(_) => false
    case Delete(id) => Lists(ss[k - 1], id) || ClonedSince(ss, ops, k - 1)
    case Upsert(_, _) => true
    case EndpointEdit => true
  }

  ghost predicate Unlimited(hosts: seq<HostConfig>) { forall k :: 0 <= k < |hosts| ==> hosts[k].rateLimit.None? }

  lemma {:induction false} DeleteKeepsUnlimited(base: seq<HostConfig>, id: string)
    requires Unlimited(base)
    ensures Unlimited(DeleteRoute(base, id))
  {
  }

  lemma {:induction false} EditLosesLimits(s: State, op: Op, s': State)
    requires Next(s, op, s') && !op.Reload? && (op.Delete? ==> Lists(s, op.id))
    ensures Unlimited(s'.hosts)
  {
    var base := ClonedHosts(s.hosts);
    match op
    case Upsert(route, _) => DeleteKeepsUnlimited(base, route.id);
    case Delete(id) => DeleteKeepsUnlimited(base, id);
    case EndpointEdit =>
  }

  /** Cloning leaves rate limits behind: the hosts are as last loaded until the first
      request that stores a clone, and from then on none has a rate limit. */
  lemma {:induction false} RateLimitsSurviveExactly(ss: seq<State>, ops: seq<Op>, k: nat)
    requires IsRun(ss, ops) && k < |ss|
    ensures !ClonedSince(ss, ops, k) ==> ss[k].hosts == ss[LastLoad(ops, k)].hosts
    ensures Unlimited(ss[k].hosts) <==> ClonedSince(ss, ops, k) || Unlimited(ss[LastLoad(ops, k)].hosts)
  {
    if k > 0 && !ops[k - 1].Reload? {
      RateLimitsSurviveExactly(ss, ops, k - 1);
      assert StepAt(ss, ops, k - 1);
      if ops[k - 1].Delete? ==> Lists(ss[k - 1], ops[k - 1].id) {
        EditLosesLimits(ss[k - 1], ops[k - 1], ss[k]);
      }
    }
  }

  // ------------------------------------------------------- exact agreement over runs

  /** Names of the stored hosts that the router serves with too many routes. An upsert
      makes the host it takes the route from stale if that lives on, forgets it if it
      does not, and rebuilds its target; a successful delete or a reload rebuilds all. */
  function StaleAfter(s: State, op: Op, stale: set<string>): set<string> {
    var base := ClonedHosts(s.hosts);
    match op
    case Upsert(route, hostname) => Bereft(base, route.id, stale) - {hostname}
    case Delete(id) => if OwnerIndex(base, id) < |base| then {} else stale
    case Reload(_) => {}
    case EndpointEdit => stale
  }

  /** ... as long as the router is not touched. */
  function Bereft(hosts: seq<HostConfig>, id: string, stale: set<string>): set<string> {
    var vi := OwnerIndex(hosts, id);
    if vi == |hosts| then stale
    else if OwnsAlone(hosts, id) then stale - {hosts[vi].hostname}
    else stale + {hosts[vi].hostname}
  }

  function Stale(ss: seq<State>, ops: seq<Op>, k: nat): set<string>
    requires k <= |ops| < |ss|
  {
    if k == 0 then {} else StaleAfter(ss[k - 1], ops[k - 1], Stale(ss, ops, k - 1))
  }

  /** A stale host is covered, but the router holds more under its name. */
  ghost predicate Overserves(r: Hosts, h: HostConfig) {
    Covers(r, h) && |h.routes| < |r[h.hostname].routes|
  }

  ghost predicate StaleExactly(s: State, stale: set<string>) {
    && UniqueNames(s.hosts)
    && (forall name :: name in stale ==> Stores(s, name))
    && (forall k :: 0 <= k < |s.hosts| ==> Stands(s.router, s.hosts[k], s.hosts[k].hostname in stale))
  }

  ghost predicate Stands(r: Hosts, h: HostConfig, stale: bool) {
    if stale then Overserves(r, h) else Agrees(r, h)
  }

  lemma OverservedDisagrees(r: Hosts, h: HostConfig)
    requires Overserves(r, h)
    ensures !Agrees(r, h)
  {
    var a, b := CompileAll(h.routes), r[h.hostname].routes;
    assert |multiset(a)| < |multiset(b)|;
  }

  /** A host that loses a route while the router keeps its entry is overserved. */
  lemma LosingARoute(r: Hosts, h: HostConfig, k: nat, stale: bool)
    requires k < |h.routes| && Stands(r, h, stale)
    ensures Overserves(r, h.(routes := DropAt(h.routes, k)))
  {
    var a, b := CompileAll(h.routes), r[h.hostname].routes;
    CompileDrop(h.routes, k);
    if !stale { assert |multiset(a)| == |multiset(b)|; }
  }

  /** Deleting a route from the store alone. */
  lemma DeleteMakesStale(base: seq<HostConfig>, r: Hosts, stale: set<string>, id: string)
    requires StaleExactly(State(base, r), stale)
    ensures StaleExactly(State(DeleteRoute(base, id), r), Bereft(base, id, stale))
  {
    var left, stale' := DeleteRoute(base, id), Bereft(base, id, stale);
    DeleteKeepsShape(base, id);
    forall k: nat | k < |left| ensures Stands(r, left[k], left[k].hostname in stale') {
      StandsAfterDelete(base, r, stale, id, k);
    }
    NamesAfterDelete(base, id);
    forall name | name in stale' ensures HostIndex(left, name) < |left| {
      assert base[HostIndex(base, name)].hostname == name;
    }
  }

  lemma StandsAfterDelete(base: seq<HostConfig>, r: Hosts, stale: set<string>, id: string, k: nat)
    requires StaleExactly(State(base, r), stale) && k < |DeleteRoute(base, id)|
    ensures var h := DeleteRoute(base, id)[k]; Stands(r, h, h.hostname in Bereft(base, id, stale))
  {
    var j := SurvivorOf(base, id, k);
    var h := base[j];
    assert Stands(r, h, h.hostname in stale);
    if j == OwnerIndex(base, id) { LosingARoute(r, h, RouteIndex(h.routes, id), h.hostname in stale); }
  }

  /** Adding a route to the store and rebuilding its host. */
  lemma RebuildHeals(left: seq<HostConfig>, r: Hosts, stale: set<string>, hostname: string, out: seq<HostConfig>,
      r': Hosts)
    requires StaleExactly(State(left, r), stale) && UniqueNames(out)
    requires HostIndex(out, hostname) < |out| && Applied(r, out[HostIndex(out, hostname)], None, r')
    requires forall k :: 0 <= k < |out| && out[k].hostname != hostname ==> k < |left| && out[k] == left[k]
    requires forall name :: HostIndex(left, name) < |left| ==> HostIndex(out, name) < |out|
    ensures StaleExactly(State(out, r'), stale - {hostname})
  {
    AppliedHostAgrees(r, out[HostIndex(out, hostname)], None, r');
    forall k: nat | k < |out| ensures Stands(r', out[k], out[k].hostname in stale - {hostname}) {
      if out[k].hostname != hostname { assert Stands(r, left[k], left[k].hostname in stale); }
    }
  }

  lemma UpsertKeepsStale(s: State, route: Route, hostname: string, s': State, stale: set<string>)
    requires StaleExactly(s, stale) && Next(s, Upsert(route, hostname), s')
    ensures StaleExactly(s', StaleAfter(s, Upsert(route, hostname), stale))
  {
    var base, r := ClonedHosts(s.hosts), Render(route);
    CloneKeepsStale(s, stale);
    DeleteMakesStale(base, s.router, stale, route.id);
    UpsertKeepsShape(base, r, hostname, s'.hosts);
    NamesAfterUpsert(base, r, hostname, s'.hosts);
    forall k: nat | k < |s'.hosts| && s'.hosts[k].hostname != hostname
      ensures k < |DeleteRoute(base, r.id)| && s'.hosts[k] == DeleteRoute(base, r.id)[k]
    {
      UpsertedHost(base, r, hostname, s'.hosts, k);
    }
    RebuildHeals(DeleteRoute(base, r.id), s.router, Bereft(base, r.id, stale), hostname, s'.hosts, s'.router);
  }

  lemma CloneKeepsStale(s: State, stale: set<string>)
    requires StaleExactly(s, stale)
    ensures StaleExactly(State(ClonedHosts(s.hosts), s.router), stale)
  {
    var base := ClonedHosts(s.hosts);
    CloneChangesNoRoute(s);
    forall name | name in stale ensures HostIndex(base, name) < |base| {
      assert base[HostIndex(s.hosts, name)].hostname == name;
    }
    forall k | 0 <= k < |base| ensures Stands(s.router, base[k], base[k].hostname in stale) {
      assert Stands(s.router, s.hosts[k], s.hosts[k].hostname in stale);
    }
  }

  lemma AgreementIsNoStale(s: State)
    requires UniqueNames(s.hosts) && AllAgree(s)
    ensures StaleExactly(s, {})
  {
    forall k | 0 <= k < |s.hosts| ensures Stands(s.router, s.hosts[k], false) {
      assert Agrees(s.router, s.hosts[k]);
    }
  }

  lemma StepKeepsStale(s: State, op: Op, s': State, stale: set<string>)
    requires StaleExactly(s, stale) && Next(s, op, s')
    requires op.Reload? ==> UniqueNames(op.hosts)
    ensures StaleExactly(s', StaleAfter(s, op, stale))
  {
    match op
    case Upsert(route, hostname) => UpsertKeepsStale(s, route, hostname, s', stale);
    case Delete(id) =>
      if OwnerIndex(ClonedHosts(s.hosts), id) < |s.hosts| {
        DeleteResyncs(s, id, s');
        AgreementIsNoStale(s');
      }
    case Reload(hosts) =>
      AppliedAllAgree(s.router, hosts, true, s'.router);
      AgreementIsNoStale(s');
    case EndpointEdit => CloneKeepsStale(s, stale);
  }

  lemma {:induction false} StaleHolds(ss: seq<State>, ops: seq<Op>, k: nat)
    requires IsRun(ss, ops) && k < |ss|
    ensures StaleExactly(ss[k], Stale(ss, ops, k))
  {
    if k == 0 {
      AppliedAllAgree(map[], ss[0].hosts, true, ss[0].router);
      AgreementIsNoStale(ss[0]);
    } else {
      StaleHolds(ss, ops, k - 1);
      assert StepAt(ss, ops, k - 1);
      StepKeepsStale(ss[k - 1], ops[k - 1], ss[k], Stale(ss, ops, k - 1));
    }
  }

  /** Over every run, the router agrees with a stored host exactly when the host is not
      stale, and with all of them exactly when none is. */
  lemma AgreementExactly(ss: seq<State>, ops: seq<Op>, k: nat)
    requires IsRun(ss, ops) && k < |ss|
    ensures forall i :: 0 <= i < |ss[k].hosts| ==>
      (Agrees(ss[k].router, ss[k].hosts[i]) <==> ss[k].hosts[i].hostname !in Stale(ss, ops, k))
    ensures AllAgree(ss[k]) <==> Stale(ss, ops, k) == {}
  {
    var s, stale := ss[k], Stale(ss, ops, k);
    StaleHolds(ss, ops, k);
    forall i | 0 <= i < |s.hosts| ensures Agrees(s.router, s.hosts[i]) <==> s.hosts[i].hostname !in stale {
      assert Stands(s.router, s.hosts[i], s.hosts[i].hostname in stale);
      if s.hosts[i].hostname in stale { OverservedDisagrees(s.router, s.hosts[i]); }
    }
    if stale != {} {
      var name :| name in stale;
      assert s.hosts[HostIndex(s.hosts, name)].hostname == name;
    }
  }

  /** Some state of the run up to position k stores the name. */
  ghost predicate EverStored(ss: seq<State>, k: nat, name: string)
    requires k < |ss|
  {
    exists j: nat :: j <= k && Stores(ss[j], name)
  }

  /** Over every run, the router serves exactly the names that were ever stored. */
  lemma {:induction false} RouterNeverForgets(ss: seq<State>, ops: seq<Op>, k: nat, name: string)
    requires IsRun(ss, ops) && k < |ss|
    ensures name in ss[k].router <==> EverStored(ss, k, name)
  {
    if Stores(ss[k], name) {
      StoreIsAlwaysCovered(ss, ops, k);
      assert Covers(ss[k].router, ss[k].hosts[HostIndex(ss[k].hosts, name)]);
    } else if k == 0 {
      LastHostExists(ss[0].hosts, name);
      assert AppliedAt(map[], ss[0].hosts, true, ss[0].router, name);
    } else {
      RouterNeverForgets(ss, ops, k - 1, name);
      assert StepAt(ss, ops, k - 1);
      RouterEntry(ss[k - 1], ops[k - 1], ss[k], name);
      if EverStored(ss, k, name) {
        var j: nat :| j <= k && Stores(ss[j], name);
        assert EverStored(ss, k - 1, name);
      }
    }
  }

  /** What the router holds under a name stays as it is while the store lacks the name. */
  lemma {:induction false} GhostEntryIsFrozen(ss: seq<State>, ops: seq<Op>, j: nat, k: nat, name: string)
    requires IsRun(ss, ops) && j <= k < |ss| && name in ss[j].router
    requires forall i :: j < i <= k ==> !Stores(ss[i], name)
    ensures name in ss[k].router && ss[k].router[name] == ss[j].router[name]
  {
    if j < k {
      GhostEntryIsFrozen(ss, ops, j, k - 1, name);
      assert StepAt(ss, ops, k - 1);
      RouterEntry(ss[k - 1], ops[k - 1], ss[k], name);
    }
  }

  /** The router holds the store's hosts and nothing else, each with its stored routes,
      exactly when no host is stale and no name that was ever stored has left. */
  lemma RouterIsStoreExactly(ss: seq<State>, ops: seq<Op>, k: nat)
    requires IsRun(ss, ops) && k < |ss|
    ensures Mirrors(ss[k]) <==>
      Stale(ss, ops, k) == {} && forall name :: EverStored(ss, k, name) ==> Stores(ss[k], name)
  {
    AgreementExactly(ss, ops, k);
    forall name ensures name in ss[k].router <==> EverStored(ss, k, name) {
      RouterNeverForgets(ss, ops, k, name);
    }
  }

  /** The stored configuration read as a table of hosts, its routes in any order. */
  function Table(hosts: seq<HostConfig>): Hosts {
    if hosts == [] then map[] else
      Table(hosts[..|hosts| - 1])[hosts[|hosts| - 1].hostname := CompileHost(hosts[|hosts| - 1])]
  }

  lemma {:induction false} TableHolds(hosts: seq<HostConfig>, name: string)
    ensures name in Table(hosts) <==> LastHost(hosts, name).Some?
    ensures name in Table(hosts) ==> Table(hosts)[name] == CompileHost(LastHost(hosts, name).value)
  {
    if hosts != [] { TableHolds(hosts[..|hosts| - 1], name); }
  }

  /** Both tables have the name or neither, and with the same routes. */
  ghost predicate SameRoutes(a: Hosts, b: Hosts, name: string) {
    && (name in a <==> name in b)
    && (name in a ==> forall r :: r in a[name].routes <==> r in b[name].routes)
  }

  lemma {:induction false} SameRoutesSameAnswers(a: Hosts, b: Hosts, req: Request, found: Option<Route>)
    requires SameRoutes(a, b, NormalizeHost(req.host)) && SameRoutes(a, b, "*")
    ensures IsBestMatch(a, req, found) <==> IsBestMatch(b, req, found)
  {
  }

  /** The name is not stale, and not one that was stored once and has left. */
  ghost predicate UpToDate(ss: seq<State>, ops: seq<Op>, k: nat, name: string)
    requires k <= |ops| < |ss|
  {
    name !in Stale(ss, ops, k) && (EverStored(ss, k, name) ==> Stores(ss[k], name))
  }

  lemma {:induction false} UpToDateRoutes(ss: seq<State>, ops: seq<Op>, k: nat, name: string)
    requires IsRun(ss, ops) && k < |ss| && UpToDate(ss, ops, k, name)
    ensures SameRoutes(ss[k].router, Table(ss[k].hosts), name)
  {
    var s := ss[k];
    TableHolds(s.hosts, name);
    LastHostExists(s.hosts, name);
    RouterNeverForgets(ss, ops, k, name);
    if Stores(s, name) {
      var i := HostIndex(s.hosts, name);
      assert EverStored(ss, k, name);
      assert UniqueNames(s.hosts) by { StoreIsAlwaysCovered(ss, ops, k); }
      LastHostIsListed(s.hosts, i);
      assert Agrees(s.router, s.hosts[i]) by { AgreementExactly(ss, ops, k); }
      SameMembers(CompileAll(s.hosts[i].routes), s.router[name].routes);
    }
  }

  lemma {:induction false} SameMembers(a: seq<Route>, b: seq<Route>)
    requires multiset(a) == multiset(b)
    ensures forall r :: r in a <==> r in b
  {
    forall r ensures r in a <==> r in b {
      assert r in multiset(a) <==> r in multiset(b);
    }
  }

  /** End to end, over every run: if neither the request's host nor the wildcard is stale or
      was lost, the router's right answers are those of the naive search over the stored
      configuration. */
  lemma {:induction false} AnswersFollowTheStore(ss: seq<State>, ops: seq<Op>, k: nat, req: Request,
      found: Option<Route>)
    requires IsRun(ss, ops) && k < |ss|
    requires UpToDate(ss, ops, k, NormalizeHost(req.host)) && UpToDate(ss, ops, k, "*")
    ensures IsBestMatch(ss[k].router, req, found) <==> IsBestMatch(Table(ss[k].hosts), req, found)
  {
    UpToDateRoutes(ss, ops, k, NormalizeHost(req.host));
    UpToDateRoutes(ss, ops, k, "*");
    SameRoutesSameAnswers(ss[k].router, Table(ss[k].hosts), req, found);
  }

  // ------------------------------------------------------------------ start-up

  function CompileHost(h: HostConfig): VirtualHost { VirtualHost(h.hostname, CompileAll(h.routes), h.tls) }

  function CompileHosts(hosts: seq<HostConfig>): (vhs: seq<VirtualHost>)
    ensures |vhs| == |hosts| && forall k :: 0 <= k < |vhs| ==> vhs[k] == CompileHost(hosts[k])
  {
    seq(|hosts|, k requires 0 <= k < |hosts| => CompileHost(hosts[k]))
  }

  lemma {:induction false} LastListedIsLastHost(hosts: seq<HostConfig>, name: string)
    ensures LastListed(CompileHosts(hosts), name) ==
      if LastHost(hosts, name).None? then None else Some(CompileHost(LastHost(hosts, name).value))
    ensures LastHost(hosts, name).Some? ==> LastHost(hosts, name).value.hostname == name
  {
    if hosts != [] {
      LastListedIsLastHost(hosts[..|hosts| - 1], name);
      assert CompileHosts(hosts)[..|hosts| - 1] == CompileHosts(hosts[..|hosts| - 1]);
    }
  }

  /** The router built at start-up is what patching an empty one host by host gives. */
  lemma StartUpIsFresh(hosts: seq<HostConfig>, router: Hosts)
    requires UniqueNames(hosts) && BuiltFrom(CompileHosts(hosts), router)
    ensures Fresh(State(hosts, router))
  {
    forall name ensures AppliedAt(map[], hosts, true, router, name) {
      LastListedIsLastHost(hosts, name);
      assert match LastListed(CompileHosts(hosts), name)
        case None => name !in router
        case Some(vh) =>
          && name in router && IsSortOf(vh.routes, router[name].routes, PriorityOf)
          && router[name] == vh.(routes := router[name].routes);
    }
  }
}
