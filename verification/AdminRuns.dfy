/** Whole runs of the admin API object: any sequence of requests and reloads. */
module AdminRuns {
  import opened Config
  import opened ConfigObjects
  import opened ControlPlane
  import R = Router
  import C = Coherence
  import P = Pools

  datatype Request =
    | AddRoute(body: RouteBody)
    | UpdateRoute(id: string, body: RouteBody)
    | DeleteRoute(id: string)
    | AddEndpoint(pool: string, id: string, address: string, weight: int)
    | RemoveEndpoint(pool: string, id: string)
    | Reload(cfg: ConfigObject)

  /** The steps taken since start-up: the states of store and router, and the edits of
      pools and balancers from the pools first loaded. */
  datatype Trace = Trace(states: seq<C.State>, ops: seq<C.Op>, pools: seq<PoolConfig>, edits: seq<P.Op>)

  /** The trace ends in these states. */
  ghost predicate Leads(t: Trace, routing: C.State, serving: P.State) {
    && C.IsRun(t.states, t.ops) && t.states[|t.ops|] == routing
    && P.Run(t.pools, t.edits) == serving
  }

  function Extend(t: Trace, op: C.Op, routing: C.State, edit: P.Op): Trace {
    Trace(t.states + [routing], t.ops + [op], t.pools, t.edits + [edit])
  }

  lemma LeadsOn(t: Trace, s: C.State, p: P.State, op: C.Op, s': C.State, edit: P.Op, p': P.State)
    requires Leads(t, s, p) && C.Next(s, op, s') && (op.Reload? ==> UniqueNames(op.hosts))
    requires p' == P.Next(p, edit)
    ensures Leads(Extend(t, op, s', edit), s', p')
  {
    C.RunExtends(t.states, t.ops, op, s');
    assert (t.edits + [edit])[..|t.edits|] == t.edits;
  }

  /** A trace begins with what start-up builds. */
  lemma StartLeads(cfg: OusiaConfig, router: R.Hosts)
    requires UniqueNames(cfg.hosts) && R.BuiltFrom(C.CompileHosts(cfg.hosts), router)
    ensures Leads(Trace([C.State(cfg.hosts, router)], [], cfg.pools, []),
      C.State(cfg.hosts, router), P.State(cfg.pools, P.Reloaded(map[], cfg.pools)))
  {
    C.StartUpIsFresh(cfg.hosts, router);
  }

  /** A reload brings a valid configuration with unique host names, which nobody edits. */
  ghost predicate Acceptable(req: Request, kept: set<object>)
    reads if req.Reload? then {req.cfg} + req.cfg.Repr else {}
  {
    req.Reload? ==> req.cfg.Valid() && req.cfg.Repr <= kept && UniqueNames(req.cfg.view.hosts)
  }

  /** A configuration whose memory was not written is as valid as before and has the same
      value. */
  twostate lemma SnapshotKeepsValue(c: ConfigObject, kept: set<object>)
    requires old(c.Valid()) && old(c.Repr) <= kept && unchanged(kept)
    ensures c.Valid() && c.view == old(c.view)
  {
  }

  lemma RouteStored(t: Trace, s: C.State, p: P.State, body: RouteBody, s': C.State, p': P.State)
    requires Leads(t, s, p) && C.UpsertStep(s, RouteOf(body), body.virtualHost, s') && p' == P.Refreshed(p)
    ensures Leads(Extend(t, C.Upsert(RouteOf(body), body.virtualHost), s', P.RouteEdit), s', p')
  {
    LeadsOn(t, s, p, C.Upsert(RouteOf(body), body.virtualHost), s', P.RouteEdit, p');
  }

  method PostRoute(api: AdminAPI, body: RouteBody, ghost kept: set<object>, ghost t: Trace) returns (ghost t': Trace)
    requires api.Valid() && api.Apart(kept) && Leads(t, api.Routing(), api.Serving())
    modifies api.store, api.router
    ensures api.Valid() && unchanged(kept) && Leads(t', api.Routing(), api.Serving())
  {
    ghost var s, p := api.Routing(), api.Serving();
    var status := api.AddRoute(body, kept);
    t' := t;
    if status == Created {
      RouteStored(t, s, p, body, api.Routing(), api.Serving());
      t' := Extend(t, C.Upsert(RouteOf(body), body.virtualHost), api.Routing(), P.RouteEdit);
    }
  }

  method PutRoute(api: AdminAPI, id: string, body: RouteBody, ghost kept: set<object>, ghost t: Trace)
    returns (ghost t': Trace)
    requires api.Valid() && api.Apart(kept) && Leads(t, api.Routing(), api.Serving())
    modifies api.store, api.router
    ensures api.Valid() && unchanged(kept) && Leads(t', api.Routing(), api.Serving())
  {
    ghost var s, p, named := api.Routing(), api.Serving(), body.(id := id);
    var status := api.UpdateRoute(id, body, kept);
    t' := t;
    if status == Ok {
      RouteStored(t, s, p, named, api.Routing(), api.Serving());
      t' := Extend(t, C.Upsert(RouteOf(named), body.virtualHost), api.Routing(), P.RouteEdit);
    }
  }

  lemma RouteDropped(t: Trace, s: C.State, p: P.State, id: string, s': C.State, p': P.State)
    requires Leads(t, s, p) && C.DeleteStep(s, id, s') && p' == P.Refreshed(p)
    ensures Leads(Extend(t, C.Delete(id), s', P.RouteEdit), s', p')
  {
    LeadsOn(t, s, p, C.Delete(id), s', P.RouteEdit, p');
  }

  method DropRoute(api: AdminAPI, id: string, ghost kept: set<object>, ghost t: Trace) returns (ghost t': Trace)
    requires api.Valid() && api.Apart(kept) && Leads(t, api.Routing(), api.Serving())
    modifies api.store, api.router
    ensures api.Valid() && unchanged(kept) && Leads(t', api.Routing(), api.Serving())
  {
    ghost var s, p := api.Routing(), api.Serving();
    var status := api.DeleteRoute(id, kept);
    t' := t;
    if status == Ok {
      RouteDropped(t, s, p, id, api.Routing(), api.Serving());
      t' := Extend(t, C.Delete(id), api.Routing(), P.RouteEdit);
    }
  }

  method EditPool(api: AdminAPI, req: Request, ghost kept: set<object>, ghost t: Trace) returns (ghost t': Trace)
    requires req.AddEndpoint? || req.RemoveEndpoint?
    requires api.Valid() && api.Apart(kept) && Leads(t, api.Routing(), api.Serving())
    modifies api`balancers, api.store
    ensures api.Valid() && unchanged(kept) && Leads(t', api.Routing(), api.Serving())
  {
    ghost var s, p := api.Routing(), api.Serving();
    ghost var edit;
    var status;
    if req.AddEndpoint? {
      edit := P.AddEndpoint(EndpointConfig(req.id, req.address, P.DefaultWeight(req.weight), map[]));
      status := api.AddEndpoint(req.pool, req.id, req.address, req.weight, kept);
    } else {
      edit := P.RemoveEndpoint(req.id);
      status := api.RemoveEndpoint(req.pool, req.id, kept);
    }
    t' := t;
    if status == Ok || status == Created {
      t' := Extend(t, C.EndpointEdit, api.Routing(), P.Edit(req.pool, edit));
      LeadsOn(t, s, p, C.EndpointEdit, api.Routing(), P.Edit(req.pool, edit), api.Serving());
    }
  }

  /** One request; the trace grows by a step unless the request is rejected. */
  method Handle(api: AdminAPI, req: Request, ghost kept: set<object>, ghost t: Trace) returns (ghost t': Trace)
    requires api.Valid() && api.Apart(kept) && Acceptable(req, kept)
    requires Leads(t, api.Routing(), api.Serving())
    modifies api`balancers, api.store, api.router
    ensures api.Valid() && unchanged(kept) && Leads(t', api.Routing(), api.Serving())
  {
    ghost var s, p := api.Routing(), api.Serving();
    match req {
      case AddRoute(body) => t' := PostRoute(api, body, kept, t);
      case UpdateRoute(id, body) => t' := PutRoute(api, id, body, kept, t);
      case DeleteRoute(id) => t' := DropRoute(api, id, kept, t);
      case AddEndpoint(_, _, _, _) => t' := EditPool(api, req, kept, t);
      case RemoveEndpoint(_, _) => t' := EditPool(api, req, kept, t);
      case Reload(cfg) =>
        api.Reload(cfg, kept);
        t' := Extend(t, C.Reload(cfg.view.hosts), api.Routing(), P.Reload(cfg.view.pools));
        LeadsOn(t, s, p, C.Reload(cfg.view.hosts), api.Routing(), P.Reload(cfg.view.pools), api.Serving());
    }
  }

  /** Any sequence of requests, on the heap: the router covers the store at its end and
      serves exactly the names ever stored, it agrees with every stored host exactly when
      none is stale, the balancers match the pools if all that was loaded was loadable,
      and nothing in `kept`, such as the configurations handed out
      before with all their lists, was written. */
  method Serve(api: AdminAPI, reqs: seq<Request>, ghost kept: set<object>, ghost t: Trace) returns (ghost t': Trace)
    requires api.Valid() && api.Apart(kept) && Leads(t, api.Routing(), api.Serving())
    requires forall k :: 0 <= k < |reqs| ==> Acceptable(reqs[k], kept)
    modifies api`balancers, api.store, api.router
    ensures api.Valid() && unchanged(kept) && Leads(t', api.Routing(), api.Serving())
    ensures C.AllCovered(api.Routing())
    ensures C.AllAgree(api.Routing()) <==> C.Stale(t'.states, t'.ops, |t'.ops|) == {}
    ensures forall name :: name in api.router.hosts <==> C.EverStored(t'.states, |t'.ops|, name)
    ensures P.AllLoadable(t'.pools, t'.edits) ==> P.Coherent(api.Serving())
  {
    t' := t;
    for k := 0 to |reqs|
      invariant api.Valid() && unchanged(kept)
      invariant forall j :: 0 <= j < |reqs| ==> Acceptable(reqs[j], kept)
      invariant Leads(t', api.Routing(), api.Serving())
    {
      t' := Handle(api, reqs[k], kept, t');
    }
    RunFacts(t', api.Routing(), api.Serving());
  }

  lemma RunFacts(t: Trace, routing: C.State, serving: P.State)
    requires Leads(t, routing, serving)
    ensures C.AllCovered(routing)
    ensures C.AllAgree(routing) <==> C.Stale(t.states, t.ops, |t.ops|) == {}
    ensures forall name :: name in routing.router <==> C.EverStored(t.states, |t.ops|, name)
    ensures P.AllLoadable(t.pools, t.edits) ==> P.Coherent(serving)
  {
    C.StoreIsAlwaysCovered(t.states, t.ops, |t.ops|);
    C.AgreementExactly(t.states, t.ops, |t.ops|);
    forall name ensures name in routing.router <==> C.EverStored(t.states, |t.ops|, name) {
      C.RouterNeverForgets(t.states, t.ops, |t.ops|, name);
    }
    if P.AllLoadable(t.pools, t.edits) { P.PoolsStayCoherent(t.pools, t.edits); }
  }
}
