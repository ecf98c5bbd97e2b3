/** Upstream pools in the store and the balancers that serve them. */
module Pools {
  import opened Common
  import opened RoundRobin
  import opened Config

  /** A balancer as the control plane sees it: its algorithm and its ordered endpoints. */
  datatype Member = Member(id: string, address: string, weight: int, meta: map<string, string>)

  datatype Balancer = Balancer(algorithm: string, members: seq<Member>)

  type Balancers = map<string, Balancer>

  function MemberId(m: Member): string { m.id }

  /** The algorithms the balancer factory knows; ip-hash is not among them. */
  predicate KnownAlgorithm(algorithm: string) {
    algorithm == "round-robin" || algorithm == "" || algorithm == "wrr" || algorithm == "least-conn"
  }

  function DefaultWeight(w: int): int { if w <= 0 then 1 else w }

  /** The endpoint a reload builds from its configuration: only weight 0 is replaced. */
  function LoadMember(e: EndpointConfig): Member {
    Member(e.id, e.address, if e.weight == 0 then 1 else e.weight, e.meta)
  }

  function LoadMembers(es: seq<EndpointConfig>): (ms: seq<Member>)
    ensures |ms| == |es| && forall k :: 0 <= k < |ms| ==> ms[k] == LoadMember(es[k])
  {
    seq(|es|, k requires 0 <= k < |es| => LoadMember(es[k]))
  }

  // -------------------------------------------------------------------- store edits

  datatype PoolEdit = AddEndpoint(endpoint: EndpointConfig) | RemoveEndpoint(id: string)

  datatype EditError = PoolNotFound | EndpointExists | EndpointNotFound

  datatype ListResult = Changed(endpoints: seq<EndpointConfig>) | Refused(error: EditError)

  datatype EditResult = Edited(pools: seq<PoolConfig>) | Rejected(error: EditError)

  function PoolName(p: PoolConfig): string { p.name }

  function EndpointId(e: EndpointConfig): string { e.id }

  function PoolIndex(pools: seq<PoolConfig>, name: string): nat { IndexBy(pools, PoolName, name) }

  function EndpointIndex(es: seq<EndpointConfig>, id: string): nat { IndexBy(es, EndpointId, id) }

  function EditList(es: seq<EndpointConfig>, edit: PoolEdit): ListResult {
    match edit
    case AddEndpoint(e) =>
      if EndpointIndex(es, e.id) < |es| then Refused(EndpointExists) else Changed(es + [e])
    case RemoveEndpoint(id) =>
      var ei := EndpointIndex(es, id);
      if ei == |es| then Refused(EndpointNotFound) else Changed(DropAt(es, ei))
  }

  function EditPool(pools: seq<PoolConfig>, name: string, edit: PoolEdit): EditResult {
    var ui := PoolIndex(pools, name);
    if ui == |pools| then Rejected(PoolNotFound)
    else
      match EditList(pools[ui].endpoints, edit)
      case Changed(es) => Edited(pools[ui := pools[ui].(endpoints := es)])
      case Refused(e) => Rejected(e)
  }

  /** What the balancer does for the same edit: it appends, or drops every member with
      the id. */
  function EditBalancer(b: Balancer, edit: PoolEdit): Balancer {
    match edit
    case AddEndpoint(e) => b.(members := b.members + [Member(e.id, e.address, e.weight, e.meta)])
    case RemoveEndpoint(id) => b.(members := Without(b.members, MemberId, id))
  }

  // ---------------------------------------------------------------------- coherence

  /** What a client can tell of a member. */
  datatype Seen = Seen(id: string, address: string, weight: nat)

  function SeenConfig(e: EndpointConfig): Seen { Seen(e.id, e.address, EffectiveWeight(e.weight)) }

  function SeenMember(m: Member): Seen { Seen(m.id, m.address, EffectiveWeight(m.weight)) }

  /** The pool's ordered endpoints are the balancer's. */
  ghost predicate Matches(p: PoolConfig, b: Balancer) {
    |p.endpoints| == |b.members| &&
    forall k :: 0 <= k < |b.members| ==> SeenConfig(p.endpoints[k]) == SeenMember(b.members[k])
  }

  datatype State = State(pools: seq<PoolConfig>, balancers: Balancers)

  ghost predicate Coherent(s: State) {
    forall k :: 0 <= k < |s.pools| ==>
      s.pools[k].name in s.balancers && Matches(s.pools[k], s.balancers[s.pools[k].name])
  }

  ghost predicate UniqueEndpoints(es: seq<EndpointConfig>) {
    forall i, j :: 0 <= i < j < |es| ==> es[i].id != es[j].id
  }

  /** Pool names are unique, and endpoint ids within each pool. */
  ghost predicate WellNamed(pools: seq<PoolConfig>) {
    && (forall i, j :: 0 <= i < j < |pools| ==> pools[i].name != pools[j].name)
    && (forall k :: 0 <= k < |pools| ==> UniqueEndpoints(pools[k].endpoints))
  }

  /** The last pool of that name. */
  function LastPool(pools: seq<PoolConfig>, name: string): Option<PoolConfig> {
    if pools == [] then None
    else if pools[|pools| - 1].name == name then Some(pools[|pools| - 1])
    else LastPool(pools[..|pools| - 1], name)
  }

  /** The balancers after a reload: pools of an unknown algorithm are skipped, and no
      balancer is ever dropped. */
  function Reloaded(bs: Balancers, pools: seq<PoolConfig>): Balancers {
    if pools == [] then bs else
      var before, p := Reloaded(bs, pools[..|pools| - 1]), pools[|pools| - 1];
      if KnownAlgorithm(p.algorithm) then before[p.name := Balancer(p.algorithm, LoadMembers(p.endpoints))] else before
  }

  datatype Op = Edit(pool: string, edit: PoolEdit) | Reload(pools: seq<PoolConfig>) | RouteEdit

  /** Endpoint request: a pool without balancer, or an edit the store rejects, changes
      neither side. A route edit stores a clone and leaves the balancers alone. */
  function Next(s: State, op: Op): State {
    match op
    case Edit(name, edit) => if Accepts(s, name, edit) then EditStep(s, name, edit) else s
    case Reload(pools) => ReloadStep(s, pools)
    case RouteEdit => Refreshed(s)
  }

  /** The pool has a balancer, and the store's copy takes the edit. */
  predicate Accepts(s: State, name: string, edit: PoolEdit) {
    name in s.balancers && EditPool(ClonedPools(s.pools), name, edit).Edited?
  }

  function EditStep(s: State, name: string, edit: PoolEdit): State
    requires Accepts(s, name, edit)
  {
    State(EditPool(ClonedPools(s.pools), name, edit).pools, s.balancers[name := EditBalancer(s.balancers[name], edit)])
  }

  function ReloadStep(s: State, pools: seq<PoolConfig>): State { State(pools, Reloaded(s.balancers, pools)) }

  function Refreshed(s: State): State { State(ClonedPools(s.pools), s.balancers) }

  /** The id occurs nowhere but at position k. */
  ghost predicate OnlyAt(es: seq<EndpointConfig>, k: nat)
    requires k < |es|
  {
    forall j :: 0 <= j < |es| && j != k ==> es[j].id != es[k].id
  }

  /** Removing an endpoint keeps pool and balancer matched exactly when its id occurs once
      in the pool: the store drops the first occurrence, the balancer every one. */
  lemma RemoveMatchesExactly(p: PoolConfig, b: Balancer, id: string)
    requires Matches(p, b) && EndpointIndex(p.endpoints, id) < |p.endpoints|
    ensures var k := EndpointIndex(p.endpoints, id);
      Matches(p.(endpoints := DropAt(p.endpoints, k)), EditBalancer(b, RemoveEndpoint(id))) <==> OnlyAt(p.endpoints, k)
  {
    var k := EndpointIndex(p.endpoints, id);
    assert forall j :: 0 <= j < |b.members| ==> SeenConfig(p.endpoints[j]) == SeenMember(b.members[j]);
    WithoutDropsOneExactly(b.members, MemberId, k);
  }

  /** The edited pool and the edited balancer still match. */
  lemma EditKeepsMatch(pools: seq<PoolConfig>, name: string, edit: PoolEdit, b: Balancer)
    requires PoolIndex(pools, name) < |pools| && EditPool(pools, name, edit).Edited?
    requires var p := pools[PoolIndex(pools, name)]; Matches(p, b) && UniqueEndpoints(p.endpoints)
    ensures var p' := EditPool(pools, name, edit).pools[PoolIndex(pools, name)];
      Matches(p', EditBalancer(b, edit)) && UniqueEndpoints(p'.endpoints)
  {
    var p := pools[PoolIndex(pools, name)];
    if edit.RemoveEndpoint? {
      RemoveMatchesExactly(p, b, edit.id);
    }
  }

  lemma CloneChangesNoPool(s: State)
    ensures var c := State(ClonedPools(s.pools), s.balancers);
      (Coherent(s) <==> Coherent(c)) && (WellNamed(s.pools) <==> WellNamed(c.pools))
  {
    var c := ClonedPools(s.pools);
    assert forall k :: 0 <= k < |c| ==> c[k].name == s.pools[k].name && c[k].endpoints == s.pools[k].endpoints;
  }

  lemma EditKeepsCoherence(s: State, name: string, edit: PoolEdit)
    requires WellNamed(s.pools) && Coherent(s)
    ensures WellNamed(Next(s, Edit(name, edit)).pools) && Coherent(Next(s, Edit(name, edit)))
  {
    var s' := Next(s, Edit(name, edit));
    var base := ClonedPools(s.pools);
    if name in s.balancers && EditPool(base, name, edit).Edited? {
      var ui := PoolIndex(base, name);
      assert Matches(s.pools[ui], s.balancers[name]);
      EditKeepsMatch(base, name, edit, s.balancers[name]);
      forall k | 0 <= k < |s'.pools|
        ensures s'.pools[k].name in s'.balancers && Matches(s'.pools[k], s'.balancers[s'.pools[k].name])
        ensures UniqueEndpoints(s'.pools[k].endpoints)
      {
        if k != ui { assert Matches(s.pools[k], s.balancers[s.pools[k].name]); }
      }
    }
  }

  /** What a reload does for one pool of a well-named configuration. */
  lemma {:induction false} ReloadedPool(bs: Balancers, pools: seq<PoolConfig>, k: nat)
    requires WellNamed(pools) && k < |pools|
    ensures var p, r := pools[k], Reloaded(bs, pools);
      && (KnownAlgorithm(p.algorithm) ==> p.name in r && r[p.name] == Balancer(p.algorithm, LoadMembers(p.endpoints)))
      && (!KnownAlgorithm(p.algorithm) ==>
            (p.name in r <==> p.name in bs) && (p.name in bs ==> r[p.name] == bs[p.name]))
  {
    var n := |pools| - 1;
    if k < n {
      ReloadedPool(bs, pools[..n], k);
    } else {
      UntouchedPool(bs, pools[..n], pools[n].name);
    }
  }

  lemma {:induction false} UntouchedPool(bs: Balancers, pools: seq<PoolConfig>, name: string)
    requires forall k :: 0 <= k < |pools| ==> pools[k].name != name
    ensures var r := Reloaded(bs, pools); (name in r <==> name in bs) && (name in bs ==> r[name] == bs[name])
  {
    if pools != [] { UntouchedPool(bs, pools[..|pools| - 1], name); }
  }

  /** A reload leaves store and balancers coherent exactly when each of its pools has a
      known algorithm or happens to match the balancer already there. */
  lemma ReloadCoherentExactly(s: State, pools: seq<PoolConfig>)
    requires WellNamed(pools)
    ensures Coherent(Next(s, Reload(pools))) <==>
      forall k :: 0 <= k < |pools| ==>
        KnownAlgorithm(pools[k].algorithm) ||
        (pools[k].name in s.balancers && Matches(pools[k], s.balancers[pools[k].name]))
  {
    var s' := Next(s, Reload(pools));
    forall k | 0 <= k < |pools|
      ensures (s'.pools[k].name in s'.balancers && Matches(s'.pools[k], s'.balancers[s'.pools[k].name])) <==>
        KnownAlgorithm(pools[k].algorithm) ||
        (pools[k].name in s.balancers && Matches(pools[k], s.balancers[pools[k].name]))
    {
      ReloadedPool(s.balancers, pools, k);
    }
  }

  // ------------------------------------------------------------------ whole runs

  /** States of a control plane that started by loading a configuration. Loaded
      configurations are well named and use known algorithms. */
  function Run(pools: seq<PoolConfig>, ops: seq<Op>): State {
    if ops == [] then State(pools, Reloaded(map[], pools))
    else Next(Run(pools, ops[..|ops| - 1]), ops[|ops| - 1])
  }

  ghost predicate Loadable(pools: seq<PoolConfig>) {
    WellNamed(pools) && forall k :: 0 <= k < |pools| ==> KnownAlgorithm(pools[k].algorithm)
  }

  ghost predicate AllLoadable(pools: seq<PoolConfig>, ops: seq<Op>) {
    Loadable(pools) && forall k :: 0 <= k < |ops| && ops[k].Reload? ==> Loadable(ops[k].pools)
  }

  /** Over every run of endpoint additions, removals and reloads, each store pool has a
      balancer with the same endpoints in the same order. */
  lemma {:induction false} PoolsStayCoherent(pools: seq<PoolConfig>, ops: seq<Op>)
    requires AllLoadable(pools, ops)
    ensures WellNamed(Run(pools, ops).pools) && Coherent(Run(pools, ops))
  {
    if ops == [] {
      ReloadCoherentExactly(State([], map[]), pools);
    } else {
      var s, op := Run(pools, ops[..|ops| - 1]), ops[|ops| - 1];
      PoolsStayCoherent(pools, ops[..|ops| - 1]);
      match op
      case Edit(name, edit) => EditKeepsCoherence(s, name, edit);
      case Reload(ps) => ReloadCoherentExactly(s, ps);
      case RouteEdit => CloneChangesNoPool(s);
    }
  }

  /** The pools of the latest start-up or reload. */
  function LastLoaded(pools: seq<PoolConfig>, ops: seq<Op>): seq<PoolConfig> {
    if ops == [] then pools
    else if ops[|ops| - 1].Reload? then ops[|ops| - 1].pools
    else LastLoaded(pools, ops[..|ops| - 1])
  }

  /** Some request since then stored a clone. */
  predicate ClonedSince(pools: seq<PoolConfig>, ops: seq<Op>) {
    ops != [] &&
    var before, op := ops[..|ops| - 1], ops[|ops| - 1];
    match op
    case Reload(_) => false
    case Edit(name, edit) => Accepts(Run(pools, before), name, edit) || ClonedSince(pools, before)
    case RouteEdit => true
  }

  ghost predicate Unchecked(pools: seq<PoolConfig>) {
    forall k :: 0 <= k < |pools| ==> pools[k].healthCheck == NO_HEALTH_CHECK
  }

  lemma {:induction false} EditLosesChecks(s: State, op: Op)
    requires !op.Reload? && (op.Edit? ==> Accepts(s, op.pool, op.edit))
    ensures Unchecked(Next(s, op).pools)
  {
  }

  /** Cloning leaves health checks behind: the pools are as last loaded until the first
      request that stores a clone, and from then on none has a health check. */
  lemma {:induction false} HealthChecksSurviveExactly(pools: seq<PoolConfig>, ops: seq<Op>)
    ensures !ClonedSince(pools, ops) ==> Run(pools, ops).pools == LastLoaded(pools, ops)
    ensures Unchecked(Run(pools, ops).pools) <==> ClonedSince(pools, ops) || Unchecked(LastLoaded(pools, ops))
  {
    if ops != [] && !ops[|ops| - 1].Reload? {
      var before, op := ops[..|ops| - 1], ops[|ops| - 1];
      HealthChecksSurviveExactly(pools, before);
      if op.Edit? ==> Accepts(Run(pools, before), op.pool, op.edit) {
        EditLosesChecks(Run(pools, before), op);
      }
    }
  }

  /** What an endpoint edit does, field by field: it is accepted exactly for a pool with a
      balancer, an unknown id on addition and a known one on removal, and then changes the
      list of that pool and the members of that balancer only. */
  lemma {:induction false} EditEffect(s: State, name: string, edit: PoolEdit, ui: nat)
    requires ui < |s.pools| && s.pools[ui].name == name && forall i :: 0 <= i < ui ==> s.pools[i].name != name
    ensures var es := s.pools[ui].endpoints;
      Accepts(s, name, edit) <==> (name in s.balancers && Possible(es, edit))
    ensures Accepts(s, name, edit) ==>
      var s' := EditStep(s, name, edit);
      && OnlyPoolEdited(s.pools, s'.pools, ui) && s'.balancers.Keys == s.balancers.Keys
      && (forall other :: other in s.balancers && other != name ==> s'.balancers[other] == s.balancers[other])
      && s'.balancers[name].algorithm == s.balancers[name].algorithm
      && ListEdited(s.pools[ui].endpoints, s'.pools[ui].endpoints, edit)
      && MembersEdited(s.balancers[name].members, s'.balancers[name].members, edit)
  {
    var base := ClonedPools(s.pools);
    assert PoolIndex(base, name) == ui by { assert base[ui].name == name; }
    var es := s.pools[ui].endpoints;
    if Accepts(s, name, edit) && edit.RemoveEndpoint? {
      var k := EndpointIndex(es, edit.id);
      assert DropAt(es, k) == es[..k] + es[k + 1..] && FirstAt(es, k, edit.id);
      WithoutRemoves(s.balancers[name].members, MemberId, edit.id);
    }
  }

  ghost predicate Possible(es: seq<EndpointConfig>, edit: PoolEdit) {
    match edit
    case AddEndpoint(e) => forall k :: 0 <= k < |es| ==> es[k].id != e.id
    case RemoveEndpoint(id) => exists k :: 0 <= k < |es| && es[k].id == id
  }

  /** Pool `ui` keeps name and algorithm, and every other pool its endpoints too. */
  ghost predicate OnlyPoolEdited(pools: seq<PoolConfig>, pools': seq<PoolConfig>, ui: nat) {
    |pools'| == |pools| && forall i :: 0 <= i < |pools| ==>
      && pools'[i].name == pools[i].name && pools'[i].algorithm == pools[i].algorithm
      && (i != ui ==> pools'[i].endpoints == pools[i].endpoints)
  }

  ghost predicate FirstAt(es: seq<EndpointConfig>, k: nat, id: string) {
    k < |es| && es[k].id == id && forall j :: 0 <= j < k ==> es[j].id != id
  }

  ghost predicate ListEdited(es: seq<EndpointConfig>, es': seq<EndpointConfig>, edit: PoolEdit) {
    match edit
    case AddEndpoint(e) => es' == es + [e]
    case RemoveEndpoint(id) => exists k: nat :: FirstAt(es, k, id) && es' == es[..k] + es[k + 1..]
  }

  ghost predicate MembersEdited(ms: seq<Member>, ms': seq<Member>, edit: PoolEdit) {
    match edit
    case AddEndpoint(e) =>
      |ms'| == |ms| + 1 && ms'[..|ms|] == ms && ms'[|ms|].id == e.id && ms'[|ms|].address == e.address &&
      ms'[|ms|].weight == e.weight && ms'[|ms|].meta == e.meta
    case RemoveEndpoint(id) => forall m :: m in ms' <==> m in ms && m.id != id
  }

  /** What a reload gives a pool with one of the four known algorithms: a balancer with that
      algorithm and the configured endpoints, where only weight 0 is replaced; other pools
      keep the balancer they had, if any. */
  lemma {:induction false} ReloadedByName(bs: Balancers, pools: seq<PoolConfig>, k: nat)
    requires WellNamed(pools) && k < |pools|
    ensures var p, r := pools[k], Reloaded(bs, pools);
      if p.algorithm in ["round-robin", "", "wrr", "least-conn"] then
        p.name in r && r[p.name].algorithm == p.algorithm && |r[p.name].members| == |p.endpoints| &&
        forall i :: 0 <= i < |p.endpoints| ==>
          var m, e := r[p.name].members[i], p.endpoints[i];
          m.id == e.id && m.address == e.address && m.meta == e.meta &&
          m.weight == if e.weight == 0 then 1 else e.weight
      else (p.name in r <==> p.name in bs) && (p.name in bs ==> r[p.name] == bs[p.name])
  {
    ReloadedPool(bs, pools, k);
  }

  /** An edit is rejected exactly when it cannot be made: unknown pool, id already in
      it, or id not in it; an accepted removal undoes the addition of the same id. */
  lemma EditOutcome(pools: seq<PoolConfig>, name: string, e: EndpointConfig)
    requires PoolIndex(pools, name) < |pools|
    ensures var es := pools[PoolIndex(pools, name)].endpoints;
      && (EditPool(pools, name, AddEndpoint(e)).Rejected? <==> exists k :: 0 <= k < |es| && es[k].id == e.id)
      && (EditPool(pools, name, RemoveEndpoint(e.id)).Rejected? <==> forall k :: 0 <= k < |es| ==> es[k].id != e.id)
    ensures EditPool(pools, name, AddEndpoint(e)).Edited? ==>
      EditPool(EditPool(pools, name, AddEndpoint(e)).pools, name, RemoveEndpoint(e.id)) == Edited(pools)
  {
    var ui := PoolIndex(pools, name);
    var es := pools[ui].endpoints;
    if EditPool(pools, name, AddEndpoint(e)).Edited? {
      var added := EditPool(pools, name, AddEndpoint(e)).pools;
      assert added[ui].name == name;
      assert PoolIndex(added, name) == ui;
      assert (es + [e])[|es|].id == e.id;
      assert EndpointIndex(es + [e], e.id) == |es|;
      assert DropAt(es + [e], |es|) == es;
    }
  }
}
