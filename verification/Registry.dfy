/** The mesh registry: service instances under leases that heartbeats renew. */
module Registry {
  import opened Common

  datatype Registration = Registration(
    serviceId: string, instanceId: string, address: string, port: int, meta: map<string, string>)

  datatype Instance = Instance(reg: Registration, registeredAt: int, lastHeartbeat: int)

  type Instances = map<string, Instance>

  /** A call on the registry, or one cleanup tick, with the instant it reads. */
  datatype Event =
    | Register(reg: Registration, at: int)
    | Heartbeat(id: string, at: int)
    | Deregister(id: string, at: int)
    | Sweep(at: int)

  function Step(ttl: int, m: Instances, e: Event): Instances {
    match e
    case Register(reg, at) =>
      var id := reg.instanceId;
      if id in m then
        // The service an instance first registered for sticks.
        m[id := Instance(reg.(serviceId := m[id].reg.serviceId), m[id].registeredAt, at)]
      else m[id := Instance(reg, at, at)]
    case Heartbeat(id, at) => if id in m then m[id := m[id].(lastHeartbeat := at)] else m
    case Deregister(id, _) => m - {id}
    case Sweep(at) => map id | id in m && at - m[id].lastHeartbeat <= ttl :: m[id]
  }

  function Play(ttl: int, m: Instances, es: seq<Event>): Instances {
    if es == [] then m else Step(ttl, Play(ttl, m, es[..|es| - 1]), es[|es| - 1])
  }

  predicate IsLive(ttl: int, m: Instances, id: string, now: int) {
    id in m && now - m[id].lastHeartbeat <= ttl
  }

  function LiveIds(ttl: int, m: Instances, now: int): set<string> {
    set id | id in m && IsLive(ttl, m, id, now)
  }

  function Elements(ids: seq<string>): set<string> { set id | id in ids }

  function OfService(m: Instances, ids: set<string>, service: string): set<string> {
    set id | id in ids && id in m && m[id].reg.serviceId == service
  }

  /** `out` holds the instance of each id in `which` once, in the order of `ids`. */
  ghost predicate Lists(m: Instances, which: set<string>, ids: seq<string>, out: seq<Instance>) {
    && |ids| == |out|
    && (forall k :: 0 <= k < |ids| ==> ids[k] in m && out[k] == m[ids[k]])
    && (forall j, k :: 0 <= j < k < |ids| ==> ids[j] != ids[k])
    && (forall id :: id in ids <==> id in which)
  }

  lemma ListsExactly(m: Instances, which: set<string>, ids: seq<string>, out: seq<Instance>)
    requires Lists(m, which, ids, out) && which <= m.Keys
    ensures forall i :: i in out <==> exists id :: id in which && i == m[id]
  {
    forall id | id in which ensures m[id] in out {
      var k :| 0 <= k < |ids| && ids[k] == id;
      assert out[k] == m[id];
    }
  }

  lemma ListsMore(m: Instances, which: set<string>, ids: seq<string>, out: seq<Instance>, id: string)
    requires Lists(m, which, ids, out) && id in m && id !in which
    ensures Lists(m, which + {id}, ids + [id], out + [m[id]])
  {
  }

  class MeshRegistry {
    var instances: Instances
    const ttl: int

    constructor (ttl: int)
      ensures instances == map[] && this.ttl == ttl
    {
      instances := map[];
      this.ttl := ttl;
    }

    method Register(reg: Registration, now: int)
      modifies this
      ensures instances == Step(ttl, old(instances), Event.Register(reg, now))
    {
      if reg.instanceId in instances {
        var existing := instances[reg.instanceId];
        var updated := existing.reg.(
          instanceId := reg.instanceId, address := reg.address, port := reg.port, meta := reg.meta);
        instances := instances[reg.instanceId := Instance(updated, existing.registeredAt, now)];
        return;
      }
      instances := instances[reg.instanceId := Instance(reg, now, now)];
    }

    method Heartbeat(id: string, now: int) returns (found: bool)
      modifies this
      ensures found == (id in old(instances))
      ensures instances == Step(ttl, old(instances), Event.Heartbeat(id, now))
    {
      if id !in instances {
        return false;
      }
      instances := instances[id := instances[id].(lastHeartbeat := now)];
      return true;
    }

    method Deregister(id: string, now: int) returns (found: bool)
      modifies this
      ensures found == (id in old(instances))
      ensures instances == Step(ttl, old(instances), Event.Deregister(id, now))
    {
      found := id in instances;
      if found {
        instances := instances - {id};
      }
    }

    /** The body of a cleanup tick. */
    method Sweep(now: int)
      modifies this
      ensures instances == Step(ttl, old(instances), Event.Sweep(now))
    {
      var todo := instances.Keys;
      while todo != {}
        invariant todo <= instances.Keys <= old(instances).Keys
        invariant forall id :: id in instances ==> instances[id] == old(instances)[id]
        invariant forall id :: id in old(instances) && id !in todo ==>
          (id in instances <==> now - old(instances)[id].lastHeartbeat <= ttl)
        decreases |todo|
      {
        var id :| id in todo;
        todo := todo - {id};
        if now - instances[id].lastHeartbeat > ttl {
          instances := instances - {id};
        }
      }
    }

    /** Each live instance once, in some order. */
    method LiveInstances(now: int) returns (live: seq<Instance>)
      ensures exists ids :: Lists(instances, LiveIds(ttl, instances, now), ids, live)
      ensures forall i :: i in live <==>
        exists id :: id in instances && i == instances[id] && now - i.lastHeartbeat <= ttl
    {
      live := [];
      ghost var ids := [];
      var todo := instances.Keys;
      while todo != {}
        invariant todo <= instances.Keys
        invariant Lists(instances, LiveIds(ttl, instances, now) - todo, ids, live)
        decreases |todo|
      {
        var id :| id in todo;
        todo := todo - {id};
        if now - instances[id].lastHeartbeat <= ttl {
          live := live + [instances[id]];
          ids := ids + [id];
        }
      }
      assert LiveIds(ttl, instances, now) - todo == LiveIds(ttl, instances, now);
      ListsExactly(instances, LiveIds(ttl, instances, now), ids, live);
    }

    /** Each live instance of the service once, in some order. */
    method InstancesByService(serviceId: string, now: int) returns (out: seq<Instance>)
      ensures exists ids :: Lists(instances, OfService(instances, LiveIds(ttl, instances, now), serviceId), ids, out)
      ensures forall i :: i in out <==>
        exists id :: id in instances && i == instances[id] && now - i.lastHeartbeat <= ttl
            && i.reg.serviceId == serviceId
    {
      var all := LiveInstances(now);
      ghost var ids :| Lists(instances, LiveIds(ttl, instances, now), ids, all);
      out := [];
      ghost var found := [];
      for k := 0 to |all|
        invariant Lists(instances, OfService(instances, Elements(ids[..k]), serviceId), found, out)
      {
        assert ids[..k + 1] == ids[..k] + [ids[k]];
        ghost var seen := OfService(instances, Elements(ids[..k]), serviceId);
        assert OfService(instances, Elements(ids[..k + 1]), serviceId)
            == seen + if all[k].reg.serviceId == serviceId then {ids[k]} else {};
        if all[k].reg.serviceId == serviceId {
          ListsMore(instances, seen, found, out, ids[k]);
          out := out + [all[k]];
          found := found + [ids[k]];
        }
      }
      assert ids[..|all|] == ids;
      assert Lists(instances, OfService(instances, LiveIds(ttl, instances, now), serviceId), found, out);
      ListsExactly(instances, OfService(instances, LiveIds(ttl, instances, now), serviceId), found, out);
    }

    /** The services with a live instance, each named once. */
    method ServiceNames(now: int) returns (names: seq<string>)
      ensures forall s :: s in names <==>
        exists id :: IsLive(ttl, instances, id, now) && instances[id].reg.serviceId == s
      ensures forall j, k :: 0 <= j < k < |names| ==> names[j] != names[k]
    {
      var all := LiveInstances(now);
      ghost var ids :| Lists(instances, LiveIds(ttl, instances, now), ids, all);
      var seen: set<string> := {};
      names := [];
      for k := 0 to |all|
        invariant seen == set s | s in names
        invariant forall s :: s in names <==> exists j :: 0 <= j < k && all[j].reg.serviceId == s
        invariant forall i, j :: 0 <= i < j < |names| ==> names[i] != names[j]
      {
        if all[k].reg.serviceId !in seen {
          seen := seen + {all[k].reg.serviceId};
          names := names + [all[k].reg.serviceId];
        }
      }
      forall s
        ensures s in names <==> exists id :: IsLive(ttl, instances, id, now) && instances[id].reg.serviceId == s
      {
        if s in names {
          var j :| 0 <= j < |all| && all[j].reg.serviceId == s;
          assert ids[j] in ids;
        }
        if id :| IsLive(ttl, instances, id, now) && instances[id].reg.serviceId == s {
          assert id in LiveIds(ttl, instances, now);
          assert id in ids;
          var k :| 0 <= k < |ids| && ids[k] == id;
          assert all[k].reg.serviceId == s;
        }
      }
    }
  }

  // ------------------------------------------------------------- a record's history

  predicate RegistersId(e: Event, id: string) { e.Register? && e.reg.instanceId == id }

  /** The latest registration of the id. */
  function LatestRegistration(es: seq<Event>, id: string): Option<Event> {
    if es == [] then None
    else if RegistersId(es[|es| - 1], id) then Some(es[|es| - 1])
    else LatestRegistration(es[..|es| - 1], id)
  }

  /** The latest registration that found no record of the id. */
  function CreatedBy(ttl: int, es: seq<Event>, id: string): Option<Event> {
    if es == [] then None
    else if RegistersId(es[|es| - 1], id) && id !in Play(ttl, map[], es[..|es| - 1]) then Some(es[|es| - 1])
    else CreatedBy(ttl, es[..|es| - 1], id)
  }

  /** Over every history: a record has the address, port and metadata of the latest
      registration of its id, the service and the registration time of the one that created
      it, and the time of the latest registration or heartbeat. */
  lemma {:induction false} RecordFollowsHistory(ttl: int, es: seq<Event>, id: string)
    requires id in Play(ttl, map[], es)
    ensures var i := Play(ttl, map[], es)[id];
      var latest, first := LatestRegistration(es, id), CreatedBy(ttl, es, id);
      && latest.Some? && latest.value.Register? && first.Some? && first.value.Register?
      && i.reg.instanceId == id && i.reg.address == latest.value.reg.address
      && i.reg.port == latest.value.reg.port && i.reg.meta == latest.value.reg.meta
      && i.reg.serviceId == first.value.reg.serviceId && i.registeredAt == first.value.at
      && i.lastHeartbeat == LatestRefresh(es, id, 0)
  {
    var before, e := es[..|es| - 1], es[|es| - 1];
    if id in Play(ttl, map[], before) {
      RecordFollowsHistory(ttl, before, id);
    }
  }

  // ------------------------------------------------------------------ lease safety

  predicate Refreshes(e: Event, id: string) {
    (e.Register? && e.reg.instanceId == id) || (e.Heartbeat? && e.id == id)
  }

  /** Instant of the latest refresh of `id` in `es`, or `last` if there is none. */
  function LatestRefresh(es: seq<Event>, id: string, last: int): int {
    if es == [] then last
    else if Refreshes(es[|es| - 1], id) then es[|es| - 1].at
    else LatestRefresh(es[..|es| - 1], id, last)
  }

  ghost predicate Timely(from: int, es: seq<Event>) {
    && (forall k :: 0 <= k < |es| ==> from <= es[k].at)
    && (forall j, k :: 0 <= j < k < |es| ==> es[j].at <= es[k].at)
  }

  /** The instance is never deregistered and each refresh comes within ttl of the one
      before. Other instances' events and cleanup ticks are unrestricted. */
  ghost predicate LeaseKept(ttl: int, es: seq<Event>, id: string, last: int) {
    forall k :: 0 <= k < |es| ==>
      && es[k] != Deregister(id, es[k].at)
      && (Refreshes(es[k], id) ==> es[k].at - LatestRefresh(es[..k], id, last) <= ttl)
  }

  lemma LeasePrefix(ttl: int, from: int, es: seq<Event>, id: string, last: int, n: nat)
    requires n <= |es| && LeaseKept(ttl, es, id, last) && Timely(from, es)
    ensures LeaseKept(ttl, es[..n], id, last) && Timely(from, es[..n])
  {
    forall k | 0 <= k < n
      ensures Refreshes(es[..n][k], id) ==> es[..n][k].at - LatestRefresh(es[..n][..k], id, last) <= ttl
    {
      assert es[..n][..k] == es[..k];
    }
  }

  /** At any instant within ttl of the latest refresh the instance is still held. */
  lemma {:induction false} HeldWithinTtl(ttl: int, m: Instances, es: seq<Event>, id: string, now: int)
    requires id in m && Timely(m[id].lastHeartbeat, es)
    requires LeaseKept(ttl, es, id, m[id].lastHeartbeat)
    requires es != [] ==> es[|es| - 1].at <= now
    requires now - LatestRefresh(es, id, m[id].lastHeartbeat) <= ttl
    ensures var r := Play(ttl, m, es);
      id in r && r[id].lastHeartbeat == LatestRefresh(es, id, m[id].lastHeartbeat)
  {
    if es != [] {
      var n := |es| - 1;
      LeasePrefix(ttl, m[id].lastHeartbeat, es, id, m[id].lastHeartbeat, n);
      assert Refreshes(es[n], id) ==> es[n].at - LatestRefresh(es[..n], id, m[id].lastHeartbeat) <= ttl;
      HeldWithinTtl(ttl, m, es[..n], id, es[n].at);
      assert es[n] != Deregister(id, es[n].at);
    }
  }

  /** Instant at which event k happens, or the end of the observation. */
  function EndOf(es: seq<Event>, k: nat, end: int): int {
    if k < |es| then es[k].at else end
  }

  lemma {:induction false} GapsAreCovered(ttl: int, es: seq<Event>, id: string, last: int, end: int, k: nat)
    requires k <= |es| && Timely(last, es) && LeaseKept(ttl, es, id, last)
    requires es != [] ==> es[|es| - 1].at <= end
    requires end - LatestRefresh(es, id, last) <= ttl
    ensures EndOf(es, k, end) - LatestRefresh(es[..k], id, last) <= ttl
    decreases |es| - k
  {
    if k == |es| {
      assert es[..k] == es;
    } else if !Refreshes(es[k], id) {
      GapsAreCovered(ttl, es, id, last, end, k + 1);
      assert es[..k + 1][..k] == es[..k];
    }
  }

  /** Lease safety: if refreshes are at most ttl apart, up to the end of the
      observation, the instance is live at every moment, wherever cleanup ticks fall. */
  lemma LiveThroughout(ttl: int, m: Instances, es: seq<Event>, id: string, end: int)
    requires id in m && Timely(m[id].lastHeartbeat, es)
    requires LeaseKept(ttl, es, id, m[id].lastHeartbeat)
    requires es != [] ==> es[|es| - 1].at <= end
    requires end - LatestRefresh(es, id, m[id].lastHeartbeat) <= ttl
    ensures forall k: nat, now :: k <= |es| && (k > 0 ==> es[k - 1].at <= now) && now <= EndOf(es, k, end) ==>
      IsLive(ttl, Play(ttl, m, es[..k]), id, now)
  {
    var last := m[id].lastHeartbeat;
    forall k: nat, now | k <= |es| && (k > 0 ==> es[k - 1].at <= now) && now <= EndOf(es, k, end)
      ensures IsLive(ttl, Play(ttl, m, es[..k]), id, now)
    {
      LeasePrefix(ttl, last, es, id, last, k);
      GapsAreCovered(ttl, es, id, last, end, k);
      HeldWithinTtl(ttl, m, es[..k], id, now);
    }
  }
}
