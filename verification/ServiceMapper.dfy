/** The sidecar's service table: per service a target list and a wrapped counter. */
module ServiceMapper {
  import opened Common

  datatype Table = Table(endpoints: map<string, seq<string>>, counters: map<string, int>)

  datatype Event = Refresh(service: string, targets: seq<string>) | Pick(service: string)

  /** Go's remainder has the sign of the dividend; counters are never negative. */
  function Index(t: Table, service: string): int
    requires service in t.endpoints && t.endpoints[service] != []
  {
    (if service in t.counters then t.counters[service] else 0) % |t.endpoints[service]|
  }

  function Picked(t: Table, service: string): Option<string> {
    if service in t.endpoints && t.endpoints[service] != []
    then Some(t.endpoints[service][Index(t, service)]) else None
  }

  function Step(t: Table, e: Event): Table {
    match e
    case Refresh(service, targets) =>
      Table(t.endpoints[service := targets], t.counters[service := 0])
    case Pick(service) =>
      if service in t.endpoints && t.endpoints[service] != []
      then t.(counters := t.counters[service := Index(t, service) + 1]) else t
  }

  class Mapper {
    var endpoints: map<string, seq<string>>
    var counters: map<string, int>

    function View(): Table
      reads this
    {
      Table(endpoints, counters)
    }

    constructor ()
      ensures View() == Table(map[], map[])
    {
      endpoints, counters := map[], map[];
    }

    method Update(service: string, targets: seq<string>)
      modifies this
      ensures View() == Step(old(View()), Refresh(service, targets))
    {
      endpoints := endpoints[service := targets];
      counters := counters[service := 0];
    }

    method Next(service: string) returns (target: Option<string>)
      modifies this
      ensures target == Picked(old(View()), service)
      ensures View() == Step(old(View()), Pick(service))
    {
      if service !in endpoints || |endpoints[service]| == 0 {
        return None;
      }
      var targets := endpoints[service];
      var index := (if service in counters then counters[service] else 0) % |targets|;
      counters := counters[service := index + 1];
      return Some(targets[index]);
    }
  }

  function Play(es: seq<Event>): Table {
    if es == [] then Table(map[], map[]) else Step(Play(es[..|es| - 1]), es[|es| - 1])
  }

  /** The targets of the latest refresh of a service. */
  function LatestTargets(es: seq<Event>, service: string): seq<string> {
    if es == [] then [] else
      var e := es[|es| - 1];
      if e.Refresh? && e.service == service then e.targets else LatestTargets(es[..|es| - 1], service)
  }

  /** Picks of a service since its latest refresh. */
  function PicksSince(es: seq<Event>, service: string): nat {
    if es == [] then 0 else
      var e := es[|es| - 1];
      if e.service != service then PicksSince(es[..|es| - 1], service)
      else if e.Refresh? then 0
      else PicksSince(es[..|es| - 1], service) + 1
  }

  lemma StepMod(n: nat, d: nat)
    requires d > 0
    ensures (n % d + 1) % d == (n + 1) % d
  {
    var q, r, q', r' := n / d, n % d, (n + 1) / d, (n + 1) % d;
    NextMultiple(q, d);
    if r + 1 == d {
      assert n + 1 == (q + 1) * d;
      QuotientBound(q + 1, d, q', r');
      QuotientBound(q', d, q + 1, 0);
      assert r' == 0;
      assert d % d == 0;
    } else {
      assert n + 1 == q * d + (r + 1);
      QuotientBound(q, d, q', r');
      QuotientBound(q', d, q, r + 1);
      assert r' == r + 1;
      SmallMod(r + 1, d);
    }
  }

  lemma SmallMod(r: nat, d: nat)
    requires r < d
    ensures r % d == r
  {
    QuotientBound(r / d, d, 0, r);
  }

  ghost predicate TableFollows(es: seq<Event>, service: string) {
    var t, targets := Play(es), LatestTargets(es, service);
    && (service in t.endpoints ==> t.endpoints[service] == targets)
    && (service !in t.endpoints ==> targets == [])
    && (service in t.endpoints ==> service in t.counters && 0 <= t.counters[service])
    && (service in t.endpoints && targets != [] ==> Index(t, service) == PicksSince(es, service) % |targets|)
  }

  lemma {:induction false} TableFollowsHistory(es: seq<Event>, service: string)
    ensures TableFollows(es, service)
  {
    if es != [] {
      var before, e := es[..|es| - 1], es[|es| - 1];
      TableFollowsHistory(before, service);
      if e.service == service {
        var targets := LatestTargets(es, service);
        if targets != [] {
          if e.Pick? { StepMod(PicksSince(before, service), |targets|); } else { SmallMod(0, |targets|); }
        }
      }
    }
  }

  /** Whatever happens to other services, the j-th pick since a service's latest
      refresh (from 0) gets target j modulo their number, and there is none exactly
      when that refresh listed no target or never came. */
  lemma PickIsRotation(es: seq<Event>, service: string)
    ensures var targets := LatestTargets(es, service);
      Picked(Play(es), service) ==
        if targets == [] then None else Some(targets[PicksSince(es, service) % |targets|])
  {
    TableFollowsHistory(es, service);
  }
}
