/** The balancer objects behind the control plane: the factory that builds them and the
    edits they take, against what the pools module says of a balancer. */
module Balancers {
  import opened Common
  import opened RoundRobin
  import opened LeastConn
  import opened Config
  import P = Pools

  datatype Lb = RoundRobin(rr: RoundRobinBalancer) | Weighted(wrr: WeightedBalancer) | LeastConn(lc: LeastConnBalancer)

  ghost predicate Valid(lb: Lb)
    reads if lb.LeastConn? then {lb.lc} else {}
  {
    lb.LeastConn? ==> lb.lc.Valid()
  }

  function MemberOf(e: Endpoint): P.Member { P.Member(e.id, e.address, e.weight, e.meta) }

  function MembersOf(eps: seq<Endpoint>): (ms: seq<P.Member>)
    ensures |ms| == |eps| && forall k :: 0 <= k < |ms| ==> ms[k] == MemberOf(eps[k])
  {
    seq(|eps|, k requires 0 <= k < |eps| => MemberOf(eps[k]))
  }

  function Object(lb: Lb): object {
    match lb
    case RoundRobin(rr) => rr
    case Weighted(wrr) => wrr
    case LeastConn(lc) => lc
  }

  function Endpoints(lb: Lb): seq<Endpoint>
    reads Object(lb)
  {
    match lb
    case RoundRobin(rr) => rr.endpoints
    case Weighted(wrr) => wrr.entries
    case LeastConn(lc) => EndpointsOf(lc.entries)
  }

  /** What the control plane sees of a balancer object. */
  function View(lb: Lb, algorithm: string): P.Balancer
    reads Object(lb)
  {
    P.Balancer(algorithm, MembersOf(Endpoints(lb)))
  }

  /** Seeing a list and filtering it commute. */
  lemma {:induction false} MembersOfWithout(eps: seq<Endpoint>, id: string)
    ensures MembersOf(Without(eps, IdOf, id)) == Without(MembersOf(eps), P.MemberId, id)
  {
    if eps != [] {
      var n := |eps| - 1;
      MembersOfWithout(eps[..n], id);
      assert MembersOf(eps)[..n] == MembersOf(eps[..n]);
      if eps[n].id != id {
        var left := Without(eps[..n], IdOf, id);
        assert MembersOf(left + [eps[n]]) == MembersOf(left) + [MemberOf(eps[n])];
      }
    }
  }

  /** The endpoint objects a configuration describes. */
  method Load(es: seq<EndpointConfig>) returns (eps: seq<Endpoint>)
    ensures fresh(eps) && MembersOf(eps) == P.LoadMembers(es)
  {
    eps := [];
    for k := 0 to |es|
      invariant fresh(eps) && MembersOf(eps) == P.LoadMembers(es)[..k]
    {
      var w := es[k].weight;
      if w == 0 {
        w := 1;
      }
      var ep := new Endpoint(es[k].id, es[k].address, w, es[k].meta);
      assert MembersOf(eps + [ep]) == MembersOf(eps) + [MemberOf(ep)];
      eps := eps + [ep];
    }
  }

  /** The factory fails exactly for an unknown algorithm. */
  method New(algorithm: string, es: seq<EndpointConfig>) returns (lb: Option<Lb>)
    ensures lb.Some? <==> P.KnownAlgorithm(algorithm)
    ensures algorithm == "round-robin" || algorithm == "" <==> lb.Some? && lb.value.RoundRobin?
    ensures algorithm == "wrr" <==> lb.Some? && lb.value.Weighted?
    ensures algorithm == "least-conn" <==> lb.Some? && lb.value.LeastConn?
    ensures lb.Some? ==>
      && Valid(lb.value) && fresh(Object(lb.value))
      && View(lb.value, algorithm) == P.Balancer(algorithm, P.LoadMembers(es))
  {
    var eps := Load(es);
    if algorithm == "round-robin" || algorithm == "" {
      var rr := new RoundRobinBalancer(eps);
      return Some(RoundRobin(rr));
    } else if algorithm == "wrr" {
      var wrr := new WeightedBalancer(eps);
      return Some(Weighted(wrr));
    } else if algorithm == "least-conn" {
      var lc := new LeastConnBalancer(eps);
      assert EndpointsOf(lc.entries) == eps;
      return Some(LeastConn(lc));
    }
    return None;
  }

  /** Each of the three balancers takes an edit as the pools module says. */
  method Edit(lb: Lb, edit: P.PoolEdit)
    requires Valid(lb)
    modifies Object(lb)
    ensures Valid(lb)
    ensures forall algorithm :: View(lb, algorithm) == P.EditBalancer(old(View(lb, algorithm)), edit)
  {
    ghost var was := Endpoints(lb);
    match edit {
      case AddEndpoint(e) =>
        var ep := new Endpoint(e.id, e.address, e.weight, e.meta);
        match lb {
          case RoundRobin(rr) => rr.Add(ep);
          case Weighted(wrr) => wrr.Add(ep);
          case LeastConn(lc) => lc.Add(ep);
        }
        assert MembersOf(was + [ep]) == MembersOf(was) + [MemberOf(ep)];
      case RemoveEndpoint(id) =>
        match lb {
          case RoundRobin(rr) => rr.Remove(id);
          case Weighted(wrr) => wrr.Remove(id);
          case LeastConn(lc) => lc.Remove(id);
        }
        MembersOfWithout(was, id);
    }
  }
}
