/** The least-connections balancer and its in-flight accounting. */
module LeastConn {
  import opened Common
  import opened RoundRobin

  /** One entry's endpoint id and in-flight count. */
  datatype Entry = Entry(id: string, active: int)

  class ConnEndpoint {
    const ep: Endpoint
    var active: int

    constructor (ep: Endpoint)
      ensures this.ep == ep && active == 0
    {
      this.ep, active := ep, 0;
    }
  }

  function Bump(es: seq<Entry>, k: nat, delta: int): seq<Entry>
    requires k < |es|
  {
    es[k := Entry(es[k].id, es[k].active + delta)]
  }

  function AfterDone(es: seq<Entry>, id: string): seq<Entry> {
    var k := IndexBy(es, EntryId, id);
    if k < |es| then Bump(es, k, -1) else es
  }

  function EntryId(e: Entry): string { e.id }

  function EntryOf(ce: ConnEndpoint): Entry
    reads ce
  {
    Entry(ce.ep.id, ce.active)
  }

  function EntriesOf(ces: seq<ConnEndpoint>): (es: seq<Entry>)
    reads ces
    ensures |es| == |ces| && forall k :: 0 <= k < |es| ==> es[k] == EntryOf(ces[k])
  {
    seq(|ces|, k requires 0 <= k < |ces| reads ces => EntryOf(ces[k]))
  }

  function EndpointsOf(ces: seq<ConnEndpoint>): (eps: seq<Endpoint>)
    ensures |eps| == |ces| && forall k :: 0 <= k < |eps| ==> eps[k] == ces[k].ep
  {
    seq(|ces|, k requires 0 <= k < |ces| => ces[k].ep)
  }

  class LeastConnBalancer {
    var entries: seq<ConnEndpoint>

    ghost predicate Valid()
      reads this
    {
      forall j, k :: 0 <= j < k < |entries| ==> entries[j] != entries[k]
    }

    function View(): seq<Entry>
      reads this, entries
    {
      EntriesOf(entries)
    }

    constructor (endpoints: seq<Endpoint>)
      ensures Valid() && fresh(entries)
      ensures |entries| == |endpoints|
      ensures forall k :: 0 <= k < |entries| ==> entries[k].ep == endpoints[k] && entries[k].active == 0
    {
      entries := [];
      new;
      for k := 0 to |endpoints|
        invariant |entries| == k && Valid() && fresh(entries)
        invariant forall j :: 0 <= j < k ==> entries[j].ep == endpoints[j] && entries[j].active == 0
      {
        var ce := new ConnEndpoint(endpoints[k]);
        entries := entries + [ce];
      }
    }

    /** `at` is the position of the chosen entry: the first healthy one with the fewest
        requests in flight. */
    method Next() returns (chosen: Option<Endpoint>, ghost at: nat)
      requires Valid()
      modifies entries
      ensures Valid() && entries == old(entries)
      ensures chosen.None? <==> forall k :: 0 <= k < |entries| ==> !entries[k].ep.healthy
      ensures chosen.None? ==> View() == old(View())
      ensures chosen.Some? ==>
        && at < |entries| && chosen.value == entries[at].ep && entries[at].ep.healthy
        && (forall k :: 0 <= k < |entries| && entries[k].ep.healthy ==>
              && old(entries[at].active) <= old(entries[k].active)
              && (k < at ==> old(entries[at].active) < old(entries[k].active)))
        && View() == Bump(old(View()), at, 1)
    {
      var best: ConnEndpoint? := null;
      at := 0;
      for k := 0 to |entries|
        invariant best == null <==> forall j :: 0 <= j < k ==> !entries[j].ep.healthy
        invariant best != null ==> at < k && best == entries[at] && best.ep.healthy
        invariant best != null ==> forall j :: 0 <= j < k && entries[j].ep.healthy ==>
          best.active <= entries[j].active && (j < at ==> best.active < entries[j].active)
        invariant View() == old(View()) && unchanged(entries)
      {
        var ce := entries[k];
        if !ce.ep.healthy {
          continue;
        }
        if best == null || ce.active < best.active {
          best, at := ce, k;
        }
      }
      if best == null {
        return None, at;
      }
      best.active := best.active + 1;
      return Some(best.ep), at;
    }

    method Done(id: string)
      requires Valid()
      modifies entries
      ensures Valid() && entries == old(entries)
      ensures View() == AfterDone(old(View()), id)
      ensures forall k :: 0 <= k < |entries| ==>
        var first := entries[k].ep.id == id && forall j :: 0 <= j < k ==> entries[j].ep.id != id;
        entries[k].active == old(entries[k].active) - if first then 1 else 0
    {
      for k := 0 to |entries|
        invariant forall j :: 0 <= j < k ==> entries[j].ep.id != id
        invariant unchanged(entries) && View() == old(View())
      {
        var ce := entries[k];
        if ce.ep.id == id {
          assert View()[k].id == id && IndexBy(View(), EntryId, id) == k;
          ce.active := ce.active - 1;
          return;
        }
      }
    }

    method Add(ep: Endpoint)
      requires Valid()
      modifies this
      ensures Valid()
      ensures View() == old(View()) + [Entry(ep.id, 0)]
      ensures EndpointsOf(entries) == EndpointsOf(old(entries)) + [ep]
    {
      var ce := new ConnEndpoint(ep);
      entries := entries + [ce];
    }

    method Remove(id: string)
      requires Valid()
      modifies this
      ensures Valid()
      ensures View() == Without(old(View()), EntryId, id)
      ensures EndpointsOf(entries) == Without(EndpointsOf(old(entries)), IdOf, id)
    {
      var kept := Filtered(entries, ConnId, id);
      EntriesOfWithout(entries, id);
      EndpointsOfWithout(entries, id);
      WithoutKeepsDistinct(entries, id);
      ghost var seen := EntriesOf(kept);
      entries := kept;
      assert View() == seen;
    }
  }

  function ConnId(ce: ConnEndpoint): string { ce.ep.id }

  /** Filtering the entries filters what is seen of them. */
  lemma {:induction false} EntriesOfWithout(ces: seq<ConnEndpoint>, id: string)
    ensures EntriesOf(Without(ces, ConnId, id)) == Without(EntriesOf(ces), EntryId, id)
  {
    if ces != [] {
      var n := |ces| - 1;
      EntriesOfWithout(ces[..n], id);
      assert EntriesOf(ces)[..n] == EntriesOf(ces[..n]);
      var left := Without(ces[..n], ConnId, id);
      assert EntriesOf(left + [ces[n]]) == EntriesOf(left) + [EntryOf(ces[n])];
    }
  }

  lemma {:induction false} EndpointsOfWithout(ces: seq<ConnEndpoint>, id: string)
    ensures EndpointsOf(Without(ces, ConnId, id)) == Without(EndpointsOf(ces), IdOf, id)
  {
    if ces != [] {
      var n := |ces| - 1;
      EndpointsOfWithout(ces[..n], id);
      assert EndpointsOf(ces)[..n] == EndpointsOf(ces[..n]);
      var left := Without(ces[..n], ConnId, id);
      assert EndpointsOf(left + [ces[n]]) == EndpointsOf(left) + [ces[n].ep];
    }
  }

  lemma {:induction false} WithoutKeepsDistinct(ces: seq<ConnEndpoint>, id: string)
    requires forall j, k :: 0 <= j < k < |ces| ==> ces[j] != ces[k]
    ensures var left := Without(ces, ConnId, id);
      (forall j, k :: 0 <= j < k < |left| ==> left[j] != left[k]) && (forall c :: c in left ==> c in ces)
  {
    if ces != [] {
      var front := ces[..|ces| - 1];
      WithoutKeepsDistinct(front, id);
      assert ces[|ces| - 1] !in front;
    }
  }

  // ---------------------------------------------------------- requests in flight

  /** A request has selected an entry while holding the read lock, or has been counted
      and sent to an endpoint. */
  datatype Phase = Selected(at: nat) | Sent(id: string)

  datatype Sys = Sys(entries: seq<Entry>, requests: map<nat, Phase>)

  /** Selection and increment are separate steps; which healthy entry is selected does
      not matter here. Done, Add and Remove are the balancer's operations. */
  datatype Action =
    | Select(r: nat, at: nat)
    | Count(r: nat)
    | Finish(r: nat)
    | Add(id: string)
    | Remove(id: string)

  /** Writers wait until no reader is between selection and increment. */
  ghost predicate NoSelection(s: Sys) {
    forall r :: r in s.requests ==> s.requests[r].Sent?
  }

  ghost predicate Enabled(s: Sys, a: Action) {
    match a
    case Select(r, at) => r !in s.requests && at < |s.entries|
    case Count(r) => r in s.requests && s.requests[r].Selected? && s.requests[r].at < |s.entries|
    case Finish(r) => r in s.requests && s.requests[r].Sent?
    case Add(_) => NoSelection(s)
    case Remove(_) => NoSelection(s)
  }

  function Act(s: Sys, a: Action): Sys {
    match a
    case Select(r, at) => s.(requests := s.requests[r := Selected(at)])
    case Count(r) =>
      if r in s.requests && s.requests[r].Selected? && s.requests[r].at < |s.entries| then
        var at := s.requests[r].at;
        Sys(Bump(s.entries, at, 1), s.requests[r := Sent(s.entries[at].id)])
      else s
    case Finish(r) =>
      if r in s.requests && s.requests[r].Sent? then
        Sys(AfterDone(s.entries, s.requests[r].id), s.requests - {r})
      else s
    case Add(id) => s.(entries := s.entries + [Entry(id, 0)])
    case Remove(id) => s.(entries := Without(s.entries, EntryId, id))
  }

  function Outstanding(s: Sys, id: string): set<nat> {
    set r | r in s.requests && s.requests[r] == Sent(id)
  }

  ghost predicate UniqueIds(es: seq<Entry>) {
    forall j, k :: 0 <= j < k < |es| ==> es[j].id != es[k].id
  }

  /** Every entry counts the requests sent to its id and not yet done. */
  ghost predicate CountsRight(s: Sys) {
    forall k :: 0 <= k < |s.entries| ==> s.entries[k].active == |Outstanding(s, s.entries[k].id)|
  }

  ghost predicate Conserved(s: Sys) {
    && UniqueIds(s.entries)
    && (forall r :: r in s.requests && s.requests[r].Selected? ==> s.requests[r].at < |s.entries|)
    && CountsRight(s)
  }

  /** The id is not in use, neither by an entry nor by requests of an earlier one. */
  ghost predicate IdIsFree(s: Sys, id: string) {
    (forall k :: 0 <= k < |s.entries| ==> s.entries[k].id != id) && Outstanding(s, id) == {}
  }

  lemma {:induction false} WithoutKeepsUnique(es: seq<Entry>, id: string)
    requires UniqueIds(es)
    ensures UniqueIds(Without(es, EntryId, id))
  {
    if es != [] {
      var front := es[..|es| - 1];
      WithoutKeepsUnique(front, id);
      forall k | 0 <= k < |Without(front, EntryId, id)|
        ensures Without(front, EntryId, id)[k].id != es[|es| - 1].id
      {
        WithoutRemoves(front, EntryId, id);
        var e := Without(front, EntryId, id)[k];
        assert e in front;
        var j :| 0 <= j < |front| && front[j] == e;
        assert es[j] == e;
      }
    }
  }

  lemma SelectConserves(s: Sys, r: nat, at: nat)
    requires Conserved(s) && Enabled(s, Select(r, at))
    ensures Conserved(Act(s, Select(r, at)))
  {
    forall id: string ensures Outstanding(Act(s, Select(r, at)), id) == Outstanding(s, id) {
    }
  }

  lemma CountOutstanding(s: Sys, r: nat, id: string)
    requires Conserved(s) && Enabled(s, Count(r))
    ensures var grown := id == s.entries[s.requests[r].at].id;
      |Outstanding(Act(s, Count(r)), id)| == |Outstanding(s, id)| + if grown then 1 else 0
  {
    var target := s.entries[s.requests[r].at].id;
    assert r !in Outstanding(s, id);
    assert Outstanding(Act(s, Count(r)), id) == if id == target then Outstanding(s, id) + {r} else Outstanding(s, id);
  }

  lemma CountConserves(s: Sys, r: nat)
    requires Conserved(s) && Enabled(s, Count(r))
    ensures Conserved(Act(s, Count(r)))
  {
    var s' := Act(s, Count(r));
    forall k | 0 <= k < |s'.entries| ensures s'.entries[k].active == |Outstanding(s', s'.entries[k].id)| {
      CountOutstanding(s, r, s.entries[k].id);
    }
  }

  lemma FinishOutstanding(s: Sys, r: nat, id: string)
    requires Enabled(s, Finish(r))
    ensures var shrunk := id == s.requests[r].id;
      |Outstanding(Act(s, Finish(r)), id)| == |Outstanding(s, id)| - if shrunk then 1 else 0
  {
    var target := s.requests[r].id;
    assert r in Outstanding(s, target);
    assert Outstanding(Act(s, Finish(r)), id) == if id == target then Outstanding(s, id) - {r} else Outstanding(s, id);
  }

  lemma FinishConserves(s: Sys, r: nat)
    requires Conserved(s) && Enabled(s, Finish(r))
    ensures Conserved(Act(s, Finish(r)))
  {
    var s' := Act(s, Finish(r));
    forall k | 0 <= k < |s'.entries| ensures s'.entries[k].active == |Outstanding(s', s'.entries[k].id)| {
      FinishOutstanding(s, r, s.entries[k].id);
    }
  }

  lemma RemoveConserves(s: Sys, id: string)
    requires Conserved(s) && Enabled(s, Remove(id))
    ensures Conserved(Act(s, Remove(id)))
  {
    WithoutKeepsUnique(s.entries, id);
    var s' := Act(s, Remove(id));
    forall other: string ensures Outstanding(s', other) == Outstanding(s, other) {
    }
    forall k | 0 <= k < |s'.entries| ensures s'.entries[k].active == |Outstanding(s', s'.entries[k].id)| {
      WithoutRemoves(s.entries, EntryId, id);
      assert s'.entries[k] in s.entries;
    }
  }

  lemma AddConserves(s: Sys, id: string)
    requires Conserved(s) && Enabled(s, Add(id)) && IdIsFree(s, id)
    ensures Conserved(Act(s, Add(id)))
  {
    var s' := Act(s, Add(id));
    forall other: string ensures Outstanding(s', other) == Outstanding(s, other) {
    }
    assert s'.entries[|s.entries|] == Entry(id, 0);
  }

  function Play(s: Sys, acts: seq<Action>): Sys {
    if acts == [] then s else Act(Play(s, acts[..|acts| - 1]), acts[|acts| - 1])
  }

  ghost predicate Legal(s: Sys, acts: seq<Action>) {
    forall k :: 0 <= k < |acts| ==> Enabled(Play(s, acts[..k]), acts[k])
  }

  ghost predicate AddsFreeIds(s: Sys, acts: seq<Action>) {
    forall k :: 0 <= k < |acts| && acts[k].Add? ==> IdIsFree(Play(s, acts[..k]), acts[k].id)
  }

  /** In-flight conservation over every run in which only free ids are added. */
  lemma {:induction false} InFlightConserved(s: Sys, acts: seq<Action>)
    requires Conserved(s) && Legal(s, acts) && AddsFreeIds(s, acts)
    ensures Conserved(Play(s, acts))
    ensures forall k :: 0 <= k < |Play(s, acts).entries| ==> Play(s, acts).entries[k].active >= 0
  {
    if acts != [] {
      var front := acts[..|acts| - 1];
      assert forall k :: 0 <= k < |front| ==> front[..k] == acts[..k];
      InFlightConserved(s, front);
      OneStepConserves(Play(s, front), acts[|acts| - 1]);
    }
  }

  lemma OneStepConserves(s: Sys, a: Action)
    requires Conserved(s) && Enabled(s, a) && (a.Add? ==> IdIsFree(s, a.id))
    ensures Conserved(Act(s, a))
  {
    match a
    case Select(r, at) => SelectConserves(s, r, at);
    case Count(r) => CountConserves(s, r);
    case Finish(r) => FinishConserves(s, r);
    case Add(id) => AddConserves(s, id);
    case Remove(id) => RemoveConserves(s, id);
  }

  ghost predicate NoAdd(acts: seq<Action>) { forall k :: 0 <= k < |acts| ==> !acts[k].Add? }

  /** The counts stay right, whatever happens next but for further additions. */
  ghost predicate StaysRight(s: Sys) {
    forall acts :: Legal(s, acts) && NoAdd(acts) ==> CountsRight(Play(s, acts))
  }

  lemma {:induction false} UnusedNumber(s: set<nat>) returns (r: nat)
    ensures forall x :: x in s ==> x < r
  {
    r := 0;
    if s != {} {
      var x :| x in s;
      var bound := UnusedNumber(s - {x});
      r := if bound <= x then x + 1 else bound;
      assert forall y :: y in s ==> y == x || y in s - {x};
    }
  }

  /** An id that is listed twice: a request selects the second entry and is counted there,
      and the first one does not know of it. */
  lemma {:induction false} DuplicateGoesWrong(s: Sys, id: string, k: nat, r: nat)
    requires NoSelection(s) && CountsRight(s) && r !in s.requests
    requires k < |s.entries| - 1 && s.entries[k].id == id == s.entries[|s.entries| - 1].id
    ensures var acts := [Select(r, |s.entries| - 1), Count(r)];
      Legal(s, acts) && NoAdd(acts) && !CountsRight(Play(s, acts))
  {
    var at := |s.entries| - 1;
    var acts := [Select(r, at), Count(r)];
    assert acts[..0] == [] && acts[..1] == [Select(r, at)] && acts[..1][..0] == [];
    var s1, s2 := Act(s, Select(r, at)), Act(Act(s, Select(r, at)), Count(r));
    assert Play(s, acts[..1]) == s1;
    assert acts[..|acts| - 1] == acts[..1] && Play(s, acts) == s2;
    assert Outstanding(s2, id) == Outstanding(s, id) + {r} && r !in Outstanding(s, id);
    assert s2.entries[k] == s.entries[k];
  }

  /** After an addition every count stays right over all that follows exactly when the id
      was free: not listed, and without requests outstanding from a removed incarnation. */
  lemma {:induction false} AddConservesExactly(s: Sys, id: string)
    requires Conserved(s) && Enabled(s, Add(id))
    ensures StaysRight(Act(s, Add(id))) <==> IdIsFree(s, id)
  {
    var s' := Act(s, Add(id));
    if IdIsFree(s, id) {
      AddConserves(s, id);
      forall acts | Legal(s', acts) && NoAdd(acts) ensures CountsRight(Play(s', acts)) {
        InFlightConserved(s', acts);
      }
    } else if StaysRight(s') {
      assert Play(s', []) == s';
      assert CountsRight(s') && s'.entries[|s.entries|] == Entry(id, 0);
      assert Outstanding(s', id) == Outstanding(s, id) == {};
      var r := UnusedNumber(s'.requests.Keys);
      var k :| 0 <= k < |s.entries| && s.entries[k].id == id;
      DuplicateGoesWrong(s', id, k, r);
      assert false;
    }
  }

  /** Without that condition a count can go negative: remove and re-add an endpoint
      while a request is out, and its Done is charged to the newcomer. */
  lemma ReAddGoesNegative(s: Sys, r: nat, id: string)
    requires Conserved(s) && r in s.requests && s.requests[r] == Sent(id) && NoSelection(s)
    requires s.entries == [Entry(id, 1)]
    ensures var acts := [Remove(id), Add(id), Finish(r)];
      Legal(s, acts) && Play(s, acts).entries == [Entry(id, -1)]
  {
    var acts := [Remove(id), Add(id), Finish(r)];
    assert acts[..0] == [] && acts[..1] == [Remove(id)] && acts[..2] == [Remove(id), Add(id)];
    assert acts[..1][..0] == [] && acts[..2][..1] == acts[..1];
    var s1 := Act(s, Remove(id));
    assert s1.entries == [] by { assert Without(s.entries[..|s.entries| - 1], EntryId, id) == []; }
    assert Play(s, acts[..1]) == s1;
    assert Play(s, acts[..2]) == Act(s1, Add(id));
  }
}
