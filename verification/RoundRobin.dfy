/** Endpoints with a shared health flag, and the two balancers that serve healthy
    endpoints in turn: plain round robin and weighted round robin by expansion. */
module RoundRobin {
  import opened Common
  import opened Fairness

  class Endpoint {
    const id: string
    const address: string
    const weight: int
    const meta: map<string, string>
    var healthy: bool

    constructor (id: string, address: string, weight: int, meta: map<string, string>)
      ensures this.id == id && this.address == address && this.weight == weight && this.meta == meta && healthy
    {
      this.id, this.address, this.weight, this.meta := id, address, weight, meta;
      healthy := true;
    }
  }

  function HealthyOf(eps: seq<Endpoint>): seq<Endpoint>
    reads eps
  {
    if eps == [] then [] else
      var front, e := HealthyOf(eps[..|eps| - 1]), eps[|eps| - 1];
      if e.healthy then front + [e] else front
  }

  method Healthy(eps: seq<Endpoint>) returns (out: seq<Endpoint>)
    ensures out == HealthyOf(eps)
  {
    out := [];
    for k := 0 to |eps|
      invariant out == HealthyOf(eps[..k])
    {
      assert eps[..k + 1][..k] == eps[..k];
      if eps[k].healthy {
        out := out + [eps[k]];
      }
    }
    assert eps[..|eps|] == eps;
  }

  /** Positions of the healthy endpoints, in ascending order. */
  function HealthyAt(eps: seq<Endpoint>): (at: seq<nat>)
    reads eps
  {
    if eps == [] then [] else
      var front := HealthyAt(eps[..|eps| - 1]);
      if eps[|eps| - 1].healthy then front + [|eps| - 1] else front
  }

  /** The filter keeps all and only the healthy endpoints, in their order. */
  lemma {:induction false} FilterKeepsOrder(eps: seq<Endpoint>)
    ensures var out, at := HealthyOf(eps), HealthyAt(eps);
      && |out| == |at|
      && (forall i :: 0 <= i < |at| ==> at[i] < |eps| && out[i] == eps[at[i]])
      && (forall i, j :: 0 <= i < j < |at| ==> at[i] < at[j])
      && (forall k: nat :: k < |eps| ==> (k in at <==> eps[k].healthy))
  {
    PositionsAscend(eps);
    PositionsAreHealthy(eps);
  }

  lemma {:induction false} PositionsAscend(eps: seq<Endpoint>)
    ensures var out, at := HealthyOf(eps), HealthyAt(eps);
      && |out| == |at|
      && (forall i :: 0 <= i < |at| ==> at[i] < |eps| && out[i] == eps[at[i]])
      && (forall i, j :: 0 <= i < j < |at| ==> at[i] < at[j])
  {
    if eps != [] { PositionsAscend(eps[..|eps| - 1]); }
  }

  lemma {:induction false} PositionsAreHealthy(eps: seq<Endpoint>)
    ensures forall k: nat :: k in HealthyAt(eps) <==> k < |eps| && eps[k].healthy
  {
    if eps != [] { PositionsAreHealthy(eps[..|eps| - 1]); }
  }

  lemma {:induction false} HealthyMembers(eps: seq<Endpoint>)
    ensures forall e :: e in HealthyOf(eps) <==> e in eps && e.healthy
  {
    if eps != [] { HealthyMembers(eps[..|eps| - 1]); }
  }

  function IdOf(e: Endpoint): string { e.id }

  function NextTicket(counter: nat): nat { (counter + 1) % TWO_64 }

  class RoundRobinBalancer {
    var endpoints: seq<Endpoint>
    var counter: nat

    constructor (endpoints: seq<Endpoint>)
      ensures this.endpoints == endpoints && counter == 0
    {
      this.endpoints, counter := endpoints, 0;
    }

    method Next() returns (chosen: Option<Endpoint>)
      modifies this`counter
      ensures var pool := old(HealthyOf(endpoints));
        if pool == [] then chosen == None && counter == old(counter)
        else chosen == Some(pool[old(counter) % |pool|]) && counter == NextTicket(old(counter))
      ensures chosen.Some? ==> chosen.value in endpoints && chosen.value.healthy
      ensures chosen.None? <==> forall e :: e in endpoints ==> !e.healthy
    {
      var pool := Healthy(endpoints);
      HealthyMembers(endpoints);
      if |pool| == 0 {
        return None;
      }
      var idx := counter;
      counter := NextTicket(counter);
      return Some(pool[idx % |pool|]);
    }

    method Add(e: Endpoint)
      modifies this`endpoints
      ensures endpoints == old(endpoints) + [e]
    {
      endpoints := endpoints + [e];
    }

    method Remove(id: string)
      modifies this`endpoints
      ensures endpoints == Without(old(endpoints), IdOf, id)
    {
      endpoints := Filtered(endpoints, IdOf, id);
    }
  }

  function EffectiveWeight(weight: int): nat { if weight <= 0 then 1 else weight }

  function Copies(e: Endpoint, n: nat): seq<Endpoint> {
    if n == 0 then [] else Copies(e, n - 1) + [e]
  }

  function Expand(pool: seq<Endpoint>): seq<Endpoint> {
    if pool == [] then [] else
      Expand(pool[..|pool| - 1]) + Copies(pool[|pool| - 1], EffectiveWeight(pool[|pool| - 1].weight))
  }

  class WeightedBalancer {
    var entries: seq<Endpoint>
    var counter: nat

    constructor (endpoints: seq<Endpoint>)
      ensures entries == endpoints && counter == 0
    {
      entries, counter := endpoints, 0;
    }

    method Next() returns (chosen: Option<Endpoint>)
      modifies this`counter
      ensures var slots := old(Expand(HealthyOf(entries)));
        if slots == [] then chosen == None && counter == old(counter)
        else chosen == Some(slots[old(counter) % |slots|]) && counter == NextTicket(old(counter))
      ensures chosen.Some? ==> chosen.value in entries && chosen.value.healthy
      ensures chosen.None? <==> forall e :: e in entries ==> !e.healthy
    {
      var pool := Healthy(entries);
      HealthyMembers(entries);
      if |pool| == 0 {
        return None;
      }
      var weighted: seq<Endpoint> := [];
      for k := 0 to |pool|
        invariant weighted == Expand(pool[..k])
        invariant k > 0 ==> weighted != []
      {
        assert pool[..k + 1][..k] == pool[..k];
        var weight := pool[k].weight;
        if weight <= 0 {
          weight := 1;
        }
        ghost var before := weighted;
        for i := 0 to weight
          invariant weighted == before + Copies(pool[k], i)
        {
          weighted := weighted + [pool[k]];
        }
      }
      assert pool[..|pool|] == pool;
      ExpandMembers(pool);
      var idx := counter;
      counter := NextTicket(counter);
      return Some(weighted[idx % |weighted|]);
    }

    method Add(e: Endpoint)
      modifies this`entries
      ensures entries == old(entries) + [e]
    {
      entries := entries + [e];
    }

    method Remove(id: string)
      modifies this`entries
      ensures entries == Without(old(entries), IdOf, id)
    {
      entries := Filtered(entries, IdOf, id);
    }
  }

  function TotalWeight(pool: seq<Endpoint>): nat {
    if pool == [] then 0 else
      TotalWeight(pool[..|pool| - 1]) + EffectiveWeight(pool[|pool| - 1].weight)
  }

  lemma {:induction false} CountCopies(f: Endpoint, n: nat, e: Endpoint)
    ensures |Copies(f, n)| == n && Count(Copies(f, n), e) == if e == f then n else 0
  {
    if n > 0 {
      CountCopies(f, n - 1, e);
      assert Copies(f, n)[..n - 1] == Copies(f, n - 1);
    }
  }

  lemma {:induction false} AllCopies(e: Endpoint, n: nat)
    ensures |Copies(e, n)| == n && forall k :: 0 <= k < n ==> Copies(e, n)[k] == e
  {
    if n > 0 { AllCopies(e, n - 1); }
  }

  lemma {:induction false} ExpandMembers(pool: seq<Endpoint>)
    ensures forall e :: e in Expand(pool) <==> e in pool
  {
    if pool != [] {
      var e := pool[|pool| - 1];
      ExpandMembers(pool[..|pool| - 1]);
      AllCopies(e, EffectiveWeight(e.weight));
      assert Copies(e, EffectiveWeight(e.weight))[0] == e;
    }
  }

  /** A further endpoint gets the next slots: as many as its weight says, or one if that is
      not positive. */
  lemma {:induction false} NextSlots(pool: seq<Endpoint>, e: Endpoint)
    ensures var before, after := Expand(pool), Expand(pool + [e]);
      && |after| == |before| + (if e.weight >= 1 then e.weight else 1)
      && after[..|before|] == before && forall k :: |before| <= k < |after| ==> after[k] == e
  {
    var w := EffectiveWeight(e.weight);
    assert (pool + [e])[..|pool|] == pool;
    AllCopies(e, w);
    assert Expand(pool + [e]) == Expand(pool) + Copies(e, w);
  }

  /** Any full cycle of tickets picks two endpoints in proportion to their weights, and one
      without positive weight as often as one of weight 1. */
  lemma {:induction false} PicksInProportion(pool: seq<Endpoint>, a: Endpoint, b: Endpoint, first: nat)
    requires Count(pool, a) == 1 && Count(pool, b) == 1 && Expand(pool) != []
    ensures var slots := Expand(pool);
      var inA, inB := Picks(slots, a, first, |slots|), Picks(slots, b, first, |slots|);
      && (a.weight >= 1 && b.weight >= 1 ==> inA * b.weight == inB * a.weight)
      && (a.weight >= 1 && b.weight <= 0 ==> inA == inB * a.weight)
  {
    PicksInACycle(pool, a, first);
    PicksInACycle(pool, b, first);
  }

  lemma {:induction false} PicksInACycle(pool: seq<Endpoint>, e: Endpoint, first: nat)
    requires Count(pool, e) == 1 && Expand(pool) != []
    ensures Picks(Expand(pool), e, first, |Expand(pool)|) == if e.weight >= 1 then e.weight else 1
  {
    ExpandCounts(pool, e);
    FullCycle(Expand(pool), e, first);
  }

  /** The expansion has one slot per unit of weight. */
  lemma {:induction false} ExpandCounts(pool: seq<Endpoint>, e: Endpoint)
    ensures |Expand(pool)| == TotalWeight(pool)
    ensures Count(Expand(pool), e) == Count(pool, e) * EffectiveWeight(e.weight)
  {
    if pool != [] {
      var front, f := pool[..|pool| - 1], pool[|pool| - 1];
      var w := EffectiveWeight(f.weight);
      ExpandCounts(front, e);
      CountAppend(Expand(front), Copies(f, w), e);
      CountCopies(f, w, e);
      NextMultiple(Count(front, e), EffectiveWeight(e.weight));
    }
  }

  /** Weighted fairness: with pool and health fixed, W the total and w its own
      effective weight, an endpoint listed once gets from any n consecutive tickets
      between floor(n/W)*w and floor(n/W)*w + min(w, n mod W) picks, and at least one
      from any W - w + 1. */
  lemma WeightedShare(pool: seq<Endpoint>, e: Endpoint, first: nat, n: nat)
    requires Count(pool, e) == 1
    ensures Expand(pool) != []
    ensures var W, w, got := TotalWeight(pool), EffectiveWeight(e.weight), Picks(Expand(pool), e, first, n);
      && w == (if e.weight >= 1 then e.weight else 1) && w <= W
      && n / W * w <= n / W * w + Max(0, n % W - (W - w)) <= got <= n / W * w + Min(w, n % W)
      && (n == W - w + 1 ==> got >= 1)
  {
    ExpandCounts(pool, e);
    var slots := Expand(pool);
    assert Count([], e) == 0;
    FairShare(slots, e, first, n);
    GapBound(slots, e, first);
  }

  /** Plain round robin is the same with every endpoint holding one slot. */
  lemma EvenShare(pool: seq<Endpoint>, e: Endpoint, first: nat, n: nat)
    requires Count(pool, e) == 1
    ensures pool != [] && n / |pool| <= Picks(pool, e, first, n) <= n / |pool| + Min(1, n % |pool|)
  {
    assert Count([], e) == 0;
    FairShare(pool, e, first, n);
    GapBound(pool, e, first);
  }

  /** Calling Next n times in a row, before the counter wraps: endpoint `e` is chosen as
      often as the tickets drawn pick it, hence as often as the bounds above say. */
  method DrawWeighted(lb: WeightedBalancer, e: Endpoint, n: nat) returns (got: nat)
    requires lb.counter + n <= TWO_64
    modifies lb`counter
    ensures var slots := old(Expand(HealthyOf(lb.entries)));
      got == if slots == [] then 0 else Picks(slots, e, old(lb.counter), n)
    ensures var pool := old(HealthyOf(lb.entries));
      Count(pool, e) == 1 ==>
        var W, w := TotalWeight(pool), EffectiveWeight(e.weight);
        && w == (if e.weight >= 1 then e.weight else 1) && w <= W
        && n / W * w <= got <= n / W * w + Min(w, n % W)
        && (n == W - w + 1 ==> got >= 1)
  {
    ghost var first, pool := lb.counter, HealthyOf(lb.entries);
    ghost var slots := Expand(pool);
    got := 0;
    for k := 0 to n
      invariant lb.entries == old(lb.entries) && HealthyOf(lb.entries) == pool
      invariant slots != [] && k < n ==> lb.counter == first + k
      invariant got == if slots == [] then 0 else Picks(slots, e, first, k)
    {
      var chosen := lb.Next();
      if chosen == Some(e) {
        got := got + 1;
      }
      if slots != [] { SmallTicket(first + k); }
    }
    if Count(pool, e) == 1 { WeightedShare(pool, e, first, n); }
  }

  method DrawEvenly(lb: RoundRobinBalancer, e: Endpoint, n: nat) returns (got: nat)
    requires lb.counter + n <= TWO_64
    modifies lb`counter
    ensures var pool := old(HealthyOf(lb.endpoints));
      got == if pool == [] then 0 else Picks(pool, e, old(lb.counter), n)
    ensures var pool := old(HealthyOf(lb.endpoints));
      Count(pool, e) == 1 ==> pool != [] && n / |pool| <= got <= n / |pool| + Min(1, n % |pool|)
  {
    ghost var first, pool := lb.counter, HealthyOf(lb.endpoints);
    got := 0;
    for k := 0 to n
      invariant lb.endpoints == old(lb.endpoints) && HealthyOf(lb.endpoints) == pool
      invariant pool != [] && k < n ==> lb.counter == first + k
      invariant got == if pool == [] then 0 else Picks(pool, e, first, k)
    {
      var chosen := lb.Next();
      if chosen == Some(e) {
        got := got + 1;
      }
      if pool != [] { SmallTicket(first + k); }
    }
    if Count(pool, e) == 1 { EvenShare(pool, e, first, n); }
  }

  lemma SmallTicket(ticket: nat)
    ensures ticket + 1 < TWO_64 ==> NextTicket(ticket) == ticket + 1
  {
  }

  /** The counter's 64-bit wrap never breaks the rotation exactly when the number of
      slots divides 2^64. */
  lemma WrapIsSeamlessExactly(slots: nat)
    requires slots > 0
    ensures (forall t: nat :: t < TWO_64 ==> NextTicket(t) % slots == (t + 1) % slots)
      <==> TWO_64 % slots == 0
  {
    var last: nat := TWO_64 - 1;
    assert 0 % slots == 0 by { QuotientBound(0, slots, 0 / slots, 0 % slots); QuotientBound(0 / slots, slots, 0, 0); }
    assert NextTicket(last) == 0;
    forall t: nat | t < last ensures NextTicket(t) == t + 1 {
    }
    if TWO_64 % slots != 0 {
      assert NextTicket(last) % slots != (last + 1) % slots;
    }
  }
}
