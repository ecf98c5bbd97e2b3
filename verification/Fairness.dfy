/** How evenly a ticket counter taken modulo the number of slots spreads its picks. */
module Fairness {
  import opened Common

  function Count<T(==)>(s: seq<T>, e: T): nat {
    if s == [] then 0 else Count(s[..|s| - 1], e) + if s[|s| - 1] == e then 1 else 0
  }

  lemma {:induction false} CountAppend<T>(s: seq<T>, t: seq<T>, e: T)
    ensures Count(s + t, e) == Count(s, e) + Count(t, e)
  {
    if t == [] {
      assert s + t == s;
    } else {
      CountAppend(s, t[..|t| - 1], e);
      assert (s + t)[..|s + t| - 1] == s + t[..|t| - 1];
    }
  }

  function Hit<T(==)>(slots: seq<T>, e: T, ticket: nat): nat
    requires slots != []
  {
    if slots[ticket % |slots|] == e then 1 else 0
  }

  /** How many of the `n` consecutive tickets from `first` on pick `e`. */
  function Picks<T(==)>(slots: seq<T>, e: T, first: nat, n: nat): nat
    requires slots != []
  {
    if n == 0 then 0 else Picks(slots, e, first, n - 1) + Hit(slots, e, first + n - 1)
  }

  lemma {:induction false} PicksSplit<T>(slots: seq<T>, e: T, first: nat, a: nat, b: nat)
    requires slots != []
    ensures Picks(slots, e, first, a + b) == Picks(slots, e, first, a) + Picks(slots, e, first + a, b)
  {
    if b > 0 { PicksSplit(slots, e, first, a, b - 1); }
  }

  lemma {:induction false} AtMostAll<T>(slots: seq<T>, e: T, first: nat, n: nat)
    requires slots != []
    ensures Picks(slots, e, first, n) <= n
  {
    if n > 0 { AtMostAll(slots, e, first, n - 1); }
  }

  lemma {:induction false} FirstCycle<T>(slots: seq<T>, e: T, n: nat)
    requires slots != [] && n <= |slots|
    ensures Picks(slots, e, 0, n) == Count(slots[..n], e)
  {
    if n > 0 {
      FirstCycle(slots, e, n - 1);
      FirstSlots(slots, e, n - 1);
      assert slots[..n][..n - 1] == slots[..n - 1];
    }
  }

  lemma FirstSlots<T>(slots: seq<T>, e: T, ticket: nat)
    requires ticket < |slots|
    ensures Hit(slots, e, ticket) == if slots[ticket] == e then 1 else 0
  {
    QuotientBound(ticket / |slots|, |slots|, 0, ticket);
    assert ticket % |slots| == ticket;
  }

  lemma NextCycleSlot<T>(slots: seq<T>, e: T, ticket: nat)
    requires slots != []
    ensures Hit(slots, e, ticket + |slots|) == Hit(slots, e, ticket)
  {
    ModShift(ticket, |slots|);
  }

  lemma ModShift(a: nat, d: nat)
    requires d > 0
    ensures (a + d) % d == a % d
  {
    var q, r, q', r' := a / d, a % d, (a + d) / d, (a + d) % d;
    NextMultiple(q, d);
    assert (q + 1) * d + r == q' * d + r';
    QuotientBound(q + 1, d, q', r');
    QuotientBound(q', d, q + 1, r);
  }

  /** Every full cycle, from any ticket on, picks each slot once. */
  lemma {:induction false} FullCycle<T>(slots: seq<T>, e: T, first: nat)
    requires slots != []
    ensures Picks(slots, e, first, |slots|) == Count(slots, e)
  {
    var W := |slots|;
    if first == 0 {
      FirstCycle(slots, e, W);
      assert slots[..W] == slots;
    } else {
      FullCycle(slots, e, first - 1);
      PicksSplit(slots, e, first - 1, 1, W);
      PicksSplit(slots, e, first - 1, W, 1);
      assert Picks(slots, e, first - 1 + W, 1) == Picks(slots, e, first - 1 + W, 0) + Hit(slots, e, first - 1 + W);
      assert Picks(slots, e, first - 1, 1) == Picks(slots, e, first - 1, 0) + Hit(slots, e, first - 1);
      NextCycleSlot(slots, e, first - 1);
    }
  }

  /** Less than a cycle. */
  lemma PartCycle<T>(slots: seq<T>, e: T, first: nat, r: nat)
    requires slots != [] && r <= |slots|
    ensures Max(0, r - (|slots| - Count(slots, e))) <= Picks(slots, e, first, r) <= Min(Count(slots, e), r)
  {
    PicksSplit(slots, e, first, r, |slots| - r);
    FullCycle(slots, e, first);
    AtMostAll(slots, e, first, r);
    AtMostAll(slots, e, first + r, |slots| - r);
  }

  lemma {:induction false} Cycles<T>(slots: seq<T>, e: T, first: nat, q: nat, r: nat)
    requires slots != []
    ensures 0 <= q * |slots| && Picks(slots, e, first, q * |slots| + r)
      == q * Count(slots, e) + Picks(slots, e, first + q * |slots|, r)
  {
    if q > 0 {
      NextMultiple(q - 1, |slots|);
      NextMultiple(q - 1, Count(slots, e));
      Cycles(slots, e, first, q - 1, |slots| + r);
      PicksSplit(slots, e, first + (q - 1) * |slots|, |slots|, r);
      FullCycle(slots, e, first + (q - 1) * |slots|);
    }
  }

  /** Any n consecutive tickets pick `e` once per full cycle and slot it holds, plus
      what the remainder of n forces at least and allows at most. Multiples of the
      cycle are exact. */
  lemma FairShare<T>(slots: seq<T>, e: T, first: nat, n: nat)
    requires slots != []
    ensures var W, w := |slots|, Count(slots, e);
      n / W * w + Max(0, n % W - (W - w)) <= Picks(slots, e, first, n) <= n / W * w + Min(w, n % W)
  {
    var q, r := n / |slots|, n % |slots|;
    assert n == q * |slots| + r;
    Cycles(slots, e, first, q, r);
    PartCycle(slots, e, first + q * |slots|, r);
  }

  lemma {:induction false} CountBlock<T>(slots: seq<T>, e: T, w: nat, n: nat)
    requires n <= |slots| && forall k :: 0 <= k < |slots| ==> (slots[k] == e <==> k < w)
    ensures Count(slots[..n], e) == Min(w, n)
  {
    if n > 0 {
      CountBlock(slots, e, w, n - 1);
      assert slots[..n][..n - 1] == slots[..n - 1];
    }
  }

  /** Both bounds are reached when the slots of `e` stand together, as the weight expansion
      puts them: counting from their first slot, and from the slot after their last. Here n
      is `q` cycles and `r` tickets more. */
  lemma {:induction false} FairShareIsTight<T>(slots: seq<T>, e: T, w: nat, n: nat, q: nat, r: nat)
    requires w <= |slots| && r < |slots| && n == q * |slots| + r
    requires forall k :: 0 <= k < |slots| ==> (slots[k] == e <==> k < w)
    ensures Count(slots, e) == w
    ensures Picks(slots, e, 0, n) == q * w + Min(w, r)
    ensures Picks(slots, e, w, n) == q * w + Max(0, r - (|slots| - w))
  {
    assert Count(slots, e) == w by {
      CountBlock(slots, e, w, |slots|);
      assert slots[..|slots|] == slots;
    }
    FromTheStart(slots, e, w, r);
    FromTheEnd(slots, e, w, r);
    WholeCycles(slots, e, 0, n, q, r);
    WholeCycles(slots, e, w, n, q, r);
  }

  lemma {:induction false} WholeCycles<T>(slots: seq<T>, e: T, first: nat, n: nat, q: nat, r: nat)
    requires slots != [] && n == q * |slots| + r
    ensures Picks(slots, e, first, n) == q * Count(slots, e) + Picks(slots, e, first, r)
  {
    Cycles(slots, e, first, q, r);
    SameAfterCycles(slots, e, first, q, r);
  }

  lemma FromTheStart<T>(slots: seq<T>, e: T, w: nat, r: nat)
    requires slots != [] && r <= |slots| && forall k :: 0 <= k < |slots| ==> (slots[k] == e <==> k < w)
    ensures Picks(slots, e, 0, r) == Min(w, r)
  {
    FirstCycle(slots, e, r);
    CountBlock(slots, e, w, r);
  }

  lemma FromTheEnd<T>(slots: seq<T>, e: T, w: nat, r: nat)
    requires slots != [] && w <= |slots| && r < |slots|
    requires forall k :: 0 <= k < |slots| ==> (slots[k] == e <==> k < w)
    ensures Picks(slots, e, w, r) == Max(0, r - (|slots| - w))
  {
    var rest := |slots| - w;
    if r <= rest {
      PicksSplit(slots, e, 0, w, r);
      FromTheStart(slots, e, w, w);
      FromTheStart(slots, e, w, w + r);
    } else {
      PicksSplit(slots, e, w, rest, r - rest);
      FromTheEnd(slots, e, w, rest);
      SameAfterCycles(slots, e, 0, 1, r - rest);
      FromTheStart(slots, e, w, r - rest);
    }
  }

  /** Whole cycles later the same slots come up. */
  lemma {:induction false} SameAfterCycles<T>(slots: seq<T>, e: T, first: nat, q: nat, r: nat)
    requires slots != []
    ensures 0 <= q * |slots| && Picks(slots, e, first + q * |slots|, r) == Picks(slots, e, first, r)
  {
    if q > 0 {
      NextMultiple(q - 1, |slots|);
      SameAfterCycles(slots, e, first, q - 1, r);
      OneCycleLater(slots, e, first + (q - 1) * |slots|, r);
    }
  }

  lemma {:induction false} OneCycleLater<T>(slots: seq<T>, e: T, first: nat, r: nat)
    requires slots != []
    ensures Picks(slots, e, first + |slots|, r) == Picks(slots, e, first, r)
  {
    if r > 0 {
      OneCycleLater(slots, e, first, r - 1);
      NextCycleSlot(slots, e, first + r - 1);
    }
  }

  /** A slot holder never waits longer than the slots of all others. */
  lemma GapBound<T>(slots: seq<T>, e: T, first: nat)
    requires slots != [] && Count(slots, e) >= 1
    ensures Count(slots, e) <= |slots|
    ensures Picks(slots, e, first, |slots| - Count(slots, e) + 1) >= 1
  {
    FullCycle(slots, e, first);
    AtMostAll(slots, e, first, |slots|);
    PartCycle(slots, e, first, |slots| - Count(slots, e) + 1);
  }

  // ------------------------------------------------------------ concurrent callers

  /** `who[k]` is the caller whose fetch-and-add comes k-th; it gets ticket first + k. */
  function CallerPicks<T(==)>(slots: seq<T>, e: T, first: nat, who: seq<nat>, caller: nat): nat
    requires slots != []
  {
    if who == [] then 0 else
      var k := |who| - 1;
      CallerPicks(slots, e, first, who[..k], caller) + if who[k] == caller then Hit(slots, e, first + k) else 0
  }

  function AllCallers<T(==)>(slots: seq<T>, e: T, first: nat, who: seq<nat>, callers: nat): nat
    requires slots != []
  {
    if callers == 0 then 0 else
      AllCallers(slots, e, first, who, callers - 1) + CallerPicks(slots, e, first, who, callers - 1)
  }

  lemma {:induction false} OneTicketMore<T>(slots: seq<T>, e: T, first: nat, who: seq<nat>, callers: nat)
    requires slots != [] && who != []
    ensures var k := |who| - 1;
      AllCallers(slots, e, first, who, callers) ==
        AllCallers(slots, e, first, who[..k], callers) + if who[k] < callers then Hit(slots, e, first + k) else 0
  {
    if callers > 0 { OneTicketMore(slots, e, first, who, callers - 1); }
  }

  /** Whoever takes which ticket, all callers together pick `e` exactly as often as
      one caller drawing the same number of tickets. */
  lemma {:induction false} InterleavingDoesNotMatter<T>(slots: seq<T>, e: T, first: nat, who: seq<nat>, callers: nat)
    requires slots != [] && forall k :: 0 <= k < |who| ==> who[k] < callers
    ensures AllCallers(slots, e, first, who, callers) == Picks(slots, e, first, |who|)
  {
    if who == [] {
      NoTickets(slots, e, first, callers);
    } else {
      OneTicketMore(slots, e, first, who, callers);
      InterleavingDoesNotMatter(slots, e, first, who[..|who| - 1], callers);
    }
  }

  lemma {:induction false} NoTickets<T>(slots: seq<T>, e: T, first: nat, callers: nat)
    requires slots != []
    ensures AllCallers(slots, e, first, [], callers) == 0
  {
    if callers > 0 { NoTickets(slots, e, first, callers - 1); }
  }
}
