/** Slices: a length and a backing array that an edit changes in place. Two slices with
    the same backing array see each other's edits. */
module Slices {
  import opened Common
  import opened Sorting

  datatype Slice<T> = Slice(cells: array<T>, len: nat) {
    predicate Fits() { len <= cells.Length }

    function Items(): (s: seq<T>)
      requires Fits()
      reads cells
      ensures |s| == len && forall k :: 0 <= k < len ==> s[k] == cells[k]
    {
      cells[..len]
    }
  }

  method Empty<T>() returns (s: Slice<T>)
    ensures s.Fits() && fresh(s.cells) && s.Items() == []
  {
    var cells := new T[0];
    s := Slice(cells, 0);
  }

  /** Writes into spare capacity where there is some, and moves to a larger backing array
      otherwise. */
  method Append<T>(s: Slice<T>, x: T) returns (out: Slice<T>)
    requires s.Fits()
    modifies s.cells
    ensures out.Fits() && if s.len < s.cells.Length then out.cells == s.cells else fresh(out.cells)
    ensures out.Items() == old(s.Items()) + [x]
  {
    if s.len < s.cells.Length {
      s.cells[s.len] := x;
      return Slice(s.cells, s.len + 1);
    }
    var cells := new T[2 * s.len + 1](_ => x);
    for k := 0 to s.len
      invariant cells[..k] == s.cells[..k]
      invariant unchanged(s.cells) && cells[s.len] == x
    {
      cells[k] := s.cells[k];
    }
    out := Slice(cells, s.len + 1);
    assert out.Items() == cells[..s.len] + [x];
  }

  /** Shifts the later items down by one. */
  method RemoveAt<T>(s: Slice<T>, at: nat) returns (out: Slice<T>)
    requires s.Fits() && at < s.len
    modifies s.cells
    ensures out == Slice(s.cells, s.len - 1) && out.Fits()
    ensures out.Items() == DropAt(old(s.Items()), at)
  {
    for k := at to s.len - 1
      invariant forall j :: 0 <= j < at ==> s.cells[j] == old(s.cells[j])
      invariant forall j :: at <= j < k ==> s.cells[j] == old(s.cells[j + 1])
      invariant forall j :: k <= j < s.len ==> s.cells[j] == old(s.cells[j])
    {
      s.cells[k] := s.cells[k + 1];
    }
    out := Slice(s.cells, s.len - 1);
  }

  /** A copy with a backing array of its own. */
  method Copy<T>(s: Slice<T>) returns (out: Slice<T>)
    requires s.Fits()
    ensures out.Fits() && fresh(out.cells) && out.Items() == s.Items()
  {
    out := Empty();
    for k := 0 to s.len
      invariant out.Fits() && fresh(out.cells) && out.Items() == s.Items()[..k]
    {
      out := Append(out, s.cells[k]);
    }
  }

  method SwapBefore<T>(s: Slice<T>, k: nat)
    requires s.Fits() && 0 < k < s.len
    modifies s.cells
    ensures s.Items() == old(s.Items())[k - 1 := old(s.Items())[k]][k := old(s.Items())[k - 1]]
    ensures multiset(s.Items()) == multiset(old(s.Items()))
  {
    s.cells[k - 1], s.cells[k] := s.cells[k], s.cells[k - 1];
    assert s.Items() == old(s.Items())[k - 1 := old(s.Items())[k]][k := old(s.Items())[k - 1]];
  }

  /** The first `at` + 1 items are in order, but for the one at `k`, which may belong
      further down. */
  ghost predicate SortedBut<T>(items: seq<T>, priority: T -> int, at: nat, k: nat) {
    forall i, j :: 0 <= i < j <= at < |items| && j != k ==> priority(items[i]) <= priority(items[j])
  }

  /** Moves item `at` down to its place among the sorted items before it. */
  method SinkInto<T>(s: Slice<T>, at: nat, priority: T -> int)
    requires s.Fits() && at < s.len && Sorted(s.Items()[..at], priority)
    modifies s.cells
    ensures Sorted(s.Items()[..at + 1], priority) && multiset(s.Items()) == multiset(old(s.Items()))
  {
    var k := at;
    while k > 0 && priority(s.cells[k - 1]) > priority(s.cells[k])
      invariant 0 <= k <= at
      invariant multiset(s.Items()) == multiset(old(s.Items()))
      invariant SortedBut(s.Items(), priority, at, k)
    {
      SinkOnce(s.Items(), priority, at, k);
      SwapBefore(s, k);
      k := k - 1;
    }
  }

  lemma SinkOnce<T>(items: seq<T>, priority: T -> int, at: nat, k: nat)
    requires SortedBut(items, priority, at, k) && 0 < k <= at < |items|
    requires priority(items[k - 1]) > priority(items[k])
    ensures SortedBut(items[k - 1 := items[k]][k := items[k - 1]], priority, at, k - 1)
  {
  }

  method SortInPlace<T>(s: Slice<T>, priority: T -> int)
    requires s.Fits()
    modifies s.cells
    ensures IsSortOf(old(s.Items()), s.Items(), priority)
  {
    for k := 0 to s.len
      invariant Sorted(s.Items()[..k], priority)
      invariant multiset(s.Items()) == multiset(old(s.Items()))
    {
      SinkInto(s, k, priority);
    }
    assert s.Items()[..s.len] == s.Items();
  }
}
