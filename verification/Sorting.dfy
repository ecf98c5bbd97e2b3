/** Sorting by an integer priority, as far as the program may rely on it. */
module Sorting {

  ghost predicate Sorted<T>(s: seq<T>, priority: T -> int) {
    forall i, j :: 0 <= i < j < |s| ==> priority(s[i]) <= priority(s[j])
  }

  /** `out` is some arrangement of `s` by ascending priority. The program's sort is not
      stable, so nothing is said about items of equal priority. */
  ghost predicate IsSortOf<T>(s: seq<T>, out: seq<T>, priority: T -> int) {
    Sorted(out, priority) && multiset(out) == multiset(s)
  }

  method Insert<T>(s: seq<T>, x: T, priority: T -> int) returns (out: seq<T>)
    requires Sorted(s, priority)
    ensures IsSortOf(s + [x], out, priority)
  {
    var at := |s|;
    while at > 0 && priority(s[at - 1]) > priority(x)
      invariant 0 <= at <= |s|
      invariant forall j :: at <= j < |s| ==> priority(x) < priority(s[j])
    {
      at := at - 1;
    }
    out := s[..at] + [x] + s[at..];
    InsertKeepsSorted(s[..at], x, s[at..], priority);
    InsertMultiset(s[..at], x, s[at..]);
    assert s == s[..at] + s[at..];
  }

  method Sort<T>(s: seq<T>, priority: T -> int) returns (out: seq<T>)
    ensures IsSortOf(s, out, priority)
  {
    out := [];
    for k := 0 to |s|
      invariant IsSortOf(s[..k], out, priority)
    {
      out := Insert(out, s[k], priority);
      assert s[..k + 1] == s[..k] + [s[k]];
    }
    assert s[..|s|] == s;
  }

  lemma InsertMultiset<T>(a: seq<T>, x: T, b: seq<T>)
    ensures multiset(a + [x] + b) == multiset(a + b + [x])
  {
  }

  lemma InsertKeepsSorted<T>(a: seq<T>, x: T, b: seq<T>, priority: T -> int)
    requires Sorted(a + b, priority)
    requires a != [] ==> priority(a[|a| - 1]) <= priority(x)
    requires forall k :: 0 <= k < |b| ==> priority(x) < priority(b[k])
    ensures Sorted(a + [x] + b, priority)
  {
    var all, out := a + b, a + [x] + b;
    assert forall i :: 0 <= i < |a| ==> out[i] == all[i];
    assert forall i :: |a| < i < |out| ==> out[i] == all[i - 1] && out[i] == b[i - |a| - 1];
    forall i, j | 0 <= i < j < |out| ensures priority(out[i]) <= priority(out[j]) {
      if j == |a| { assert priority(all[i]) <= priority(all[|a| - 1]); }
    }
  }

  lemma SortKeepsMembers<T>(s: seq<T>, out: seq<T>, priority: T -> int)
    requires IsSortOf(s, out, priority)
    ensures |out| == |s| && forall x :: x in out <==> x in s
  {
    assert |multiset(out)| == |multiset(s)|;
    forall x ensures x in out <==> x in s {
      assert x in multiset(out) <==> x in multiset(s);
    }
  }
}
