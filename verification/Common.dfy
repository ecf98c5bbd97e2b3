/** Shared idioms: optional values and the few facts of integer arithmetic that
    the other modules argue with. */
module Common {

  const SECOND := 1_000_000_000
  const TWO_64 := 0x1_0000_0000_0000_0000

  datatype Option<+T> = None | Some(value: T)

  function Max(a: int, b: int): int { if a < b then b else a }

  function Min(a: int, b: int): int { if a < b then a else b }

  lemma NextMultiple(k: int, d: int)
    ensures (k + 1) * d == k * d + d
  {
  }

  lemma ScaleMonotone(a: int, b: int, d: int)
    requires a <= b && 0 <= d
    ensures a * d <= b * d
  {
    assert (b - a) * d >= 0;
  }

  lemma QuotientBound(k: int, d: int, q: int, r: int)
    requires 0 < d && r < d && k * d <= q * d + r
    ensures k <= q
  {
    if k > q {
      ScaleMonotone(q + 1, k, d);
      NextMultiple(q, d);
      assert false;
    }
  }

  lemma MultipleFits(k: int, d: int, span: int)
    requires d > 0 && k * d <= span
    ensures k <= span / d
  {
    QuotientBound(k, d, span / d, span % d);
  }

  /** All items but those whose key is `id`, in order. */
  function Without<T>(s: seq<T>, key: T -> string, id: string): seq<T> {
    if s == [] then [] else
      var front, x := Without(s[..|s| - 1], key, id), s[|s| - 1];
      if key(x) != id then front + [x] else front
  }

  /** The in-place filter loop of the balancers. */
  method Filtered<T>(s: seq<T>, key: T -> string, id: string) returns (out: seq<T>)
    ensures out == Without(s, key, id)
  {
    out := [];
    for k := 0 to |s|
      invariant out == Without(s[..k], key, id)
    {
      assert s[..k + 1][..k] == s[..k];
      if key(s[k]) != id {
        out := out + [s[k]];
      }
    }
    assert s[..|s|] == s;
  }

  /** Position of the first item whose key is `id`, or |s|. */
  function IndexBy<T>(s: seq<T>, key: T -> string, id: string): (k: nat)
    ensures k <= |s| && (k < |s| ==> key(s[k]) == id)
    ensures forall j :: 0 <= j < k ==> key(s[j]) != id
  {
    if s == [] || key(s[0]) == id then 0 else 1 + IndexBy(s[1..], key, id)
  }

  function DropAt<T>(s: seq<T>, k: nat): seq<T>
    requires k < |s|
  {
    s[..k] + s[k + 1..]
  }

  lemma SplitAt<T>(s: seq<T>, k: nat)
    requires k < |s|
    ensures s == s[..k] + ([s[k]] + s[k + 1..])
  {
  }

  lemma NoOtherHas<T>(s: seq<T>, key: T -> string, k: nat, id: string)
    requires k < |s|
    ensures (forall j :: 0 <= j < |DropAt(s, k)| ==> key(DropAt(s, k)[j]) != id) <==>
      (forall j :: 0 <= j < |s| && j != k ==> key(s[j]) != id)
  {
    var rest := DropAt(s, k);
    if forall j :: 0 <= j < |rest| ==> key(rest[j]) != id {
      forall j | 0 <= j < |s| && j != k ensures key(s[j]) != id {
        assert s[j] == rest[if j < k then j else j - 1];
      }
    }
    if forall j :: 0 <= j < |s| && j != k ==> key(s[j]) != id {
      forall j | 0 <= j < |rest| ensures key(rest[j]) != id {
        assert rest[j] == s[if j < k then j else j + 1];
      }
    }
  }

  lemma {:induction false} WithoutSkips<T>(s: seq<T>, key: T -> string, k: nat)
    requires k < |s|
    ensures Without(s, key, key(s[k])) == Without(DropAt(s, k), key, key(s[k]))
  {
    var n := |s| - 1;
    if k == n {
      assert DropAt(s, k) == s[..n];
    } else {
      var rest := DropAt(s, k);
      WithoutSkips(s[..n], key, k);
      assert rest[..n - 1] == DropAt(s[..n], k) && rest[n - 1] == s[n] && s[..n][k] == s[k];
    }
  }

  /** Dropping every item with the key of item k drops just that item exactly when no
      other one has it. */
  lemma WithoutDropsOneExactly<T>(s: seq<T>, key: T -> string, k: nat)
    requires k < |s|
    ensures |Without(s, key, key(s[k]))| == |s| - 1 <==> forall j :: 0 <= j < |s| && j != k ==> key(s[j]) != key(s[k])
    ensures |Without(s, key, key(s[k]))| == |s| - 1 ==> Without(s, key, key(s[k])) == DropAt(s, k)
  {
    WithoutSkips(s, key, k);
    WithoutNothing(DropAt(s, k), key, key(s[k]));
    NoOtherHas(s, key, k, key(s[k]));
  }

  /** The filter keeps everything exactly when no item has the key. */
  lemma {:induction false} WithoutNothing<T>(s: seq<T>, key: T -> string, id: string)
    ensures |Without(s, key, id)| <= |s|
    ensures (forall k :: 0 <= k < |s| ==> key(s[k]) != id) ==> Without(s, key, id) == s
    ensures |Without(s, key, id)| == |s| ==> forall k :: 0 <= k < |s| ==> key(s[k]) != id
  {
    if s != [] { WithoutNothing(s[..|s| - 1], key, id); }
  }

  lemma {:induction false} WithoutRemoves<T>(s: seq<T>, key: T -> string, id: string)
    ensures forall x :: x in Without(s, key, id) <==> x in s && key(x) != id
  {
    if s != [] { WithoutRemoves(s[..|s| - 1], key, id); }
  }
}
