/** When forgetting idle buckets cannot be noticed by any client. */
module Eviction {
  import opened Common
  import opened RateLimit

  /** The history without its cleanup turns. */
  function CallsOnly(es: seq<Event>): seq<Event> {
    if es == [] then [] else
      var calls, e := CallsOnly(es[..|es| - 1]), es[|es| - 1];
      if e.Call? then calls + [e] else calls
  }

  /** The answers given to the calls of a history, in order. */
  function Answers(c: Limits, es: seq<Event>): seq<bool> {
    if es == [] then [] else
      var before, e := es[..|es| - 1], es[|es| - 1];
      if e.Call? then Answers(c, before) + [Grants(c, Play(c, map[], before), e.key, e.since)]
      else Answers(c, before)
  }

  function KeysOf(es: seq<Event>): set<string> {
    if es == [] then {} else
      var keys, e := KeysOf(es[..|es| - 1]), es[|es| - 1];
      if e.Call? then keys + {e.key} else keys
  }

  /** No run that stays within the key cap can tell whether cleanup ran. */
  ghost predicate Invisible(c: Limits) {
    forall es :: Timely(es) && |KeysOf(es)| <= KEY_CAP ==> Answers(c, es) == Answers(c, CallsOnly(es))
  }

  /** `a` is the map with cleanup and `b` the one without, at instant `t`: they agree
      where `a` has a bucket, and a bucket missing from `a` has been idle too long. */
  ghost predicate Related(a: Clients, b: Clients, t: int) {
    && (forall key :: key in a ==> key in b && a[key] == b[key])
    && (forall key :: key in b && key !in a ==> t - b[key].lastSeen > IDLE)
  }

  lemma SubsetSize<T>(a: set<T>, b: set<T>)
    requires a <= b
    ensures |a| <= |b|
    ensures a != b ==> |a| < |b|
  {
    assert b == a + (b - a);
  }

  /** An evicted bucket would have been full again by now. */
  lemma IdleBucketIsFull(c: Limits, b: Bucket, since: int)
    requires 600 * c.rate >= c.burst >= 1 && 0 <= b.tokens && since - b.lastSeen > IDLE
    ensures Refilled(c, b, since) == c.burst
  {
    ScaleMonotone(600, Whole(since - b.lastSeen), c.rate);
  }

  lemma CallKeepsRelated(c: Limits, a: Clients, b: Clients, e: Event, t: int, cap: set<string>)
    requires 600 * c.rate >= c.burst >= 1 && InRange(c, b)
    requires Related(a, b, t) && e.Call? && t <= e.since <= e.now
    requires b.Keys + {e.key} <= cap && |cap| <= KEY_CAP
    ensures Grants(c, a, e.key, e.since) == Grants(c, b, e.key, e.since)
    ensures Related(Step(c, a, e), Step(c, b, e), e.now)
  {
    assert a.Keys <= b.Keys;
    SubsetSize(a.Keys, b.Keys);
    SubsetSize(b.Keys, cap);
    if e.key in b && e.key !in a {
      IdleBucketIsFull(c, b[e.key], e.since);
    }
  }

  lemma PlayAppend(c: Limits, es: seq<Event>, e: Event)
    ensures Play(c, map[], es + [e]) == Step(c, Play(c, map[], es), e)
  {
    assert (es + [e])[..|es|] == es;
  }

  lemma AnswersAppend(c: Limits, es: seq<Event>, e: Event)
    ensures Answers(c, es + [e]) ==
      Answers(c, es) + if e.Call? then [Grants(c, Play(c, map[], es), e.key, e.since)] else []
  {
    assert (es + [e])[..|es|] == es;
  }

  lemma KeysAppend(es: seq<Event>, e: Event)
    ensures KeysOf(es + [e]) == KeysOf(es) + if e.Call? then {e.key} else {}
  {
    assert (es + [e])[..|es|] == es;
  }

  lemma {:induction false} CallsOnlyAreCalls(es: seq<Event>)
    ensures forall e :: e in CallsOnly(es) ==> e.Call? && e in es
  {
    if es != [] { CallsOnlyAreCalls(es[..|es| - 1]); }
  }

  lemma {:induction false} CallsOnlyKeys(es: seq<Event>)
    ensures KeysOf(CallsOnly(es)) == KeysOf(es)
  {
    if es != [] {
      CallsOnlyKeys(es[..|es| - 1]);
      KeysAppend(CallsOnly(es[..|es| - 1]), es[|es| - 1]);
    }
  }

  lemma {:induction false} OnlyCalledKeys(c: Limits, es: seq<Event>)
    ensures Play(c, map[], es).Keys <= KeysOf(es)
  {
    if es != [] { OnlyCalledKeys(c, es[..|es| - 1]); }
  }

  lemma {:induction false} CallsOnlyTimely(es: seq<Event>)
    requires Timely(es)
    ensures Timely(CallsOnly(es))
  {
    if es != [] {
      var before, e := es[..|es| - 1], es[|es| - 1];
      CallsOnlyTimely(before);
      CallsOnlyAreCalls(before);
      forall x | x in before ensures Finish(x) <= Begin(e) {
        var k :| 0 <= k < |before| && before[k] == x;
        assert es[k] == x;
      }
    }
  }

  /** The instant by which all events so far are over. */
  function Now(es: seq<Event>, next: int): int {
    if es == [] then next else Finish(es[|es| - 1])
  }

  lemma {:induction false} CleanupSimulates(c: Limits, es: seq<Event>, t: int)
    requires 600 * c.rate >= c.burst >= 1
    requires Timely(es) && |KeysOf(es)| <= KEY_CAP
    requires Now(es, t) <= t
    ensures Answers(c, es) == Answers(c, CallsOnly(es))
    ensures Related(Play(c, map[], es), Play(c, map[], CallsOnly(es)), t)
  {
    if es != [] {
      var before, e := es[..|es| - 1], es[|es| - 1];
      var calls := CallsOnly(before);
      assert Now(before, Begin(e)) <= Begin(e) <= Finish(e) <= t;
      SubsetSize(KeysOf(before), KeysOf(es));
      CleanupSimulates(c, before, Begin(e));
      if e.Call? {
        TokensOfCalls(c, before);
        CallKeepsRelated(c, Play(c, map[], before), Play(c, map[], calls), e, e.since, KeysOf(es));
        PlayAppend(c, calls, e);
        AnswersAppend(c, calls, e);
      }
    }
  }

  lemma TokensOfCalls(c: Limits, es: seq<Event>)
    requires c.burst >= 1 && c.rate >= 0 && Timely(es)
    ensures InRange(c, Play(c, map[], CallsOnly(es)))
    ensures Play(c, map[], CallsOnly(es)).Keys <= KeysOf(es)
  {
    CallsOnlyTimely(es);
    TokensInRange(c, CallsOnly(es));
    OnlyCalledKeys(c, CallsOnly(es));
    CallsOnlyKeys(es);
  }

  // ------------------------------------------------ the other side: a visible run

  /** `es` followed by `n` calls of one key at instant t. */
  function Calls(es: seq<Event>, t: int, n: nat): seq<Event> {
    if n == 0 then es else Calls(es, t, n - 1) + [Call("k", t, t)]
  }

  function Only(tokens: int, lastSeen: int): Clients { map["k" := Bucket(tokens, lastSeen)] }

  lemma SpendOne(c: Limits, tokens: int, t: int)
    requires 0 < tokens <= c.burst
    ensures Step(c, Only(tokens, t), Call("k", t, t)) == Only(tokens - 1, t)
    ensures Grants(c, Only(tokens, t), "k", t)
  {
  }

  lemma DrainStep(c: Limits, es: seq<Event>, tokens: int, t: int)
    requires Play(c, map[], es) == Only(tokens, t) && 0 < tokens <= c.burst
    ensures Play(c, map[], es + [Call("k", t, t)]) == Only(tokens - 1, t)
  {
    SpendOne(c, tokens, t);
    PlayAppend(c, es, Call("k", t, t));
  }

  /** Further calls at the instant of a first one spend one token each while they last. */
  lemma {:induction false} Drain(c: Limits, es: seq<Event>, tokens: int, t: int, n: nat)
    requires Play(c, map[], es + [Call("k", t, t)]) == Only(tokens, t)
    requires n == 0 || n <= tokens <= c.burst
    ensures Play(c, map[], Calls(es, t, n + 1)) == Only(tokens - n, t)
  {
    if n > 0 {
      Drain(c, es, tokens, t, n - 1);
      DrainStep(c, Calls(es, t, n), tokens - (n - 1), t);
    } else {
      assert Calls(es, t, 0) == es;
    }
  }

  lemma FirstCall(c: Limits, es: seq<Event>, t: int)
    requires Play(c, map[], es) == map[]
    ensures Play(c, map[], es + [Call("k", t, t)]) == Only(c.burst - 1, t)
  {
    PlayAppend(c, es, Call("k", t, t));
  }

  /** A first call on an empty map, then more at the same instant. */
  lemma FirstBurst(c: Limits, es: seq<Event>, t: int, n: nat)
    requires Play(c, map[], es) == map[] && 1 <= n <= Max(c.burst, 1)
    ensures Play(c, map[], Calls(es, t, n)) == Only(c.burst - n, t)
  {
    FirstCall(c, es, t);
    Drain(c, es, c.burst - 1, t, n - 1);
  }

  const T := IDLE + 1

  /** How many tokens an emptied bucket has regained when it may be evicted. */
  function Regained(c: Limits): nat { if c.burst < 1 then 0 else Max(600 * c.rate, 0) }

  function Spend(c: Limits): seq<Event> { Calls([], 0, Max(c.burst, 1)) }

  function WithEviction(c: Limits): seq<Event> { Calls(Spend(c) + [Examine("k", T)], T, Regained(c)) }

  function WithoutEviction(c: Limits): seq<Event> { Calls(Spend(c), T, Regained(c)) }

  /** Empty the bucket, let it idle just long enough to be evicted, then ask for one
      call more than the refill alone would grant. */
  function Probe(c: Limits): seq<Event> { WithEviction(c) + [Call("k", T, T)] }

  lemma Spent(c: Limits)
    ensures Play(c, map[], Spend(c)) == Only(Min(c.burst - 1, 0), 0)
  {
    FirstBurst(c, [], 0, Max(c.burst, 1));
  }

  lemma GrantedAfterEviction(c: Limits)
    requires !(600 * c.rate >= c.burst >= 1)
    ensures Grants(c, Play(c, map[], WithEviction(c)), "k", T)
  {
    var evicted := Spend(c) + [Examine("k", T)];
    Spent(c);
    EvictedAt(c, Spend(c), Min(c.burst - 1, 0));
    if Regained(c) > 0 {
      FirstBurst(c, evicted, T, Regained(c));
      SpendOne(c, c.burst - Regained(c), T);
    }
  }

  lemma EvictedAt(c: Limits, es: seq<Event>, tokens: int)
    requires Play(c, map[], es) == Only(tokens, 0)
    ensures Play(c, map[], es + [Examine("k", T)]) == map[]
  {
    PlayAppend(c, es, Examine("k", T));
  }

  lemma RefusedWithoutEviction(c: Limits)
    requires !(600 * c.rate >= c.burst >= 1)
    ensures !Grants(c, Play(c, map[], WithoutEviction(c)), "k", T)
  {
    Spent(c);
    RegainStep(c);
    if Regained(c) > 0 {
      RegainedAt(c, Spend(c));
      Drain(c, Spend(c), Regained(c) - 1, T, Regained(c) - 1);
    }
  }

  lemma RegainedAt(c: Limits, es: seq<Event>)
    requires !(600 * c.rate >= c.burst >= 1) && Regained(c) > 0
    requires Play(c, map[], es) == Only(Min(c.burst - 1, 0), 0)
    ensures Play(c, map[], es + [Call("k", T, T)]) == Only(Regained(c) - 1, T)
  {
    RegainStep(c);
    PlayAppend(c, es, Call("k", T, T));
  }

  /** What the emptied bucket answers to a first call at instant T. */
  lemma RegainStep(c: Limits)
    requires !(600 * c.rate >= c.burst >= 1)
    ensures var spent := Only(Min(c.burst - 1, 0), 0);
      if Regained(c) > 0 then Step(c, spent, Call("k", T, T)) == Only(Regained(c) - 1, T)
      else !Grants(c, spent, "k", T)
    ensures !Grants(c, Only(0, T), "k", T)
  {
    assert Whole(T) == 600;
  }

  lemma {:induction false} CallsOnlyOfCalls(es: seq<Event>, t: int, n: nat)
    ensures CallsOnly(Calls(es, t, n)) == Calls(CallsOnly(es), t, n)
  {
    if n > 0 {
      var before, e := Calls(es, t, n - 1), Call("k", t, t);
      assert CallsOnly(before) == Calls(CallsOnly(es), t, n - 1) by { CallsOnlyOfCalls(es, t, n - 1); }
      assert Calls(es, t, n) == before + [e];
      assert Calls(CallsOnly(es), t, n) == Calls(CallsOnly(es), t, n - 1) + [e];
      assert CallsOnly(before + [e]) == CallsOnly(before) + [e] by { CallsOnlyAppend(before, e); }
    }
  }

  lemma {:induction false} CallsOnlyAppend(es: seq<Event>, e: Event)
    ensures CallsOnly(es + [e]) == if e.Call? then CallsOnly(es) + [e] else CallsOnly(es)
  {
    assert (es + [e])[..|es|] == es;
  }

  lemma ProbeCalls(c: Limits)
    ensures CallsOnly(Probe(c)) == WithoutEviction(c) + [Call("k", T, T)]
  {
    CallsOnlyOfCalls([], 0, Max(c.burst, 1));
    CallsOnlyAppend(Spend(c), Examine("k", T));
    CallsOnlyOfCalls(Spend(c) + [Examine("k", T)], T, Regained(c));
    CallsOnlyAppend(WithEviction(c), Call("k", T, T));
  }

  /** Events of one key without duration, in order, none after instant t. */
  ghost predicate Plain(es: seq<Event>, t: int) {
    && (forall k :: 0 <= k < |es| ==> es[k].key == "k" && Begin(es[k]) == Finish(es[k]) <= t)
    && Timely(es)
  }

  lemma PlainAppend(es: seq<Event>, t: int, e: Event)
    requires Plain(es, t) && e.key == "k" && Begin(e) == Finish(e) == t
    ensures Plain(es + [e], t)
  {
  }

  lemma {:induction false} CallsArePlain(es: seq<Event>, t: int, n: nat)
    requires Plain(es, t)
    ensures Plain(Calls(es, t, n), t)
  {
    if n > 0 {
      CallsArePlain(es, t, n - 1);
      PlainAppend(Calls(es, t, n - 1), t, Call("k", t, t));
    }
  }

  lemma ProbeIsTimely(c: Limits)
    ensures Timely(Probe(c)) && |KeysOf(Probe(c))| <= 1
  {
    CallsArePlain([], 0, Max(c.burst, 1));
    PlainAppend(Spend(c), T, Examine("k", T));
    CallsArePlain(Spend(c) + [Examine("k", T)], T, Regained(c));
    PlainAppend(WithEviction(c), T, Call("k", T, T));
    OneKey(Probe(c));
    SubsetSize(KeysOf(Probe(c)), {"k"});
  }

  lemma {:induction false} OneKey(es: seq<Event>)
    requires forall k :: 0 <= k < |es| ==> es[k].key == "k"
    ensures KeysOf(es) <= {"k"}
  {
    if es != [] { OneKey(es[..|es| - 1]); }
  }

  lemma EvictionShows(c: Limits)
    requires !(600 * c.rate >= c.burst >= 1)
    ensures Answers(c, Probe(c)) != Answers(c, CallsOnly(Probe(c)))
  {
    GrantedAfterEviction(c);
    RefusedWithoutEviction(c);
    ProbeCalls(c);
    AnswersAppend(c, WithEviction(c), Call("k", T, T));
    AnswersAppend(c, WithoutEviction(c), Call("k", T, T));
    var x, y := Answers(c, Probe(c)), Answers(c, CallsOnly(Probe(c)));
    assert x[|x| - 1] && !y[|y| - 1];
  }

  /** Evicting idle buckets changes no answer of any run within the key cap exactly
      when ten minutes refill a whole burst. */
  lemma EvictionIsInvisibleExactly(c: Limits)
    ensures Invisible(c) <==> 600 * c.rate >= c.burst >= 1
  {
    if 600 * c.rate >= c.burst >= 1 {
      forall es | Timely(es) && |KeysOf(es)| <= KEY_CAP
        ensures Answers(c, es) == Answers(c, CallsOnly(es))
      {
        CleanupSimulates(c, es, Now(es, 0));
      }
    } else {
      EvictionShows(c);
      ProbeIsTimely(c);
    }
  }
}
