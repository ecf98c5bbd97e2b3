/** Per-key token buckets with integer refill, as used by the rate-limiting
    middleware (which also evicts idle buckets) and by the connection bouncer
    (which does not). The refill interval is one second in both. */
module RateLimit {
  import opened Common

  const KEY_CAP := 10_000
  const IDLE := 600 * SECOND

  datatype Bucket = Bucket(tokens: int, lastSeen: int)

  datatype Limits = Limits(rate: int, burst: int)

  type Clients = map<string, Bucket>

  /** A call reads the clock twice, first for the elapsed time and then for the new
      `lastSeen`. `Examine` is the turn of one key in a cleanup pass, which reads the
      clock for each key. */
  datatype Event = Call(key: string, since: int, now: int) | Examine(key: string, at: int)

  /** Whole intervals in a duration, truncated toward zero. */
  function Whole(elapsed: int): int {
    if elapsed >= 0 then elapsed / SECOND else -(-elapsed / SECOND)
  }

  /** Tokens of an existing bucket once refilled for a call. */
  function Refilled(c: Limits, b: Bucket, since: int): int {
    Min(b.tokens + Whole(since - b.lastSeen) * c.rate, c.burst)
  }

  function Grants(c: Limits, m: Clients, key: string, since: int): bool {
    if key in m then Refilled(c, m[key], since) > 0 else |m| < KEY_CAP
  }

  function Step(c: Limits, m: Clients, e: Event): Clients {
    match e
    case Call(key, since, now) =>
      if key in m then
        var t := Refilled(c, m[key], since);
        m[key := Bucket(if t > 0 then t - 1 else t, now)]
      else if |m| < KEY_CAP then m[key := Bucket(c.burst - 1, now)]
      else m
    case Examine(key, at) => if Evicts(m, key, at) then m - {key} else m
  }

  predicate Evicts(m: Clients, key: string, at: int) {
    key in m && at - m[key].lastSeen > IDLE
  }

  function Play(c: Limits, m: Clients, es: seq<Event>): Clients {
    if es == [] then m else Step(c, Play(c, m, es[..|es| - 1]), es[|es| - 1])
  }

  /** One cleanup pass: the keys in the order the map iteration meets them, each
      with its own clock reading. */
  function Pass(order: seq<string>, clock: nat -> int): (es: seq<Event>)
    ensures |es| == |order| && forall k :: 0 <= k < |es| ==> es[k] == Examine(order[k], clock(k))
  {
    seq(|order|, k requires 0 <= k < |order| => Examine(order[k], clock(k)))
  }

  class RateLimiter {
    var clients: Clients
    const limits: Limits

    constructor (rate: int, burst: int)
      ensures clients == map[] && limits == Limits(rate, burst)
    {
      clients, limits := map[], Limits(rate, burst);
    }

    method Allow(key: string, since: int, now: int) returns (granted: bool)
      modifies this
      ensures granted == Grants(limits, old(clients), key, since)
      ensures clients == Step(limits, old(clients), Call(key, since, now))
      ensures key in clients ==> clients[key].lastSeen == now
    {
      if key !in clients {
        if |clients| >= KEY_CAP {
          return false;
        }
        clients := clients[key := Bucket(limits.burst - 1, now)];
        return true;
      }
      var elapsed := since - clients[key].lastSeen;
      var tokens := clients[key].tokens + Whole(elapsed) * limits.rate;
      if tokens > limits.burst {
        tokens := limits.burst;
      }
      clients := clients[key := Bucket(tokens, now)];
      if tokens <= 0 {
        return false;
      }
      clients := clients[key := Bucket(tokens - 1, now)];
      return true;
    }

    method Turn(key: string, now: int)
      requires key in clients
      modifies this
      ensures clients == Step(limits, old(clients), Examine(key, now))
      ensures clients == old(clients) || clients == old(clients) - {key}
    {
      if now - clients[key].lastSeen > IDLE {
        clients := clients - {key};
      }
    }

    /** The body of the cleanup loop, under the lock: every key gets one turn. */
    method Cleanup(clock: nat -> int) returns (ghost order: seq<string>)
      modifies this
      ensures Distinct(order) && forall key :: key in order <==> key in old(clients)
      ensures clients == Play(limits, old(clients), Pass(order, clock))
    {
      var todo := clients.Keys;
      var i := 0;
      order := [];
      while todo != {}
        invariant i == |order|
        invariant forall key :: key in old(clients) <==> key in todo || key in order
        invariant forall key :: key in todo ==> key in clients && key !in order
        invariant Distinct(order)
        invariant clients == Play(limits, old(clients), Pass(order, clock))
        decreases |todo|
      {
        var key :| key in todo;
        todo := todo - {key};
        Turn(key, clock(i));
        ghost var done := order;
        order := order + [key];
        PassGrows(limits, old(clients), done, key, clock, order);
        i := i + 1;
      }
    }
  }

  ghost predicate Distinct(order: seq<string>) {
    forall j, k :: 0 <= j < k < |order| ==> order[j] != order[k]
  }

  lemma {:induction false} PassGrows(c: Limits, m: Clients, done: seq<string>, key: string, clock: nat -> int,
      order: seq<string>)
    requires order == done + [key]
    ensures Play(c, m, Pass(order, clock)) == Step(c, Play(c, m, Pass(done, clock)), Examine(key, clock(|done|)))
  {
    assert Pass(order, clock)[..|done|] == Pass(done, clock);
  }

  /** A pass leaves alone the keys whose turn it is not. */
  lemma {:induction false} PassSkips(c: Limits, m: Clients, order: seq<string>, clock: nat -> int, key: string)
    requires key !in order
    ensures var r := Play(c, m, Pass(order, clock)); (key in r <==> key in m) && (key in m ==> r[key] == m[key])
  {
    if order != [] {
      var n := |order| - 1;
      assert order == order[..n] + [order[n]];
      PassSkips(c, m, order[..n], clock, key);
      PassGrows(c, m, order[..n], order[n], clock, order);
    }
  }

  /** A cleanup pass removes exactly the keys found idle at their own turn and leaves
      every other bucket as it was. */
  lemma {:induction false} PassEvictsExactly(c: Limits, m: Clients, order: seq<string>, clock: nat -> int, k: nat)
    requires Distinct(order) && k < |order| && order[k] in m
    ensures var key, r := order[k], Play(c, m, Pass(order, clock));
      (key in r <==> clock(k) - m[key].lastSeen <= 600_000_000_000) && (key in r ==> r[key] == m[key])
  {
    var n := |order| - 1;
    var front := order[..n];
    assert order == front + [order[n]];
    PassGrows(c, m, front, order[n], clock, order);
    if k < n {
      PassEvictsExactly(c, m, front, clock, k);
    } else {
      PassSkips(c, m, front, clock, order[n]);
    }
  }

  // ------------------------------------------------------------- calls at one instant

  /** The buckets after `n` calls of a key, all at instant `t` ... */
  function AfterCalls(c: Limits, m: Clients, key: string, t: int, n: nat): Clients {
    if n == 0 then m else Step(c, AfterCalls(c, m, key, t, n - 1), Call(key, t, t))
  }

  /** ... and how many of them are admitted. */
  function AdmittedAtOnce(c: Limits, m: Clients, key: string, t: int, n: nat): nat {
    if n == 0 then 0 else
      AdmittedAtOnce(c, m, key, t, n - 1) + if Grants(c, AfterCalls(c, m, key, t, n - 1), key, t) then 1 else 0
  }

  /** No time, no refill. */
  lemma {:induction false} CallAgain(c: Limits, m: Clients, key: string, tokens: int, t: int)
    requires tokens <= c.burst
    ensures var r := m[key := Bucket(tokens, t)];
      && (Grants(c, r, key, t) <==> tokens > 0)
      && Step(c, r, Call(key, t, t)) == m[key := Bucket(if tokens > 0 then tokens - 1 else tokens, t)]
  {
  }

  /** After a first call that leaves `left` tokens, each further one takes one while they last. */
  lemma {:induction false} MoreCalls(c: Limits, m: Clients, key: string, t: int, n: nat, left: int, more: int)
    requires n > 0 && left <= c.burst && more == Max(0, Min(n - 1, left))
    requires Step(c, m, Call(key, t, t)) == m[key := Bucket(left, t)]
    ensures AfterCalls(c, m, key, t, n) == m[key := Bucket(left - more, t)]
    ensures AdmittedAtOnce(c, m, key, t, n) == more + if Grants(c, m, key, t) then 1 else 0
  {
    if n > 1 {
      var before := Max(0, Min(n - 2, left));
      MoreCalls(c, m, key, t, n - 1, left, before);
      CallAgain(c, m, key, left - before, t);
    } else {
      assert AfterCalls(c, m, key, t, 0) == m && AdmittedAtOnce(c, m, key, t, 0) == 0;
    }
  }

  lemma {:induction false} FirstCallAt(c: Limits, m: Clients, key: string, t: int, ready: int)
    requires key in m && ready == Refilled(c, m[key], t)
    ensures Step(c, m, Call(key, t, t)) == m[key := Bucket(if ready > 0 then ready - 1 else ready, t)]
    ensures Grants(c, m, key, t) <==> ready > 0
  {
  }

  lemma {:induction false} ReadyIs(c: Limits, b: Bucket, t: int, ready: int)
    requires b.lastSeen <= t && ready == Min(b.tokens + (t - b.lastSeen) / 1_000_000_000 * c.rate, c.burst)
    ensures ready == Refilled(c, b, t) <= c.burst
  {
  }

  /** The refill counts whole seconds, truncated toward zero: a clock set back by less than
      one takes no token. */
  lemma {:induction false} RefillTruncates(c: Limits, b: Bucket, d: nat)
    ensures Refilled(c, b, b.lastSeen + d) == Min(b.tokens + d / 1_000_000_000 * c.rate, c.burst)
    ensures Refilled(c, b, b.lastSeen - d) == Min(b.tokens - d / 1_000_000_000 * c.rate, c.burst)
  {
    var whole := d / 1_000_000_000;
    assert Whole(d) == whole && Whole(0 - d) == 0 - whole;
    assert (0 - whole) * c.rate == 0 - whole * c.rate;
  }

  /** How many of `n` calls at once a held bucket admits: as many as it has tokens after the
      refill of the whole seconds since it was last seen, capped by the burst. */
  lemma {:induction false} HeldKeyAdmits(c: Limits, m: Clients, key: string, t: int, n: nat, ready: int)
    requires key in m && m[key].lastSeen <= t && n > 0
    requires ready == Min(m[key].tokens + (t - m[key].lastSeen) / 1_000_000_000 * c.rate, c.burst)
    ensures AdmittedAtOnce(c, m, key, t, n) == Max(0, Min(n, ready))
    ensures AfterCalls(c, m, key, t, n) == m[key := Bucket(ready - Max(0, Min(n, ready)), t)]
  {
    ReadyIs(c, m[key], t, ready);
    FirstCallAt(c, m, key, t, ready);
    var left := if ready > 0 then ready - 1 else ready;
    MoreCalls(c, m, key, t, n, left, Max(0, Min(n - 1, left)));
  }

  /** A key that is not held gets one call and its burst, unless 10000 keys are held: then
      all its calls are refused and nothing is recorded. */
  lemma {:induction false} NewKeyAdmits(c: Limits, m: Clients, key: string, t: int, n: nat)
    requires key !in m && n > 0
    ensures |m| < 10_000 ==> AdmittedAtOnce(c, m, key, t, n) == Max(1, Min(n, c.burst))
    ensures |m| >= 10_000 ==> AdmittedAtOnce(c, m, key, t, n) == 0 && AfterCalls(c, m, key, t, n) == m
  {
    if |m| >= 10_000 {
      FullMapRefuses(c, m, key, t, n);
    } else {
      MoreCalls(c, m, key, t, n, c.burst - 1, Max(0, Min(n - 1, c.burst - 1)));
    }
  }

  lemma {:induction false} FullMapRefuses(c: Limits, m: Clients, key: string, t: int, n: nat)
    requires key !in m && |m| >= 10_000
    ensures AdmittedAtOnce(c, m, key, t, n) == 0 && AfterCalls(c, m, key, t, n) == m
  {
    if n > 0 { FullMapRefuses(c, m, key, t, n - 1); }
  }

  /** No run ever holds more than 10000 keys. */
  lemma {:induction false} KeysAreCapped(c: Limits, es: seq<Event>)
    ensures |Play(c, map[], es)| <= 10_000
  {
    if es != [] {
      var r, e := Play(c, map[], es[..|es| - 1]), es[|es| - 1];
      KeysAreCapped(c, es[..|es| - 1]);
      if e.Call? && e.key !in r && |r| < 10_000 {
        assert Step(c, r, e).Keys == r.Keys + {e.key};
      } else if e.Call? && e.key in r {
        assert Step(c, r, e).Keys == r.Keys;
      } else if e.Examine? {
        assert Step(c, r, e).Keys <= r.Keys;
        assert r.Keys == Step(c, r, e).Keys + (r.Keys - Step(c, r, e).Keys);
      }
    }
  }

  // ------------------------------------------------------------------ time order

  function Begin(e: Event): int { if e.Call? then e.since else e.at }

  function Finish(e: Event): int { if e.Call? then e.now else e.at }

  ghost predicate Timely(es: seq<Event>) {
    && (forall k :: 0 <= k < |es| ==> Begin(es[k]) <= Finish(es[k]))
    && (forall j, k :: 0 <= j < k < |es| ==> Finish(es[j]) <= Begin(es[k]))
  }

  // ---------------------------------------------------------- the admission bound

  function IsGrant(c: Limits, m: Clients, e: Event, key: string): bool {
    e.Call? && e.key == key && Grants(c, m, key, e.since)
  }

  /** Calls of `key` that a run from `m` admits. */
  function Admitted(c: Limits, m: Clients, es: seq<Event>, key: string): nat {
    if es == [] then 0 else
      var before := es[..|es| - 1];
      Admitted(c, m, before, key) + if IsGrant(c, Play(c, m, before), es[|es| - 1], key) then 1 else 0
  }

  ghost predicate NeverEvicted(c: Limits, m: Clients, es: seq<Event>, key: string) {
    forall k :: 0 <= k < |es| && es[k] == Examine(key, Begin(es[k])) ==>
      !Evicts(Play(c, m, es[..k]), key, Begin(es[k]))
  }

  /** First clock reading of the latest call of `key`, if that is after the first event. */
  ghost function LatestCall(es: seq<Event>, key: string): int
    requires es != []
  {
    var e := es[|es| - 1];
    if |es| == 1 then Finish(e)
    else if e.Call? && e.key == key then e.since
    else LatestCall(es[..|es| - 1], key)
  }

  lemma WholeSuperadditive(a: int, b: int, total: int)
    requires 0 <= a && 0 <= b && a + b <= total
    ensures 0 <= Whole(a) && 0 <= Whole(b) && Whole(a) + Whole(b) <= Whole(total)
  {
  }

  /** Granting and refilling never create tokens beyond the refill itself. */
  lemma RefillGain(c: Limits, b: Bucket, since: int)
    requires b.lastSeen <= since
    ensures Max(Refilled(c, b, since), 0) <= Max(b.tokens, 0) + Max(c.rate, 0) * Whole(since - b.lastSeen)
    ensures Max(Refilled(c, b, since), 0) <= Max(c.burst, 0)
  {
    var n := Whole(since - b.lastSeen);
    ScaleMonotone(c.rate, Max(c.rate, 0), n);
    ScaleMonotone(0, Max(c.rate, 0), n);
  }

  /** One full bucket plus the refills of a span of time. */
  ghost function Allowance(c: Limits, span: int): int {
    Max(c.burst, 1) + Max(c.rate, 0) * Whole(span)
  }

  /** What holds after each prefix of a window that starts with a call of `key`:
      admissions plus remaining tokens never exceed one burst plus the refills. */
  ghost predicate Budget(c: Limits, m: Clients, es: seq<Event>, key: string)
    requires es != []
  {
    WithinBudget(c, Play(c, m, es), key, Admitted(c, m, es, key),
      Finish(es[0]), LatestCall(es, key), Finish(es[|es| - 1]))
  }

  ghost predicate WithinBudget(c: Limits, r: Clients, key: string, admitted: nat, origin: int, t: int, now: int) {
    && origin <= t <= now
    && (key !in r ==> admitted == 0)
    && (key in r ==> t <= r[key].lastSeen <= now && admitted + Max(r[key].tokens, 0) <= Allowance(c, t - origin))
  }

  lemma {:induction false} BudgetLater(c: Limits, r: Clients, r': Clients, key: string, admitted: nat, origin: int,
      t: int, now: int, later: int)
    requires WithinBudget(c, r, key, admitted, origin, t, now) && now <= later
    requires (key in r' <==> key in r) && (key in r ==> r'[key] == r[key])
    ensures WithinBudget(c, r', key, admitted, origin, t, later)
  {
  }

  lemma BudgetStep(c: Limits, b: Bucket, since: int, t: int, origin: int, admitted: int)
    requires origin <= t <= b.lastSeen <= since
    requires admitted + Max(b.tokens, 0) <= Allowance(c, t - origin)
    ensures admitted + Max(Refilled(c, b, since), 0) <= Allowance(c, since - origin)
  {
    var r, a, d, w := Max(c.rate, 0), Whole(t - origin), Whole(since - b.lastSeen), Whole(since - origin);
    RefillGain(c, b, since);
    WholeSuperadditive(t - origin, since - b.lastSeen, since - origin);
    ScaleMonotone(a + d, w, r);
    assert (a + d) * r == r * a + r * d;
  }

  lemma {:induction false} BudgetHolds(c: Limits, m: Clients, es: seq<Event>, key: string)
    requires es != [] && Timely(es) && es[0].Call? && es[0].key == key
    requires NeverEvicted(c, m, es, key)
    requires key in m ==> m[key].lastSeen <= es[0].since
    ensures Budget(c, m, es, key)
  {
    var n := |es| - 1;
    var before, e := es[..n], es[n];
    if n == 0 {
      BudgetStart(c, m, e, key);
      assert es == [e];
    } else {
      assert NeverEvicted(c, m, before, key) by {
        assert forall k :: 0 <= k < n ==> before[..k] == es[..k];
      }
      BudgetHolds(c, m, before, key);
      assert es == before + [e] && Finish(es[n - 1]) <= Begin(e) <= Finish(e);
      if e.Call? && e.key == key {
        BudgetCall(c, m, before, e, es, key);
      } else {
        BudgetOther(c, m, before, e, es, key);
      }
    }
  }

  lemma OtherEventKeeps(c: Limits, r: Clients, e: Event, key: string)
    requires e.Call? ==> e.key != key
    requires e == Examine(key, Begin(e)) ==> !Evicts(r, key, Begin(e))
    ensures key in Step(c, r, e) <==> key in r
    ensures key in r ==> Step(c, r, e)[key] == r[key]
  {
  }

  /** What the latest event adds. */
  lemma {:induction false} OneMore(c: Limits, m: Clients, before: seq<Event>, e: Event, es: seq<Event>, key: string)
    requires before != [] && es == before + [e]
    ensures Play(c, m, es) == Step(c, Play(c, m, before), e)
    ensures Admitted(c, m, es, key) ==
      Admitted(c, m, before, key) + if IsGrant(c, Play(c, m, before), e, key) then 1 else 0
    ensures LatestCall(es, key) == if e.Call? && e.key == key then e.since else LatestCall(before, key)
  {
    assert es[..|es| - 1] == before;
  }

  lemma {:induction false} BudgetOther(c: Limits, m: Clients, before: seq<Event>, e: Event, es: seq<Event>, key: string)
    requires before != [] && es == before + [e] && Finish(before[|before| - 1]) <= Begin(e) <= Finish(e)
    requires e == Examine(key, Begin(e)) ==> !Evicts(Play(c, m, before), key, Begin(e))
    requires e.Call? ==> e.key != key
    requires Budget(c, m, before, key)
    ensures Budget(c, m, es, key)
  {
    var r, n := Play(c, m, before), |before|;
    OneMore(c, m, before, e, es, key);
    OtherEventKeeps(c, r, e, key);
    BudgetLater(c, r, Step(c, r, e), key, Admitted(c, m, before, key),
      Finish(es[0]), LatestCall(before, key), Finish(es[n - 1]), Finish(e));
  }

  lemma BudgetStart(c: Limits, m: Clients, e: Event, key: string)
    requires e.Call? && e.key == key && Timely([e])
    requires key in m ==> m[key].lastSeen <= e.since
    ensures Budget(c, m, [e], key)
  {
    assert [e][..0] == [];
    assert Play(c, m, [e]) == Step(c, m, e);
    if key in m { RefillGain(c, m[key], e.since); }
    ScaleMonotone(0, Whole(0), Max(c.rate, 0));
  }

  /** A call of the key, granted or not. */
  lemma {:induction false} BudgetAtCall(c: Limits, r: Clients, e: Event, key: string, admitted: nat, origin: int,
      t: int, now: int)
    requires WithinBudget(c, r, key, admitted, origin, t, now)
    requires e.Call? && e.key == key && now <= e.since <= e.now
    ensures var admitted' := admitted + if IsGrant(c, r, e, key) then 1 else 0;
      WithinBudget(c, Step(c, r, e), key, admitted', origin, e.since, e.now)
  {
    if key in r {
      BudgetStep(c, r[key], e.since, t, origin, admitted);
    } else {
      GainIsNonnegative(c, e.since - origin);
    }
  }

  lemma {:induction false} BudgetCall(c: Limits, m: Clients, before: seq<Event>, e: Event, es: seq<Event>, key: string)
    requires before != [] && es == before + [e] && Finish(before[|before| - 1]) <= Begin(e) <= Finish(e)
    requires e.Call? && e.key == key && Budget(c, m, before, key)
    ensures Budget(c, m, es, key)
  {
    var n := |before|;
    OneMore(c, m, before, e, es, key);
    BudgetAtCall(c, Play(c, m, before), e, key, Admitted(c, m, before, key),
      Finish(es[0]), LatestCall(before, key), Finish(es[n - 1]));
  }

  lemma GainIsNonnegative(c: Limits, span: int)
    requires 0 <= span
    ensures 0 <= Max(c.rate, 0) * Whole(span)
  {
    ScaleMonotone(0, Whole(span), Max(c.rate, 0));
  }

  /** What a budget allows. */
  lemma {:induction false} BudgetSpent(c: Limits, m: Clients, es: seq<Event>, key: string)
    requires es != [] && Budget(c, m, es, key)
    ensures Admitted(c, m, es, key) <= Allowance(c, LatestCall(es, key) - Finish(es[0]))
  {
    GainIsNonnegative(c, LatestCall(es, key) - Finish(es[0]));
  }

  lemma {:induction false} LatestIsLast(es: seq<Event>, key: string)
    requires es != [] && es[|es| - 1].Call? && es[|es| - 1].key == key
    ensures LatestCall(es, key) == if |es| == 1 then Finish(es[0]) else es[|es| - 1].since
  {
  }

  /** Sliding window: between two calls of a key, with traffic of other keys and
      cleanup turns in between but no eviction of the key, at most one burst plus
      `rate` per whole second from the first call to the last is admitted. */
  lemma {:induction false} WindowBound(c: Limits, m: Clients, es: seq<Event>, key: string)
    requires es != [] && Timely(es) && NeverEvicted(c, m, es, key)
    requires es[0].Call? && es[0].key == key && es[|es| - 1].Call? && es[|es| - 1].key == key
    requires key in m ==> m[key].lastSeen <= es[0].since
    ensures Admitted(c, m, es, key) <= Allowance(c, if |es| == 1 then 0 else es[|es| - 1].since - es[0].now)
  {
    BudgetHolds(c, m, es, key);
    BudgetSpent(c, m, es, key);
    LatestIsLast(es, key);
  }

  /** The connection bouncer never evicts, so there the bound needs no side condition
      and holds from its first call on. */
  lemma BouncerBound(c: Limits, es: seq<Event>, key: string)
    requires |es| >= 2 && Timely(es) && forall e :: e in es ==> e.Call?
    requires es[0].key == key && es[|es| - 1].key == key
    ensures Admitted(c, map[], es, key) <= Allowance(c, es[|es| - 1].since - es[0].now)
  {
    WindowBound(c, map[], es, key);
  }

  // ------------------------------------------------------------ the bound is tight

  /** Calls of one key in time order, over by instant `t` ... */
  ghost predicate Steady(es: seq<Event>, t: int) {
    es == [] ||
    var at := Begin(es[|es| - 1]);
    es[|es| - 1] == Call("k", at, at) && at <= t && Steady(es[..|es| - 1], at)
  }

  /** ... from instant 0 on, with these tokens left at `t` and so many calls admitted. */
  ghost predicate Reaches(c: Limits, es: seq<Event>, t: int, tokens: int, admitted: int) {
    && es != [] && Steady(es, t) && es[0] == Call("k", 0, 0) && es[|es| - 1] == Call("k", t, t)
    && Play(c, map[], es) == map["k" := Bucket(tokens, t)] && Admitted(c, map[], es, "k") == admitted
  }

  lemma {:induction false} CallAt(c: Limits, es: seq<Event>, t: int, tokens: int, admitted: int, t': int, tokens': int,
                                  granted: bool, more: seq<Event>)
    requires Reaches(c, es, t, tokens, admitted) && t <= t' && more == es + [Call("k", t', t')]
    requires granted == (Refilled(c, Bucket(tokens, t), t') > 0)
    requires tokens' == Refilled(c, Bucket(tokens, t), t') - if granted then 1 else 0
    ensures Reaches(c, more, t', tokens', admitted + if granted then 1 else 0)
  {
    assert more[..|es|] == es;
    OneMore(c, map[], es, Call("k", t', t'), more, "k");
  }

  lemma {:induction false} SpendAll(c: Limits, es: seq<Event>, t: int, tokens: nat, admitted: int)
      returns (more: seq<Event>)
    requires Reaches(c, es, t, tokens, admitted) && tokens <= c.burst
    ensures Reaches(c, more, t, 0, admitted + tokens)
    decreases tokens
  {
    more := es;
    if tokens > 0 {
      var next := es + [Call("k", t, t)];
      assert Refilled(c, Bucket(tokens, t), t) == tokens;
      CallAt(c, es, t, tokens, admitted, t, tokens - 1, true, next);
      more := SpendAll(c, next, t, tokens - 1, admitted + 1);
    }
  }

  /** A second later the tokens of one second are there to spend. */
  lemma {:induction false} NextSecond(c: Limits, es: seq<Event>, t: int, admitted: int) returns (more: seq<Event>)
    requires Reaches(c, es, t, 0, admitted) && 0 <= c.rate <= c.burst
    ensures Reaches(c, more, t + SECOND, 0, admitted + c.rate)
  {
    more := es + [Call("k", t + SECOND, t + SECOND)];
    assert Refilled(c, Bucket(0, t), t + SECOND) == c.rate;
    if c.rate == 0 {
      CallAt(c, es, t, 0, admitted, t + SECOND, 0, false, more);
    } else {
      CallAt(c, es, t, 0, admitted, t + SECOND, c.rate - 1, true, more);
      more := SpendAll(c, more, t + SECOND, c.rate - 1, admitted + 1);
    }
  }

  lemma {:induction false} Seconds(c: Limits, n: nat) returns (es: seq<Event>)
    requires c.burst >= 1 && 0 <= c.rate <= c.burst
    ensures Reaches(c, es, n * SECOND, 0, c.burst + n * c.rate)
  {
    if n == 0 {
      es := [Call("k", 0, 0)];
      assert es[..0] == [];
      es := SpendAll(c, es, 0, c.burst - 1, 1);
    } else {
      es := Seconds(c, n - 1);
      NextMultiple(n - 1, c.rate);
      es := NextSecond(c, es, (n - 1) * SECOND, c.burst + (n - 1) * c.rate);
    }
  }

  lemma {:induction false} SteadyIsTimely(es: seq<Event>, t: int)
    requires Steady(es, t)
    ensures Timely(es) && forall k :: 0 <= k < |es| ==> es[k].Call? && Finish(es[k]) <= t
  {
    if es != [] { SteadyIsTimely(es[..|es| - 1], Begin(es[|es| - 1])); }
  }

  /** Some window of every whole number of seconds reaches the bound, unless more is
      refilled in a second than a bucket holds. */
  lemma {:induction false} WindowBoundIsTight(c: Limits, n: nat) returns (es: seq<Event>)
    requires c.burst >= 1 && 0 <= c.rate <= c.burst
    ensures es != [] && Timely(es) && NeverEvicted(c, map[], es, "k")
    ensures es[0] == Call("k", 0, 0) && es[|es| - 1] == Call("k", n * SECOND, n * SECOND)
    ensures Admitted(c, map[], es, "k") == Allowance(c, n * SECOND)
  {
    es := Seconds(c, n);
    SteadyIsTimely(es, n * SECOND);
    WholeSeconds(n);
  }

  lemma WholeSeconds(n: nat)
    ensures Whole(n * SECOND) == n
  {
  }

  // ------------------------------------------------------------------ token range

  ghost predicate InRange(c: Limits, m: Clients) {
    forall key :: key in m ==> 0 <= m[key].tokens <= c.burst
  }

  /** Each bucket was last seen no later than `t`. */
  ghost predicate SeenBy(m: Clients, t: int) {
    forall key :: key in m ==> m[key].lastSeen <= t
  }

  lemma {:induction false} SeenInThePast(c: Limits, es: seq<Event>)
    requires Timely(es)
    ensures es == [] ==> Play(c, map[], es) == map[]
    ensures es != [] ==> SeenBy(Play(c, map[], es), Finish(es[|es| - 1]))
  {
    if es != [] {
      SeenInThePast(c, es[..|es| - 1]);
    }
  }

  lemma {:induction false} TokensInRange(c: Limits, es: seq<Event>)
    requires c.burst >= 1 && c.rate >= 0 && Timely(es)
    ensures InRange(c, Play(c, map[], es))
  {
    if es != [] {
      var before, e := es[..|es| - 1], es[|es| - 1];
      TokensInRange(c, before);
      SeenInThePast(c, before);
      var r := Play(c, map[], before);
      if e.Call? && e.key in r {
        ScaleMonotone(0, Whole(e.since - r[e.key].lastSeen), c.rate);
      }
    }
  }

  /** Tokens stay within 0..burst over every run exactly for burst >= 1 and rate >= 0. */
  lemma TokensInRangeExactly(c: Limits)
    ensures c.burst >= 1 && c.rate >= 0 <==>
      forall es :: Timely(es) ==> InRange(c, Play(c, map[], es))
  {
    if c.burst >= 1 && c.rate >= 0 {
      forall es | Timely(es) ensures InRange(c, Play(c, map[], es)) {
        TokensInRange(c, es);
      }
    } else if c.burst < 1 {
      var once := [Call("k", 0, 0)];
      assert Play(c, map[], once[..0]) == map[];
      assert "k" in Play(c, map[], once);
      assert Timely(once) && !InRange(c, Play(c, map[], once));
    } else {
      var late := c.burst * SECOND;
      var twice := [Call("k", 0, 0), Call("k", late, late)];
      var once := [Call("k", 0, 0)];
      assert twice[..1] == once;
      assert Play(c, map[], once[..0]) == map[];
      assert Play(c, map[], once) == map["k" := Bucket(c.burst - 1, 0)];
      assert Whole(late) == c.burst;
      ScaleMonotone(c.rate, -1, c.burst);
      assert "k" in Play(c, map[], twice);
      assert Timely(twice) && !InRange(c, Play(c, map[], twice));
    }
  }
}
