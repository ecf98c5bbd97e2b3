/** Many requests retrying at once against one failing upstream behind one breaker.
    A slot is a goroutine: it runs any number of requests one after the other, so it
    has at most one attempt outstanding. No attempt succeeds here. */
module SharedBreaker {
  import opened Common
  import opened Breaker
  import opened Resiliency

  /** A slot asks for admission, or reports the failure of its outstanding attempt. */
  datatype Move = Begin(slot: nat, at: int) | End(slot: nat, at: int)

  /** The breaker, the slots with an attempt at the upstream, and how many attempts
      have reached the upstream so far. */
  datatype Pool = Pool(b: Fields, inFlight: set<nat>, hits: nat)

  function MoveStep(p: Pool, m: Move): Pool {
    match m
    case Begin(i, at) =>
      if Admits(p.b, at) then Pool(Step(p.b, Allow(at)), p.inFlight + {i}, p.hits + 1)
      else p
    case End(i, at) => Pool(Step(p.b, Failure(at)), p.inFlight - {i}, p.hits)
  }

  function Play(p: Pool, ms: seq<Move>): Pool {
    if ms == [] then p else MoveStep(Play(p, ms[..|ms| - 1]), ms[|ms| - 1])
  }

  ghost predicate Enabled(slots: nat, p: Pool, m: Move) {
    m.slot < slots && (m.Begin? <==> m.slot !in p.inFlight)
  }

  ghost predicate Legal(slots: nat, p: Pool, ms: seq<Move>) {
    forall k :: 0 <= k < |ms| ==> Enabled(slots, Play(p, ms[..k]), ms[k])
  }

  /** Move k is the one at which the breaker opens. */
  ghost predicate OpensAt(p: Pool, ms: seq<Move>, k: nat)
    requires k < |ms|
  {
    Play(p, ms[..k]).b.state.Closed? && Play(p, ms[..k + 1]).b.state.Open?
  }

  /** Moves are in time order, and those after the opening fall within the timeout. */
  ghost predicate WithinTimeout(p: Pool, ms: seq<Move>) {
    && (forall j, k :: 0 <= j < k < |ms| ==> ms[j].at <= ms[k].at)
    && (forall j, k :: 0 <= j < k < |ms| && OpensAt(p, ms, j) ==> ms[k].at < ms[j].at + p.b.timeout)
  }

  ghost predicate Start(p: Pool) {
    p.b.state.Closed? && 0 <= p.b.failures < p.b.threshold && p.inFlight == {} && p.hits == 0
  }

  function Begins(ms: seq<Move>): nat {
    if ms == [] then 0 else Begins(ms[..|ms| - 1]) + if ms[|ms| - 1].Begin? then 1 else 0
  }

  lemma {:induction false} SlotBound(s: set<nat>, slots: nat)
    requires forall i :: i in s ==> i < slots
    ensures |s| <= slots
  {
    if slots > 0 {
      SlotBound(s - {slots - 1}, slots - 1);
      assert slots - 1 in s ==> |s - {slots - 1}| == |s| - 1;
      assert slots - 1 !in s ==> s - {slots - 1} == s;
    }
  }

  /** While closed, every hit is either a counted failure or still in flight. */
  ghost predicate ClosedInv(slots: nat, p: Pool, q: Pool) {
    && q.b.state.Closed? && q.b.threshold == p.b.threshold && q.b.timeout == p.b.timeout
    && (forall i :: i in q.inFlight ==> i < slots)
    && q.b.failures < p.b.threshold
    && q.hits == q.b.failures - p.b.failures + |q.inFlight|
  }

  /** Open since instant `t` at the latest opening or before. */
  ghost predicate OpenInv(slots: nat, p: Pool, q: Pool, t: int) {
    && q.b.state.Open? && q.b.threshold == p.b.threshold && q.b.timeout == p.b.timeout
    && (forall i :: i in q.inFlight ==> i < slots)
    && p.b.threshold - p.b.failures <= q.hits <= p.b.threshold - p.b.failures + slots - 1
    && q.b.openedAt >= t
  }

  ghost predicate Inv(slots: nat, p: Pool, ms: seq<Move>) {
    var q := Play(p, ms);
    || ClosedInv(slots, p, q)
    || exists k: nat :: k < |ms| && OpensAt(p, ms, k) && OpenInv(slots, p, q, ms[k].at)
  }

  lemma ClosedStep(slots: nat, p: Pool, q: Pool, m: Move)
    requires ClosedInv(slots, p, q) && Enabled(slots, q, m)
    ensures var r := MoveStep(q, m);
      if r.b.state.Closed? then ClosedInv(slots, p, r) else OpenInv(slots, p, r, m.at)
  {
    SlotBound(q.inFlight, slots);
    if m.End? { assert |q.inFlight - {m.slot}| == |q.inFlight| - 1; }
  }

  lemma OpenStep(slots: nat, p: Pool, q: Pool, m: Move, t: int)
    requires OpenInv(slots, p, q, t) && Enabled(slots, q, m)
    requires t <= m.at < t + p.b.timeout
    ensures OpenInv(slots, p, MoveStep(q, m), t)
  {
  }

  lemma {:induction false} InvHolds(slots: nat, p: Pool, ms: seq<Move>)
    requires Start(p) && Legal(slots, p, ms) && WithinTimeout(p, ms)
    ensures Inv(slots, p, ms)
  {
    if ms != [] {
      var n := |ms| - 1;
      PrefixIsLegal(slots, p, ms, n);
      InvHolds(slots, p, ms[..n]);
      assert ms[..n + 1] == ms;
      assert Enabled(slots, Play(p, ms[..n]), ms[n]);
      InvStep(slots, p, ms);
    }
  }

  lemma PrefixIsLegal(slots: nat, p: Pool, ms: seq<Move>, n: nat)
    requires n <= |ms|
    ensures Legal(slots, p, ms) ==> Legal(slots, p, ms[..n])
    ensures WithinTimeout(p, ms) ==> WithinTimeout(p, ms[..n])
    ensures forall k: nat :: k < n ==> (OpensAt(p, ms[..n], k) <==> OpensAt(p, ms, k))
  {
    forall k: nat | k < n ensures OpensAt(p, ms[..n], k) <==> OpensAt(p, ms, k) {
      assert ms[..n][..k] == ms[..k] && ms[..n][..k + 1] == ms[..k + 1];
    }
    if Legal(slots, p, ms) {
      forall k | 0 <= k < n ensures Enabled(slots, Play(p, ms[..n][..k]), ms[..n][k]) {
        assert ms[..n][..k] == ms[..k];
      }
    }
  }

  lemma InvStep(slots: nat, p: Pool, ms: seq<Move>)
    requires ms != [] && Start(p) && WithinTimeout(p, ms)
    requires Inv(slots, p, ms[..|ms| - 1])
    requires Enabled(slots, Play(p, ms[..|ms| - 1]), ms[|ms| - 1])
    ensures Inv(slots, p, ms)
  {
    var n := |ms| - 1;
    var before, m := Play(p, ms[..n]), ms[n];
    PrefixIsLegal(slots, p, ms, n);
    assert ms[..n + 1] == ms;
    if ClosedInv(slots, p, before) {
      ClosedStep(slots, p, before, m);
      if !Play(p, ms).b.state.Closed? { assert OpensAt(p, ms, n); }
    } else {
      var k: nat :| k < n && OpensAt(p, ms[..n], k) && OpenInv(slots, p, before, ms[..n][k].at);
      assert OpensAt(p, ms, k) && ms[..n][k] == ms[k];
      OpenStep(slots, p, before, m, ms[k].at);
    }
  }

  /** However many requests the slots run, at most threshold - failures + slots - 1
      attempts reach a failing upstream until the timeout has passed. */
  lemma UpstreamHitsBound(slots: nat, p: Pool, ms: seq<Move>)
    requires slots >= 1 && Start(p) && Legal(slots, p, ms) && WithinTimeout(p, ms)
    ensures Play(p, ms).hits <= p.b.threshold - p.b.failures + slots - 1
  {
    InvHolds(slots, p, ms);
    SlotBound(Play(p, ms).inFlight, slots);
  }

  /** Only admission requests hit the upstream, and a closed breaker admits them all. */
  lemma {:induction false} HitsAreBegins(p: Pool, ms: seq<Move>)
    ensures Play(p, ms).hits <= p.hits + Begins(ms)
    ensures Play(p, ms).b.state.Closed? ==> Play(p, ms).hits == p.hits + Begins(ms)
  {
    if ms != [] {
      HitsAreBegins(p, ms[..|ms| - 1]);
    }
  }

  /** A single slot hits the upstream exactly min(attempts, threshold - failures) times. */
  lemma SingleSlotHits(p: Pool, ms: seq<Move>)
    requires Start(p) && Legal(1, p, ms) && WithinTimeout(p, ms)
    ensures Play(p, ms).hits == Min(Begins(ms), p.b.threshold - p.b.failures)
  {
    InvHolds(1, p, ms);
    SlotBound(Play(p, ms).inFlight, 1);
    HitsAreBegins(p, ms);
  }

  // ----------------------------------------------------- beyond the first timeout

  function EventOf(m: Move): Event { if m.Begin? then Allow(m.at) else Failure(m.at) }

  /** What the breaker sees of a run. */
  function EventsIn(ms: seq<Move>): (es: seq<Event>)
    ensures |es| == |ms| && forall k :: 0 <= k < |es| ==> es[k] == EventOf(ms[k])
  {
    seq(|ms|, k requires 0 <= k < |ms| => EventOf(ms[k]))
  }

  lemma {:induction false} BreakerFollows(p: Pool, ms: seq<Move>)
    ensures Play(p, ms).b == Run(p.b, EventsIn(ms))
  {
    if ms != [] {
      var n := |ms| - 1;
      BreakerFollows(p, ms[..n]);
      assert EventsIn(ms)[..n] == EventsIn(ms[..n]);
    }
  }

  /** How far the hits have got after `probes` openings for a probe: each of them lets
      every slot through once more. */
  ghost predicate ProbeInv(slots: nat, p: Pool, q: Pool, probes: nat) {
    && (forall i :: i in q.inFlight ==> i < slots)
    && match q.b.state
       case Closed => probes == 0 && ClosedInv(slots, p, q)
       case Open => q.hits <= Most(slots, p, probes)
       case HalfOpen => q.hits <= Most(slots, p, probes) - (slots - |q.inFlight|)
  }

  /** One opening with every slot admitted, and every slot once more for each probe. */
  function Most(slots: nat, p: Pool, probes: int): int {
    p.b.threshold - p.b.failures + slots - 1 + Times(slots, probes)
  }

  function Times(slots: nat, n: int): int { if n <= 0 then 0 else Times(slots, n - 1) + slots }

  lemma {:induction false} TimesIsProduct(slots: nat, n: nat)
    ensures Times(slots, n) == slots * n
  {
    if n > 0 { TimesIsProduct(slots, n - 1); }
  }

  lemma {:induction false} MostGrows(slots: nat, p: Pool, probes: int, more: int)
    requires probes <= more
    ensures Most(slots, p, probes) <= Most(slots, p, more)
    decreases more - probes
  {
    if probes < more { MostGrows(slots, p, probes, more - 1); }
  }

  lemma {:induction false} ProbeStep(slots: nat, p: Pool, q: Pool, m: Move, probes: nat, q': Pool, probes': nat)
    requires slots >= 1 && ProbeInv(slots, p, q, probes) && Enabled(slots, q, m)
    requires q.b.state.Open? ==> q.b.failures + 1 >= q.b.threshold
    requires q' == MoveStep(q, m) && probes' == probes + if IsProbe(q.b, EventOf(m)) then 1 else 0
    ensures ProbeInv(slots, p, q', probes')
  {
    SlotBound(q.inFlight, slots);
    MostGrows(slots, p, probes, probes');
    if q.b.state.Closed? { ClosedStep(slots, p, q, m); }
  }

  lemma {:induction false} OpenIsTripped(p: Pool, ms: seq<Move>)
    requires Start(p)
    ensures var b := Play(p, ms).b; !b.state.Closed? ==> b.failures >= b.threshold
    ensures Play(p, ms).b.threshold == p.b.threshold
  {
    if ms != [] { OpenIsTripped(p, ms[..|ms| - 1]); }
  }

  lemma {:induction false} LegalBefore(slots: nat, p: Pool, ms: seq<Move>)
    requires ms != [] && Legal(slots, p, ms)
    ensures Legal(slots, p, ms[..|ms| - 1]) && Enabled(slots, Play(p, ms[..|ms| - 1]), ms[|ms| - 1])
  {
    PrefixIsLegal(slots, p, ms, |ms| - 1);
  }

  lemma {:induction false} OneMoreProbe(p: Pool, ms: seq<Move>)
    requires ms != []
    ensures var before, e := ms[..|ms| - 1], EventOf(ms[|ms| - 1]);
      Probes(p.b, EventsIn(ms)) == Probes(p.b, EventsIn(before)) + if IsProbe(Play(p, before).b, e) then 1 else 0
  {
    BreakerFollows(p, ms[..|ms| - 1]);
    assert EventsIn(ms)[..|ms| - 1] == EventsIn(ms[..|ms| - 1]);
  }

  lemma {:induction false} ProbeInvHolds(slots: nat, p: Pool, ms: seq<Move>)
    requires slots >= 1 && Start(p) && Legal(slots, p, ms)
    ensures ProbeInv(slots, p, Play(p, ms), Probes(p.b, EventsIn(ms)))
  {
    if ms != [] {
      var before, m := ms[..|ms| - 1], ms[|ms| - 1];
      assert Legal(slots, p, before) && Enabled(slots, Play(p, before), m) by { LegalBefore(slots, p, ms); }
      ProbeInvHolds(slots, p, before);
      OpenIsTripped(p, before);
      OneMoreProbe(p, ms);
      ProbeStep(slots, p, Play(p, before), m, Probes(p.b, EventsIn(before)), Play(p, ms), Probes(p.b, EventsIn(ms)));
    }
  }

  lemma {:induction false} ProbeInvBounds(slots: nat, p: Pool, q: Pool, probes: nat)
    requires slots >= 1 && Start(p) && ProbeInv(slots, p, q, probes)
    ensures q.hits <= Most(slots, p, probes)
  {
    SlotBound(q.inFlight, slots);
    MostGrows(slots, p, 0, probes);
  }

  /** Without any limit of time: each time the breaker lets a probe through, at most one
      more attempt of each slot reaches the failing upstream. */
  lemma {:induction false} HitsPerProbe(slots: nat, p: Pool, ms: seq<Move>)
    requires slots >= 1 && Start(p) && Legal(slots, p, ms)
    ensures var probes := Probes(p.b, EventsIn(ms));
      Play(p, ms).hits <= Most(slots, p, probes) == p.b.threshold - p.b.failures + slots - 1 + slots * probes
  {
    ProbeInvHolds(slots, p, ms);
    ProbeInvBounds(slots, p, Play(p, ms), Probes(p.b, EventsIn(ms)));
    TimesIsProduct(slots, Probes(p.b, EventsIn(ms)));
  }

  ghost predicate InTime(ms: seq<Move>) { ms != [] && Monotone(EventsIn(ms)[0].at, EventsIn(ms)) }

  /** Whole timeouts from the first event to the last. */
  function Timeouts(timeout: int, es: seq<Event>): int
    requires timeout > 0 && es != []
  {
    (es[|es| - 1].at - es[0].at) / timeout
  }

  lemma {:induction false} ProbesInTime(b: Fields, es: seq<Event>)
    requires es != [] && Monotone(es[0].at, es) && b.timeout > 0
    ensures Probes(b, es) <= 1 + Timeouts(b.timeout, es)
  {
    ProbeRate(b, es);
  }

  /** Hence at most `slots` more per whole timeout that has passed. */
  lemma {:induction false} HitsOverTime(slots: nat, p: Pool, ms: seq<Move>)
    requires slots >= 1 && Start(p) && Legal(slots, p, ms) && p.b.timeout > 0
    requires InTime(ms)
    ensures Play(p, ms).hits <= Most(slots, p, 1 + Timeouts(p.b.timeout, EventsIn(ms)))
  {
    var probes, n := Probes(p.b, EventsIn(ms)), 1 + Timeouts(p.b.timeout, EventsIn(ms));
    assert probes <= n by { ProbesInTime(p.b, EventsIn(ms)); }
    assert Play(p, ms).hits <= Most(slots, p, probes) by { HitsPerProbe(slots, p, ms); }
    assert Most(slots, p, probes) <= Most(slots, p, n) by { MostGrows(slots, p, probes, n); }
  }

  // ----------------------------------------------------------- the bounds are tight

  function Range(n: nat): (s: set<nat>)
    ensures forall i: nat :: i in s <==> i < n
  {
    if n == 0 then {} else Range(n - 1) + {n - 1}
  }

  lemma {:induction false} Extend(slots: nat, p: Pool, ms: seq<Move>, m: Move)
    requires Legal(slots, p, ms) && Enabled(slots, Play(p, ms), m)
    ensures Legal(slots, p, ms + [m])
    ensures Play(p, ms + [m]) == MoveStep(Play(p, ms), m)
  {
    var grown := ms + [m];
    assert grown[..|ms|] == ms;
    forall k | 0 <= k < |grown| ensures Enabled(slots, Play(p, grown[..k]), grown[k]) {
      assert grown[..k] == ms[..k];
      if k == |ms| { assert ms[..k] == ms; }
    }
  }

  /** One admitted attempt that fails before anything else happens. */
  lemma FailedAttempt(q: Pool, at: int, at': int)
    requires q.inFlight == {} && Admits(q.b, at)
    ensures MoveStep(q, Begin(0, at)).inFlight == {0}
    ensures MoveStep(MoveStep(q, Begin(0, at)), End(0, at')) ==
      Pool(Step(Step(q.b, Allow(at)), Failure(at')), {}, q.hits + 1)
  {
  }

  lemma {:induction false} ExtendTwice(slots: nat, p: Pool, ms: seq<Move>, begin: Move, end: Move)
    requires Legal(slots, p, ms) && Enabled(slots, Play(p, ms), begin)
    requires Enabled(slots, MoveStep(Play(p, ms), begin), end)
    ensures Legal(slots, p, ms + [begin, end])
    ensures Play(p, ms + [begin, end]) == MoveStep(MoveStep(Play(p, ms), begin), end)
  {
    Extend(slots, p, ms, begin);
    Extend(slots, p, ms + [begin], end);
    assert ms + [begin, end] == ms + [begin] + [end];
  }

  lemma {:induction false} PairStep(slots: nat, p: Pool, ms: seq<Move>, b: Fields, hits: nat, more: seq<Move>)
    requires slots >= 1 && Legal(slots, p, ms) && Play(p, ms) == Pool(b, {}, hits)
    requires b.state.Closed? && b.failures + 1 < b.threshold && more == ms + [Begin(0, 0), End(0, 0)]
    ensures Legal(slots, p, more) && Play(p, more) == Pool(b.(failures := b.failures + 1), {}, hits + 1)
  {
    FailedAttempt(Play(p, ms), 0, 0);
    ExtendTwice(slots, p, ms, Begin(0, 0), End(0, 0));
  }

  ghost predicate AtInstantZero(ms: seq<Move>) { forall k :: 0 <= k < |ms| ==> ms[k].at == 0 }

  /** `n` failed attempts of slot 0, one after the other, all at instant 0. */
  lemma {:induction false} PairsRun(slots: nat, p: Pool, n: nat) returns (ms: seq<Move>)
    requires slots >= 1 && Start(p) && p.b.failures + n < p.b.threshold
    ensures Legal(slots, p, ms) && AtInstantZero(ms)
    ensures Play(p, ms) == Pool(p.b.(failures := p.b.failures + n), {}, n)
  {
    ms := [];
    if n > 0 {
      var before := PairsRun(slots, p, n - 1);
      ms := before + [Begin(0, 0), End(0, 0)];
      PairStep(slots, p, before, p.b.(failures := p.b.failures + (n - 1)), n - 1, ms);
    }
  }

  lemma {:induction false} BurstStep(slots: nat, p: Pool, ms: seq<Move>, b: Fields, n: nat, hits: nat, more: seq<Move>)
    requires 0 < n <= slots && Legal(slots, p, ms) && b.state.Closed?
    requires Play(p, ms) == Pool(b, Range(n - 1), hits) && more == ms + [Begin(n - 1, 0)]
    ensures Legal(slots, p, more)
    ensures Play(p, more) == Pool(b, Range(n), hits + 1)
  {
    Extend(slots, p, ms, Begin(n - 1, 0));
  }

  /** `base`, then slots 0 .. n-1 all ask for admission at instant 0. */
  lemma {:induction false} BurstRun(slots: nat, p: Pool, base: seq<Move>, n: nat) returns (ms: seq<Move>)
    requires n <= slots && Legal(slots, p, base) && AtInstantZero(base)
    requires Play(p, base).b.state.Closed? && Play(p, base).inFlight == {}
    ensures Legal(slots, p, ms) && AtInstantZero(ms)
    ensures Play(p, ms) == Pool(Play(p, base).b, Range(n), Play(p, base).hits + n)
  {
    ms := base;
    if n > 0 {
      var q := Play(p, base);
      var before := BurstRun(slots, p, base, n - 1);
      ms := before + [Begin(n - 1, 0)];
      BurstStep(slots, p, before, q.b, n, q.hits + (n - 1), ms);
    }
  }

  lemma NeverOpens(p: Pool, ms: seq<Move>)
    requires Start(p) && Play(p, ms).b.state.Closed?
    ensures forall k: nat :: k < |ms| ==> !OpensAt(p, ms, k)
  {
    forall k: nat | k < |ms| ensures !OpensAt(p, ms, k) {
      StaysClosed(p, ms, k + 1);
    }
  }

  /** For every breaker and every number of slots some run reaches the bound: all
      slots are admitted while one failure is still missing. */
  lemma BoundIsTight(slots: nat, p: Pool) returns (ms: seq<Move>)
    requires slots >= 1 && Start(p)
    ensures Legal(slots, p, ms) && WithinTimeout(p, ms)
    ensures Play(p, ms).hits == p.b.threshold - p.b.failures + slots - 1
  {
    var n := p.b.threshold - p.b.failures - 1;
    var pairs := PairsRun(slots, p, n);
    ms := BurstRun(slots, p, pairs, slots);
    NeverOpens(p, ms);
  }

  lemma {:induction false} FullBurst(slots: nat, p: Pool) returns (ms: seq<Move>, q: Pool)
    requires slots >= 1 && Start(p)
    ensures Leads(slots, p, ms, q, 0, 0) && q.hits == Most(slots, p, 0)
    ensures q.inFlight == Range(slots) && q.b.failures + 1 == q.b.threshold && q.b.timeout == p.b.timeout
  {
    var n := p.b.threshold - p.b.failures - 1;
    var pairs := PairsRun(slots, p, n);
    ms := BurstRun(slots, p, pairs, slots);
    q := Play(p, ms);
    NoProbeWhileClosed(p, ms);
    LegalIsTrail(slots, p, ms);
  }

  /** A run whose last breaker is closed was closed throughout. */
  lemma {:induction false} StaysClosed(p: Pool, ms: seq<Move>, k: nat)
    requires k <= |ms| && Start(p) && Play(p, ms).b.state.Closed?
    ensures Play(p, ms[..k]).b.state.Closed?
  {
    if k < |ms| {
      var front := ms[..|ms| - 1];
      StaysClosed(p, front, k);
      assert front[..k] == ms[..k];
    } else {
      assert ms[..k] == ms;
    }
  }

  /** A legal run in time order, over by instant `t` ... */
  ghost predicate Trail(slots: nat, p: Pool, ms: seq<Move>, t: int) {
    ms == [] ||
    var before, m := ms[..|ms| - 1], ms[|ms| - 1];
    Trail(slots, p, before, m.at) && Enabled(slots, Play(p, before), m) && m.at <= t
  }

  /** ... and where it leads. */
  ghost predicate Leads(slots: nat, p: Pool, ms: seq<Move>, q: Pool, probes: nat, t: int) {
    Trail(slots, p, ms, t) && Play(p, ms) == q && Probes(p.b, EventsIn(ms)) == probes
  }

  lemma {:induction false} TrailIsLegal(slots: nat, p: Pool, ms: seq<Move>, t: int)
    requires Trail(slots, p, ms, t)
    ensures Legal(slots, p, ms)
    ensures forall k :: 0 <= k < |ms| ==> ms[k].at <= t
    ensures forall j, k :: 0 <= j < k < |ms| ==> ms[j].at <= ms[k].at
  {
    if ms != [] {
      var before, m := ms[..|ms| - 1], ms[|ms| - 1];
      TrailIsLegal(slots, p, before, m.at);
      Extend(slots, p, before, m);
      assert ms == before + [m];
    }
  }

  lemma {:induction false} LegalIsTrail(slots: nat, p: Pool, ms: seq<Move>)
    requires Legal(slots, p, ms) && AtInstantZero(ms)
    ensures Trail(slots, p, ms, 0)
  {
    if ms != [] {
      LegalBefore(slots, p, ms);
      LegalIsTrail(slots, p, ms[..|ms| - 1]);
    }
  }

  lemma {:induction false} LeadsOn(slots: nat, p: Pool, ms: seq<Move>, q: Pool, probes: nat, t: int,
                                   m: Move, more: seq<Move>, q': Pool, probes': nat, t': int)
    requires Leads(slots, p, ms, q, probes, t) && Enabled(slots, q, m) && t <= m.at == t' && more == ms + [m]
    requires q' == MoveStep(q, m) && probes' == probes + if IsProbe(q.b, EventOf(m)) then 1 else 0
    ensures Leads(slots, p, more, q', probes', t')
  {
    assert more[..|more| - 1] == ms;
    TrailLasts(slots, p, ms, t, m.at);
    OneMoreProbe(p, more);
  }

  lemma {:induction false} TrailLasts(slots: nat, p: Pool, ms: seq<Move>, t: int, t': int)
    requires Trail(slots, p, ms, t) && t <= t'
    ensures Trail(slots, p, ms, t')
  {
  }

  /** Slots n-1 .. 0 all report their failures at instant `t`, which opens the breaker. */
  lemma {:induction false} FailAll(slots: nat, p: Pool, ms: seq<Move>, q: Pool, probes: nat, t: int, n: nat)
    returns (more: seq<Move>, q': Pool)
    requires n <= slots && Leads(slots, p, ms, q, probes, t)
    requires q.inFlight == Range(n) && q.b.failures + 1 >= q.b.threshold
    requires n == 0 ==> q.b.state.Open? && q.b.openedAt == t
    ensures Leads(slots, p, more, q', probes, t)
    ensures q'.b.state.Open? && q'.b.openedAt == t && q'.b.timeout == q.b.timeout
    ensures q'.b.failures + 1 >= q'.b.threshold && q'.inFlight == {} && q'.hits == q.hits
    decreases n
  {
    more, q' := ms, q;
    if n > 0 {
      var m := End(n - 1, t);
      var next, r := ms + [m], MoveStep(q, m);
      assert Range(n) - {n - 1} == Range(n - 1);
      assert Leads(slots, p, next, r, probes, t) by {
        LeadsOn(slots, p, ms, q, probes, t, m, next, r, probes, t);
      }
      more, q' := FailAll(slots, p, next, r, probes, t, n - 1);
    }
  }

  /** When the timeout has passed, slots 0 .. n-1 all get through on one probe. */
  lemma {:induction false} ProbeAll(slots: nat, p: Pool, ms: seq<Move>, q: Pool, probes: nat, t: int, n: nat)
    returns (more: seq<Move>, q': Pool)
    requires 0 < n <= slots && Leads(slots, p, ms, q, probes, t) && t <= q.b.openedAt + q.b.timeout
    requires q.b.state.Open? && q.inFlight == {}
    ensures Leads(slots, p, more, q', probes + 1, q.b.openedAt + q.b.timeout)
    ensures q'.b == q.b.(state := HalfOpen, successes := 0)
    ensures q'.inFlight == Range(n) && q'.hits == q.hits + n
  {
    var at := q.b.openedAt + q.b.timeout;
    var m := Begin(n - 1, at);
    if n == 1 {
      more, q' := ms + [m], MoveStep(q, m);
      LeadsOn(slots, p, ms, q, probes, t, m, more, q', probes + 1, at);
    } else {
      var before, r := ProbeAll(slots, p, ms, q, probes, t, n - 1);
      more, q' := before + [m], MoveStep(r, m);
      LeadsOn(slots, p, before, r, probes + 1, at, m, more, q', probes + 1, at);
    }
  }

  /** After any number of probes all slots can be at the upstream again: all get through on
      each probe, and then all fail. */
  lemma {:induction false} LoadedAgain(slots: nat, p: Pool, n: nat) returns (ms: seq<Move>, q: Pool, t: int)
    requires slots >= 1 && Start(p) && p.b.timeout >= 0
    ensures Leads(slots, p, ms, q, n, t) && q.hits == Most(slots, p, n)
    ensures q.inFlight == Range(slots) && q.b.failures + 1 >= q.b.threshold && q.b.timeout == p.b.timeout
  {
    if n == 0 {
      ms, q := FullBurst(slots, p);
      t := 0;
    } else {
      var before, r, t0 := LoadedAgain(slots, p, n - 1);
      var failed, open := FailAll(slots, p, before, r, n - 1, t0, slots);
      ms, q := ProbeAll(slots, p, failed, open, n - 1, t0, slots);
      t := t0 + p.b.timeout;
      MostGrows(slots, p, n - 1, n);
    }
  }

  /** The bound per probe is reached too, for every number of probes. */
  lemma {:induction false} ProbeBoundIsTight(slots: nat, p: Pool, n: nat) returns (ms: seq<Move>)
    requires slots >= 1 && Start(p) && p.b.timeout >= 0
    ensures Legal(slots, p, ms) && forall j, k :: 0 <= j < k < |ms| ==> ms[j].at <= ms[k].at
    ensures Probes(p.b, EventsIn(ms)) == n && Play(p, ms).hits == Most(slots, p, n)
  {
    var q, t;
    ms, q, t := LoadedAgain(slots, p, n);
    TrailIsLegal(slots, p, ms, t);
  }

  lemma {:induction false} NoProbeWhileClosed(p: Pool, ms: seq<Move>)
    requires Start(p) && Play(p, ms).b.state.Closed?
    ensures Probes(p.b, EventsIn(ms)) == 0
  {
    if ms != [] {
      var before := ms[..|ms| - 1];
      StaysClosed(p, ms, |ms| - 1);
      NoProbeWhileClosed(p, before);
      OneMoreProbe(p, ms);
    }
  }
}
