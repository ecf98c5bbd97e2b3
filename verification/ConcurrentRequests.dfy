/** Requests of the transport, any number at a time, as moves of slots on one breaker:
    what one request meets as calls of others are the calls of the other slots. */
module ConcurrentRequests {
  import opened Common
  import opened Breaker
  import opened Resiliency
  import opened SharedBreaker

  /** One request of a slot: the calls that others made since the slot's previous request,
      the world it runs in, and the attempts it has made so far. */
  datatype Exchange = Exchange(since: seq<Event>, w: World, log: seq<Attempt>)

  /** Everything that happened on the breaker when request `x` began, as its slot sees it. */
  function CallsUntil(before: seq<Exchange>, x: Exchange): seq<Call>
    decreases |before|, 1
  {
    SlotCalls(before) + Foreign(x.since)
  }

  /** ... and when the last request of the slot was over. */
  function SlotCalls(xs: seq<Exchange>): seq<Call>
    decreases |xs|, 0
  {
    if xs == [] then [] else
      var x := xs[|xs| - 1];
      CallsUntil(xs[..|xs| - 1], x) + CallsOf(x.w, x.log)
  }

  /** The attempts of each request are what the transport makes of the breaker it met, and
      none of them succeeded. */
  ghost predicate FailingRequests(b: Fields, xs: seq<Exchange>) {
    forall j: nat :: j < |xs| ==> FailingRequest(Run(b, Events(CallsUntil(xs[..j], xs[j]))), xs[j])
  }

  ghost predicate FailingRequest(met: Fields, x: Exchange) {
    Explains(Some(met), x.w, x.log) && GoodCount(x.log) == 0
  }

  /** A breaker call and the slot that made it. */
  datatype Tagged = Tagged(slot: nat, event: Event)

  function SeenBy(g: seq<Tagged>, slot: nat): (cs: seq<Call>)
    ensures |cs| == |g| && forall k :: 0 <= k < |cs| ==> cs[k] == Call(g[k].event, g[k].slot == slot)
  {
    seq(|g|, k requires 0 <= k < |g| => Call(g[k].event, g[k].slot == slot))
  }

  /** Where a slot stands after the attempts that are over: between two attempts or
      requests, or waiting for the reply to one more attempt. */
  datatype Now = Idle(since: seq<Event>) | Waiting(others: seq<Event>, at: int, since: seq<Event>)

  function NowCalls(now: Now): seq<Call> {
    match now
    case Idle(since) => Foreign(since)
    case Waiting(others, at, since) => Foreign(others) + [Call(Allow(at), true)] + Foreign(since)
  }

  /** A slot's requests, the last of them possibly under way, and where it stands. */
  datatype Slot = Slot(requests: seq<Exchange>, now: Now)

  /** `g` is the order in which the breaker served the calls of all slots: each slot sees
      its own requests in it. */
  ghost predicate Interleaving(g: seq<Tagged>, slots: seq<Slot>) {
    && (forall k :: 0 <= k < |g| ==> g[k].slot < |slots|)
    && (forall i: nat :: i < |slots| ==> SeenBy(g, i) == SlotCalls(slots[i].requests) + NowCalls(slots[i].now))
  }

  function MoveOf(c: Tagged): Move {
    if c.event.Allow? then Begin(c.slot, c.event.at) else End(c.slot, c.event.at)
  }

  function MovesOf(g: seq<Tagged>): (ms: seq<Move>)
    ensures |ms| == |g| && forall k :: 0 <= k < |ms| ==> ms[k] == MoveOf(g[k])
  {
    seq(|g|, k requires 0 <= k < |g| => MoveOf(g[k]))
  }

  // --------------------------------------------------------------- one slot's books

  /** The breaker, whether an own attempt is at the upstream, and how many own attempts
      reached it and were made. */
  datatype Books = Books(b: Fields, outstanding: bool, hits: nat, asks: nat)

  /** A slot asks while nothing is outstanding, and reports the failure of what is. Calls
      of others only move the breaker. */
  function Enter(k: Option<Books>, c: Call): Option<Books> {
    match k
    case None => None
    case Some(k) =>
      var b' := Step(k.b, c.event);
      if !c.own then Some(k.(b := b'))
      else if c.event.Failure? && k.outstanding then Some(k.(b := b', outstanding := false))
      else if c.event.Allow? && !k.outstanding then
        var admitted := Admits(k.b, c.event.at);
        Some(Books(b', admitted, k.hits + if admitted then 1 else 0, k.asks + 1))
      else None
  }

  /** The books after the calls `cs`, or None if a call was out of turn. */
  function Keep(k: Option<Books>, cs: seq<Call>): Option<Books> {
    if cs == [] then k else Enter(Keep(k, cs[..|cs| - 1]), cs[|cs| - 1])
  }

  lemma {:induction false} KeepOn(k: Option<Books>, cs: seq<Call>, more: seq<Call>)
    ensures Keep(k, cs + more) == Keep(Keep(k, cs), more)
  {
    if more == [] {
      assert cs + more == cs;
    } else {
      KeepOn(k, cs, more[..|more| - 1]);
      assert (cs + more)[..|cs + more| - 1] == cs + more[..|more| - 1];
    }
  }

  lemma {:induction false} KeepOne(k: Option<Books>, c: Call)
    ensures Keep(k, [c]) == Enter(k, c)
  {
    assert [c][..0] == [];
  }

  lemma {:induction false} KeepForeign(k: Books, es: seq<Event>)
    ensures Keep(Some(k), Foreign(es)) == Some(k.(b := Run(k.b, es)))
  {
    if es != [] {
      var n := |es| - 1;
      KeepForeign(k, es[..n]);
      assert Foreign(es)[..n] == Foreign(es[..n]);
    }
  }

  lemma {:induction false} KeepBreaker(k: Books, cs: seq<Call>)
    requires Keep(Some(k), cs).Some?
    ensures Keep(Some(k), cs).value.b == Run(k.b, Events(cs))
  {
    if cs != [] {
      KeepBreaker(k, cs[..|cs| - 1]);
      assert Events(cs)[..|cs| - 1] == Events(cs[..|cs| - 1]);
    }
  }

  function Front(x: Exchange): Exchange
    requires x.log != []
  {
    x.(log := x.log[..|x.log| - 1])
  }

  lemma {:induction false} FrontFails(met: Fields, x: Exchange)
    requires x.log != [] && FailingRequest(met, x)
    ensures FailingRequest(met, Front(x))
    ensures AdmittedCount(x.log) == AdmittedCount(Front(x).log) + if x.log[|x.log| - 1].Admitted? then 1 else 0
  {
    ExplainsPrefix(Some(met), x.w, x.log, |x.log| - 1);
  }

  /** The books `r` follow `k` by so many hits and asks, with nothing outstanding. */
  predicate Settled(k: Books, r: Option<Books>, hits: nat, asks: nat) {
    r.Some? && !r.value.outstanding && r.value.hits == k.hits + hits && r.value.asks == k.asks + asks
  }

  /** A failing request keeps the books in order: it asks once per attempt, and every
      admitted attempt is over when the request is. */
  lemma {:induction false} RequestInTurn(k: Books, x: Exchange)
    requires !k.outstanding && FailingRequest(k.b, x)
    ensures Settled(k, Keep(Some(k), CallsOf(x.w, x.log)), AdmittedCount(x.log), |x.log|)
    decreases |x.log|
  {
    if x.log == [] {
      assert CallsOf(x.w, x.log) == [];
    } else {
      FrontFails(k.b, x);
      RequestInTurn(k, Front(x));
      AttemptInTurn(k, x);
    }
  }

  lemma {:induction false} AttemptInTurn(k: Books, x: Exchange)
    requires x.log != [] && FailingRequest(k.b, x)
    requires var r := Keep(Some(k), CallsOf(x.w, Front(x).log)); r.Some? && !r.value.outstanding
    ensures Settled(Keep(Some(k), CallsOf(x.w, Front(x).log)).value, Keep(Some(k), CallsOf(x.w, x.log)),
      if x.log[|x.log| - 1].Admitted? then 1 else 0, 1)
  {
    var n := |x.log| - 1;
    var before := Keep(Some(k), CallsOf(x.w, Front(x).log)).value;
    var asking, ask := CallsBefore(x.w, Front(x).log), Call(Allow(x.w.allowAt(n)), true);
    KeepOn(Some(k), CallsOf(x.w, Front(x).log), Foreign(x.w.others(n)));
    KeepForeign(before, x.w.others(n));
    KeepBreaker(k, asking);
    assert x.log[n] == Decision(Some(k.b), x.w, x.log[..n]);
    var asked := asking + [ask];
    KeepOn(Some(k), asking, [ask]);
    KeepOne(Keep(Some(k), asking), ask);
    if x.log[n].Admitted? {
      ReportInTurn(k, asked, x.w.meanwhile(n), Report(x.w, n));
    }
  }

  lemma {:induction false} ReportInTurn(k: Books, asked: seq<Call>, meanwhile: seq<Event>, report: Event)
    requires Keep(Some(k), asked).Some? && Keep(Some(k), asked).value.outstanding && report.Failure?
    ensures Settled(Keep(Some(k), asked).value, Keep(Some(k), asked + Foreign(meanwhile) + [Call(report, true)]), 0, 0)
  {
    var before := Keep(Some(k), asked).value;
    KeepOn(Some(k), asked, Foreign(meanwhile));
    KeepForeign(before, meanwhile);
    KeepOn(Some(k), asked + Foreign(meanwhile), [Call(report, true)]);
    KeepOne(Keep(Some(k), asked + Foreign(meanwhile)), Call(report, true));
  }

  function AdmittedIn(xs: seq<Exchange>): nat {
    if xs == [] then 0 else AdmittedIn(xs[..|xs| - 1]) + AdmittedCount(xs[|xs| - 1].log)
  }

  function AttemptsIn(xs: seq<Exchange>): nat {
    if xs == [] then 0 else AttemptsIn(xs[..|xs| - 1]) + |xs[|xs| - 1].log|
  }

  function Blank(b: Fields): Books { Books(b, false, 0, 0) }

  lemma {:induction false} SlotInTurn(b: Fields, xs: seq<Exchange>)
    requires FailingRequests(b, xs)
    ensures Settled(Blank(b), Keep(Some(Blank(b)), SlotCalls(xs)), AdmittedIn(xs), AttemptsIn(xs))
  {
    if xs != [] {
      var n := |xs| - 1;
      var front := xs[..n];
      forall j: nat | j < n ensures FailingRequest(Run(b, Events(CallsUntil(front[..j], front[j]))), front[j]) {
        assert front[..j] == xs[..j];
      }
      SlotInTurn(b, front);
      NextRequest(Blank(b), front, xs[n]);
    }
  }

  /** ... and the slot's next request continues them. */
  lemma {:induction false} NextRequest(k: Books, front: seq<Exchange>, x: Exchange)
    requires Keep(Some(k), SlotCalls(front)).Some? && !Keep(Some(k), SlotCalls(front)).value.outstanding
    requires FailingRequest(Run(k.b, Events(CallsUntil(front, x))), x)
    ensures Settled(Keep(Some(k), SlotCalls(front)).value, Keep(Some(k), CallsUntil(front, x) + CallsOf(x.w, x.log)),
      AdmittedCount(x.log), |x.log|)
  {
    var idle := Keep(Some(k), SlotCalls(front)).value;
    KeepOn(Some(k), SlotCalls(front), Foreign(x.since));
    KeepForeign(idle, x.since);
    KeepBreaker(k, CallsUntil(front, x));
    KeepOn(Some(k), CallsUntil(front, x), CallsOf(x.w, x.log));
    RequestInTurn(Keep(Some(k), CallsUntil(front, x)).value, x);
  }

  // ------------------------------------------------------------ all slots together

  /** The books of slot `i` after the calls `g` of all slots. */
  function BooksAt(b: Fields, g: seq<Tagged>, i: nat): Option<Books> { Keep(Some(Blank(b)), SeenBy(g, i)) }

  lemma {:induction false} BooksOneMore(b: Fields, g: seq<Tagged>, i: nat)
    requires g != []
    ensures var c := g[|g| - 1];
      BooksAt(b, g, i) == Enter(BooksAt(b, g[..|g| - 1], i), Call(c.event, c.slot == i))
  {
    assert SeenBy(g, i)[..|g| - 1] == SeenBy(g[..|g| - 1], i);
  }

  function HitsOf(r: Option<Books>): nat { if r.Some? then r.value.hits else 0 }

  function AsksOf(r: Option<Books>): nat { if r.Some? then r.value.asks else 0 }

  function Hits(b: Fields, g: seq<Tagged>, n: nat): nat {
    if n == 0 then 0 else Hits(b, g, n - 1) + HitsOf(BooksAt(b, g, n - 1))
  }

  function Asks(b: Fields, g: seq<Tagged>, n: nat): nat {
    if n == 0 then 0 else Asks(b, g, n - 1) + AsksOf(BooksAt(b, g, n - 1))
  }

  /** The pool read off the books of its `n` slots, all in order. */
  ghost predicate Tallies(p: Pool, q: Pool, g: seq<Tagged>, n: nat) {
    && (forall i: nat :: i < n ==>
          BooksAt(p.b, g, i).Some? && BooksAt(p.b, g, i).value.b == q.b &&
          (BooksAt(p.b, g, i).value.outstanding <==> i in q.inFlight))
    && (forall i :: i in q.inFlight ==> i < n)
  }

  /** From `front` to `g` the counts of slot `i` grow by these amounts if it is `slot`. */
  ghost predicate Grows(b: Fields, front: seq<Tagged>, g: seq<Tagged>, i: nat, slot: nat, hits: nat, asks: nat) {
    && HitsOf(BooksAt(b, g, i)) == HitsOf(BooksAt(b, front, i)) + (if i == slot then hits else 0)
    && AsksOf(BooksAt(b, g, i)) == AsksOf(BooksAt(b, front, i)) + (if i == slot then asks else 0)
  }

  lemma {:induction false} CountsGrow(b: Fields, front: seq<Tagged>, g: seq<Tagged>, n: nat, slot: nat, hits: nat,
      asks: nat)
    requires forall i: nat :: i < n ==> Grows(b, front, g, i, slot, hits, asks)
    ensures Hits(b, g, n) == Hits(b, front, n) + if slot < n then hits else 0
    ensures Asks(b, g, n) == Asks(b, front, n) + if slot < n then asks else 0
  {
    if n > 0 {
      assert Grows(b, front, g, n - 1, slot, hits, asks);
      CountsGrow(b, front, g, n - 1, slot, hits, asks);
    }
  }

  function HitsBy(q: Pool, c: Tagged): nat { if c.event.Allow? && Admits(q.b, c.event.at) then 1 else 0 }

  function AsksBy(c: Tagged): nat { if c.event.Allow? then 1 else 0 }

  /** What the latest call adds to the counts. */
  lemma {:induction false} CountOneMore(p: Pool, q: Pool, g: seq<Tagged>, n: nat)
    requires g != [] && Tallies(p, q, g[..|g| - 1], n)
    requires g[|g| - 1].slot < n && BooksAt(p.b, g, g[|g| - 1].slot).Some?
    ensures var front, c := g[..|g| - 1], g[|g| - 1];
      && Hits(p.b, g, n) == Hits(p.b, front, n) + HitsBy(q, c)
      && Asks(p.b, g, n) == Asks(p.b, front, n) + AsksBy(c)
  {
    var front, c := g[..|g| - 1], g[|g| - 1];
    forall i: nat | i < n ensures Grows(p.b, front, g, i, c.slot, HitsBy(q, c), AsksBy(c)) {
      BooksOneMore(p.b, g, i);
    }
    CountsGrow(p.b, front, g, n, c.slot, HitsBy(q, c), AsksBy(c));
  }

  lemma {:induction false} InTurnIsEnabled(p: Pool, q: Pool, g: seq<Tagged>, n: nat)
    requires g != [] && Tallies(p, q, g[..|g| - 1], n)
    requires var c := g[|g| - 1]; c.slot < n && BooksAt(p.b, g, c.slot).Some?
    ensures Enabled(n, q, MoveOf(g[|g| - 1]))
  {
    BooksOneMore(p.b, g, g[|g| - 1].slot);
  }

  lemma {:induction false} TalliesStep(p: Pool, q: Pool, g: seq<Tagged>, n: nat, q': Pool)
    requires g != [] && AllInTurn(p.b, g, n) && Tallies(p, q, g[..|g| - 1], n)
    requires q' == MoveStep(q, MoveOf(g[|g| - 1]))
    ensures Tallies(p, q', g, n)
  {
    var c := g[|g| - 1];
    forall i: nat | i < n
      ensures BooksAt(p.b, g, i) == Enter(BooksAt(p.b, g[..|g| - 1], i), Call(c.event, c.slot == i))
    {
      BooksOneMore(p.b, g, i);
    }
  }

  ghost predicate AllInTurn(b: Fields, g: seq<Tagged>, n: nat) {
    && (forall k :: 0 <= k < |g| ==> g[k].slot < n)
    && (forall i: nat :: i < n ==> BooksAt(b, g, i).Some?)
  }

  /** Slots whose books are in order make a legal run, and the books tell its outcome. */
  lemma {:induction false} InTurnIsLegal(p: Pool, g: seq<Tagged>, n: nat)
    requires Start(p) && AllInTurn(p.b, g, n)
    ensures Booked(p, MovesOf(g), g, n)
  {
    if g == [] {
      NothingYet(p, n);
    } else {
      var front := g[..|g| - 1];
      forall i: nat | i < n ensures BooksAt(p.b, front, i).Some? {
        BooksOneMore(p.b, g, i);
      }
      InTurnIsLegal(p, front, n);
      OneMoveMore(p, g, n);
    }
  }

  ghost predicate Reached(p: Pool, q: Pool, g: seq<Tagged>, n: nat) {
    Tallies(p, q, g, n) && q.hits == Hits(p.b, g, n)
  }

  /** The run makes sense so far and the books tell its outcome. */
  ghost predicate Booked(p: Pool, ms: seq<Move>, g: seq<Tagged>, n: nat) {
    Legal(n, p, ms) && Reached(p, Play(p, ms), g, n) && Begins(ms) == Asks(p.b, g, n)
  }

  lemma {:induction false} OneMoveMore(p: Pool, g: seq<Tagged>, n: nat)
    requires g != [] && AllInTurn(p.b, g, n)
    requires Booked(p, MovesOf(g[..|g| - 1]), g[..|g| - 1], n)
    ensures Booked(p, MovesOf(g), g, n)
  {
    var before, m := MovesOf(g[..|g| - 1]), MoveOf(g[|g| - 1]);
    InTurnIsEnabled(p, Play(p, before), g, n);
    MoveExtends(n, p, before, m, MovesOf(g));
    TalliesStep(p, Play(p, before), g, n, Play(p, MovesOf(g)));
    CountOneMore(p, Play(p, before), g, n);
  }

  lemma {:induction false} MoveExtends(n: nat, p: Pool, ms: seq<Move>, m: Move, more: seq<Move>)
    requires more == ms + [m] && Legal(n, p, ms) && Enabled(n, Play(p, ms), m)
    ensures Legal(n, p, more) && Play(p, more) == MoveStep(Play(p, ms), m)
    ensures Begins(more) == Begins(ms) + if m.Begin? then 1 else 0
  {
    Extend(n, p, ms, m);
    assert more[..|ms|] == ms;
  }

  lemma {:induction false} NothingYet(p: Pool, n: nat)
    requires Start(p)
    ensures Tallies(p, p, [], n) && Hits(p.b, [], n) == 0 && Asks(p.b, [], n) == 0
  {
    if n > 0 { NothingYet(p, n - 1); }
  }

  /** Attempts of the slot that reached the upstream: those that are over, and the one it
      waits for if the breaker admitted it. */
  function SlotHits(b: Fields, s: Slot): nat {
    AdmittedIn(s.requests) +
    if s.now.Waiting? && Admits(Run(b, Events(SlotCalls(s.requests) + Foreign(s.now.others))), s.now.at) then 1 else 0
  }

  function SlotAttempts(s: Slot): nat { AttemptsIn(s.requests) + if s.now.Waiting? then 1 else 0 }

  function TotalHits(b: Fields, slots: seq<Slot>): nat {
    if slots == [] then 0 else TotalHits(b, slots[..|slots| - 1]) + SlotHits(b, slots[|slots| - 1])
  }

  function TotalAttempts(slots: seq<Slot>): nat {
    if slots == [] then 0 else TotalAttempts(slots[..|slots| - 1]) + SlotAttempts(slots[|slots| - 1])
  }

  ghost predicate AllFail(b: Fields, slots: seq<Slot>) {
    forall i: nat :: i < |slots| ==> FailingRequests(b, slots[i].requests)
  }

  ghost predicate BooksAre(b: Fields, r: Option<Books>, s: Slot) {
    r.Some? && r.value.hits == SlotHits(b, s) && r.value.asks == SlotAttempts(s)
  }

  /** The books of a slot wherever it stands. */
  lemma {:induction false} SlotIsBooked(b: Fields, s: Slot)
    requires FailingRequests(b, s.requests)
    ensures BooksAre(b, Keep(Some(Blank(b)), SlotCalls(s.requests) + NowCalls(s.now)), s)
  {
    var k, done := Some(Blank(b)), SlotCalls(s.requests);
    SlotInTurn(b, s.requests);
    if s.now.Idle? {
      KeepOn(k, done, Foreign(s.now.since));
      KeepForeign(Keep(k, done).value, s.now.since);
    } else {
      WaitingIsBooked(Blank(b), done, s.now);
      var ask := Call(Allow(s.now.at), true);
      assert done + NowCalls(s.now) == done + Foreign(s.now.others) + [ask] + Foreign(s.now.since);
    }
  }

  lemma {:induction false} WaitingIsBooked(k: Books, done: seq<Call>, now: Now)
    requires Keep(Some(k), done).Some? && !Keep(Some(k), done).value.outstanding && now.Waiting?
    ensures var before := Keep(Some(k), done).value;
      var asking := done + Foreign(now.others);
      var r := Keep(Some(k), asking + [Call(Allow(now.at), true)] + Foreign(now.since));
      && r.Some? && r.value.asks == before.asks + 1
      && r.value.hits == before.hits + if Admits(Run(k.b, Events(asking)), now.at) then 1 else 0
  {
    var asking, ask := done + Foreign(now.others), Call(Allow(now.at), true);
    KeepOn(Some(k), done, Foreign(now.others));
    KeepForeign(Keep(Some(k), done).value, now.others);
    KeepBreaker(k, asking);
    KeepOn(Some(k), asking, [ask]);
    KeepOne(Keep(Some(k), asking), ask);
    KeepOn(Some(k), asking + [ask], Foreign(now.since));
    KeepForeign(Keep(Some(k), asking + [ask]).value, now.since);
  }

  lemma {:induction false} Totals(b: Fields, g: seq<Tagged>, slots: seq<Slot>)
    requires forall i: nat :: i < |slots| ==> BooksAre(b, BooksAt(b, g, i), slots[i])
    ensures Hits(b, g, |slots|) == TotalHits(b, slots) && Asks(b, g, |slots|) == TotalAttempts(slots)
  {
    if slots != [] {
      var n := |slots| - 1;
      assert BooksAre(b, BooksAt(b, g, n), slots[n]);
      Totals(b, g, slots[..n]);
    }
  }

  /** Concurrent requests of the transport are a legal run of as many slots as requests
      run at a time, with the same hits and attempts. */
  lemma {:induction false} RequestsAreMoves(p: Pool, g: seq<Tagged>, slots: seq<Slot>)
    requires Start(p) && Interleaving(g, slots) && AllFail(p.b, slots)
    ensures Legal(|slots|, p, MovesOf(g))
    ensures Play(p, MovesOf(g)).hits == TotalHits(p.b, slots) && Begins(MovesOf(g)) == TotalAttempts(slots)
  {
    forall i: nat | i < |slots| ensures BooksAre(p.b, BooksAt(p.b, g, i), slots[i]) {
      SlotIsBooked(p.b, slots[i]);
    }
    InTurnIsLegal(p, g, |slots|);
    Totals(p.b, g, slots);
  }

  /** Any number of requests with any retry counts, at most |slots| at a time, against a
      failing upstream: until the timeout has passed, at most threshold - failures +
      |slots| - 1 of their attempts reach it, those still under way included. */
  lemma {:induction false} ConcurrentRequestsHits(p: Pool, g: seq<Tagged>, slots: seq<Slot>)
    requires slots != [] && Start(p) && Interleaving(g, slots) && AllFail(p.b, slots)
    requires WithinTimeout(p, MovesOf(g))
    ensures TotalHits(p.b, slots) <= p.b.threshold - p.b.failures + |slots| - 1
  {
    RequestsAreMoves(p, g, slots);
    UpstreamHitsBound(|slots|, p, MovesOf(g));
  }

  /** Over any span of time: |slots| more per whole timeout in it, and once more. */
  lemma {:induction false} ConcurrentRequestsHitsOverTime(p: Pool, g: seq<Tagged>, slots: seq<Slot>)
    requires slots != [] && Start(p) && Interleaving(g, slots) && AllFail(p.b, slots)
    requires p.b.timeout > 0 && InTime(MovesOf(g))
    ensures TotalHits(p.b, slots) <= Most(|slots|, p, 1 + Timeouts(p.b.timeout, EventsIn(MovesOf(g))))
  {
    RequestsAreMoves(p, g, slots);
    HitsOverTime(|slots|, p, MovesOf(g));
  }

  /** One after the other: exactly min(all attempts, threshold - failures). */
  lemma {:induction false} SequentialRequestsHits(p: Pool, g: seq<Tagged>, s: Slot)
    requires Start(p) && Interleaving(g, [s]) && FailingRequests(p.b, s.requests)
    requires WithinTimeout(p, MovesOf(g))
    ensures SlotHits(p.b, s) == Min(SlotAttempts(s), p.b.threshold - p.b.failures)
  {
    RequestsAreMoves(p, g, [s]);
    SingleSlotHits(p, MovesOf(g));
    assert [s][..0] == [];
    assert TotalHits(p.b, [s][..0]) == 0 && TotalAttempts([s][..0]) == 0;
  }
}
