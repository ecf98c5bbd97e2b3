/** The resilient transport: a retry loop whose body consults a circuit breaker
    that other requests use at the same time. */
module Resiliency {
  import opened Common
  import opened Breaker
  import opened Retry

  /** What the underlying transport answers. A failed exchange carries no response. */
  datatype Reply = TransportError | Response(status: int)

  /** One pass of the loop body: the breaker refused it, or it reached the upstream. */
  datatype Attempt = Refused | Admitted(reply: Reply)

  /** Everything the request does not decide itself, per attempt number: the
      upstream's reply, the clock readings, and the breaker calls of other requests
      before the attempt asks for admission and while its reply is outstanding. */
  datatype World = World(
    reply: nat -> Reply,
    allowAt: nat -> int,
    reportAt: nat -> int,
    others: nat -> seq<Event>,
    meanwhile: nat -> seq<Event>)

  predicate GoodReply(r: Reply) { r.Response? && r.status < 500 }

  predicate Succeeds(a: Attempt) { a.Admitted? && GoodReply(a.reply) }

  function Report(w: World, k: nat): Event {
    if GoodReply(w.reply(k)) then Success(w.reportAt(k)) else Failure(w.reportAt(k))
  }

  /** A breaker call and whether this request made it. */
  datatype Call = Call(event: Event, own: bool)

  function Foreign(es: seq<Event>): (cs: seq<Call>)
    ensures |cs| == |es| && forall k :: 0 <= k < |cs| ==> cs[k] == Call(es[k], false)
  {
    seq(|es|, k requires 0 <= k < |es| => Call(es[k], false))
  }

  /** The breaker calls up to the admission request of attempt k, given the log of
      the attempts before it. */
  function CallsBefore(w: World, log: seq<Attempt>): seq<Call>
    decreases |log|, 1
  {
    CallsOf(w, log) + Foreign(w.others(|log|))
  }

  /** All breaker calls, in order, while the attempts of `log` are made. */
  function CallsOf(w: World, log: seq<Attempt>): seq<Call>
    decreases |log|, 0
  {
    if log == [] then [] else
      var k := |log| - 1;
      var asked := CallsBefore(w, log[..k]) + [Call(Allow(w.allowAt(k)), true)];
      if log[k].Refused? then asked
      else asked + Foreign(w.meanwhile(k)) + [Call(Report(w, k), true)]
  }

  function Events(cs: seq<Call>): (es: seq<Event>)
    ensures |es| == |cs| && forall k :: 0 <= k < |es| ==> es[k] == cs[k].event
  {
    seq(|cs|, k requires 0 <= k < |cs| => cs[k].event)
  }

  /** Each entry of the log is what the breaker, started at `b`, decided; without a
      breaker every attempt is admitted. */
  ghost predicate Explains(b: Option<Fields>, w: World, log: seq<Attempt>) {
    forall k :: 0 <= k < |log| ==> log[k] == Decision(b, w, log[..k])
  }

  ghost function Decision(b: Option<Fields>, w: World, before: seq<Attempt>): Attempt {
    if b.Some? && !Admits(Run(b.value, Events(CallsBefore(w, before))), w.allowAt(|before|))
    then Refused else Admitted(w.reply(|before|))
  }

  function Verdicts(log: seq<Attempt>): (s: seq<bool>)
    ensures |s| == |log| && forall k :: 0 <= k < |s| ==> s[k] == Succeeds(log[k])
  {
    seq(|log|, k requires 0 <= k < |log| => Succeeds(log[k]))
  }

  /** The reply of the last attempt that reached the upstream. */
  function LastReply(log: seq<Attempt>): Option<Reply> {
    if log == [] then None
    else if log[|log| - 1].Admitted? then Some(log[|log| - 1].reply)
    else LastReply(log[..|log| - 1])
  }

  /** What the caller gets: the reply kept, unless that was an error of the transport. */
  function Kept(log: seq<Attempt>): Option<Reply> {
    if LastReply(log) == Some(TransportError) then None else LastReply(log)
  }

  /** The breaker after the attempts of `log`, all calls of others included. */
  function BreakerAfter(start: Option<Fields>, w: World, log: seq<Attempt>): Option<Fields> {
    if start.None? then None else Some(Run(start.value, Events(CallsOf(w, log))))
  }

  lemma RunAppend(f: Fields, es: seq<Event>, e: Event)
    ensures Run(f, es + [e]) == Step(Run(f, es), e)
  {
    assert (es + [e])[..|es|] == es;
  }

  lemma {:induction false} RunSplits(f: Fields, es: seq<Event>, more: seq<Event>)
    ensures Run(f, es + more) == Run(Run(f, es), more)
  {
    if more == [] {
      assert es + more == es;
    } else {
      var front := more[..|more| - 1];
      assert (es + more)[..|es + more| - 1] == es + front;
      RunSplits(f, es, front);
    }
  }

  class ResiliencyTransport {
    const retryCount: int
    const cb: CircuitBreaker?

    constructor (retryCount: int, cb: CircuitBreaker?)
      ensures this.retryCount == retryCount && this.cb == cb
    {
      this.retryCount, this.cb := retryCount, cb;
    }

    function BreakerView(): Option<Fields>
      reads cb
    {
      if cb == null then None else Some(cb.View())
    }

    /** Other requests' calls on the shared breaker. */
    method Interfere(es: seq<Event>)
      modifies cb
      ensures cb != null ==> cb.View() == Run(old(cb.View()), es)
    {
      if cb != null {
        for k := 0 to |es|
          invariant cb.View() == Run(old(cb.View()), es[..k])
        {
          match es[k] {
            case Allow(at) => var _ := cb.Allow(at);
            case Success(at) => cb.Success(at);
            case Failure(at) => cb.Failure(at);
          }
          assert es[..k + 1][..k] == es[..k];
        }
        assert es[..|es|] == es;
      }
    }

    /** The body of the retry loop. `start` is the breaker when the request began
        and `before` the attempts already made. */
    method TryOnce(w: World, ghost start: Option<Fields>, ghost before: seq<Attempt>, k: nat)
      returns (attempt: Attempt)
      requires k == |before| && BreakerView() == BreakerAfter(start, w, before)
      modifies cb
      ensures attempt == Decision(start, w, before)
      ensures BreakerView() == BreakerAfter(start, w, before + [attempt])
    {
      Interfere(w.others(k));
      if cb != null {
        RunOthers(start.value, CallsOf(w, before), w.others(k), CallsBefore(w, before));
        var admitted := cb.Allow(w.allowAt(k));
        if !admitted {
          AttemptEffect(start.value, w, before, Refused, before + [Refused]);
          return Refused;
        }
      }
      Interfere(w.meanwhile(k));
      var reply := w.reply(k);
      if cb != null {
        if reply.TransportError? {
          cb.Failure(w.reportAt(k));
        } else if reply.status >= 500 {
          cb.Failure(w.reportAt(k));
        } else {
          cb.Success(w.reportAt(k));
        }
        AttemptEffect(start.value, w, before, Admitted(reply), before + [Admitted(reply)]);
      }
      attempt := Admitted(reply);
    }

    /** The retry loop around TryOnce. */
    method Attempts(w: World, maxAttempts: int) returns (resp: Option<Reply>, ghost log: seq<Attempt>)
      modifies cb
      ensures Explains(old(BreakerView()), w, log)
      ensures IsRetryRun(maxAttempts, Verdicts(log), log != [] && Succeeds(log[|log| - 1]))
      ensures BreakerView() == BreakerAfter(old(BreakerView()), w, log)
      ensures resp == Kept(log)
    {
      ghost var start := BreakerView();
      resp, log := None, [];
      var k := 0;
      while k < maxAttempts
        invariant 0 <= k == |log| <= Max(maxAttempts, 0)
        invariant Explains(start, w, log) && BreakerView() == BreakerAfter(start, w, log)
        invariant forall j :: 0 <= j < |log| ==> !Succeeds(log[j])
        invariant resp == Kept(log)
      {
        var attempt := TryOnce(w, start, log, k);
        if attempt.Admitted? {
          resp := if attempt.reply.TransportError? then None else Some(attempt.reply);
        }
        ghost var before := log;
        log := log + [attempt];
        ExplainsGrows(start, w, before, attempt, log);
        if Succeeds(attempt) {
          Stops(maxAttempts, log);
          return;
        }
        k := k + 1;
      }
      Stops(maxAttempts, log);
    }

    /** `resp` is None when the caller gets an error instead of a response: exactly when no
        attempt reached the upstream or the last one that did failed in transport. */
    method RoundTrip(w: World) returns (resp: Option<Reply>, ghost log: seq<Attempt>)
      modifies cb
      ensures Explains(old(BreakerView()), w, log)
      ensures BreakerView() == BreakerAfter(old(BreakerView()), w, log)
      ensures forall r :: resp == Some(r) <==> r.Response? && exists k :: IsLastAdmitted(log, k) && log[k].reply == r
      ensures forall k :: 0 <= k < |log| && log[k].Admitted? ==> log[k].reply == w.reply(k)
      ensures cb == null ==> forall k :: 0 <= k < |log| ==> log[k].Admitted?
      ensures IsRetryRun(RetryConfigFor(retryCount).maxAttempts, Verdicts(log), log != [] && Succeeds(log[|log| - 1]))
      ensures retryCount < TWO_63 - 1 ==> StopsInTime(if retryCount > 0 then retryCount + 1 else 3, log)
    {
      var cfg := DefaultRetryConfig();
      if retryCount > 0 {
        cfg := cfg.(maxAttempts := Wrap64(retryCount + 1));
      }
      resp, log := Attempts(w, cfg.maxAttempts);
      KeptIsLastAdmitted(log);
      AttemptFacts(retryCount, old(BreakerView()), w, log);
    }
  }

  lemma {:induction false} AttemptFacts(retryCount: int, start: Option<Fields>, w: World, log: seq<Attempt>)
    requires Explains(start, w, log)
    requires IsRetryRun(RetryConfigFor(retryCount).maxAttempts, Verdicts(log), log != [] && Succeeds(log[|log| - 1]))
    ensures forall k :: 0 <= k < |log| && log[k].Admitted? ==> log[k].reply == w.reply(k)
    ensures start.None? ==> forall k :: 0 <= k < |log| ==> log[k].Admitted?
    ensures retryCount < TWO_63 - 1 ==> StopsInTime(if retryCount > 0 then retryCount + 1 else 3, log)
  {
    forall k | 0 <= k < |log|
      ensures (log[k].Admitted? ==> log[k].reply == w.reply(k)) && (start.None? ==> log[k].Admitted?)
    {
      assert log[k] == Decision(start, w, log[..k]);
    }
    if retryCount < TWO_63 - 1 {
      AttemptsFor(retryCount);
      RetryRunStops(if retryCount > 0 then retryCount + 1 else 3, log);
    }
  }

  lemma {:induction false} RetryRunStops(max: int, log: seq<Attempt>)
    requires IsRetryRun(max, Verdicts(log), log != [] && Succeeds(log[|log| - 1])) && max >= 0
    ensures StopsInTime(max, log)
  {
    forall k | 0 <= k < |log| - 1 ensures !Succeeds(log[k]) {
      assert !Verdicts(log)[k];
    }
  }

  /** At most `max` attempts are made, and fewer only if the last one got a response below
      500; no other attempt got one. */
  ghost predicate StopsInTime(max: int, log: seq<Attempt>) {
    && |log| <= max
    && (forall k :: 0 <= k < |log| - 1 && log[k].Admitted? && log[k].reply.Response? ==> log[k].reply.status >= 500)
    && (|log| < max ==>
          log != [] && var last := log[|log| - 1];
          last.Admitted? && last.reply.Response? && last.reply.status < 500)
  }

  lemma {:induction false} KeptIsLastAdmitted(log: seq<Attempt>)
    ensures forall r :: Kept(log) == Some(r) <==> r.Response? && exists k :: IsLastAdmitted(log, k) && log[k].reply == r
  {
    LastReplyIsLastAdmitted(log);
    forall i, j | IsLastAdmitted(log, i) && IsLastAdmitted(log, j) ensures i == j {
    }
  }

  /** Attempts that end with the first success, or with the last one allowed. */
  lemma {:induction false} Stops(max: int, log: seq<Attempt>)
    requires |log| <= Max(max, 0) && forall j :: 0 <= j < |log| - 1 ==> !Succeeds(log[j])
    requires |log| == Max(max, 0) || (log != [] && Succeeds(log[|log| - 1]))
    ensures IsRetryRun(max, Verdicts(log), log != [] && Succeeds(log[|log| - 1]))
  {
  }

  lemma {:induction false} RunOthers(f: Fields, cs: seq<Call>, es: seq<Event>, all: seq<Call>)
    requires all == cs + Foreign(es)
    ensures Run(f, Events(all)) == Run(Run(f, Events(cs)), es)
  {
    assert Events(all) == Events(cs) + es;
    RunSplits(f, Events(cs), es);
  }

  lemma {:induction false} RunCall(f: Fields, cs: seq<Call>, c: Call, all: seq<Call>)
    requires all == cs + [c]
    ensures Run(f, Events(all)) == Step(Run(f, Events(cs)), c.event)
  {
    assert Events(all) == Events(cs) + [c.event];
    RunAppend(f, Events(cs), c.event);
  }

  /** What one more attempt does to the breaker, call by call. */
  lemma {:induction false} AttemptEffect(f: Fields, w: World, before: seq<Attempt>, a: Attempt, log: seq<Attempt>)
    requires log == before + [a]
    ensures var k := |before|;
      var asked := Step(Run(Run(f, Events(CallsOf(w, before))), w.others(k)), Allow(w.allowAt(k)));
      Run(f, Events(CallsOf(w, log))) ==
        if a.Refused? then asked else Step(Run(asked, w.meanwhile(k)), Report(w, k))
  {
    var k := |before|;
    assert log[..k] == before;
    var asking := CallsBefore(w, before);
    var asked := asking + [Call(Allow(w.allowAt(k)), true)];
    RunOthers(f, CallsOf(w, before), w.others(k), asking);
    RunCall(f, asking, Call(Allow(w.allowAt(k)), true), asked);
    if a.Admitted? {
      var waited := asked + Foreign(w.meanwhile(k));
      RunOthers(f, asked, w.meanwhile(k), waited);
      RunCall(f, waited, Call(Report(w, k), true), CallsOf(w, log));
    }
  }

  lemma {:induction false} ExplainsGrows(b: Option<Fields>, w: World, log: seq<Attempt>, next: Attempt,
      grown: seq<Attempt>)
    requires Explains(b, w, log) && next == Decision(b, w, log) && grown == log + [next]
    ensures Explains(b, w, grown)
    ensures LastReply(grown) == if next.Admitted? then Some(next.reply) else LastReply(log)
    ensures forall j :: 0 <= j < |log| ==> grown[j] == log[j]
  {
    assert grown[..|log|] == log;
    forall k | 0 <= k < |grown| ensures grown[k] == Decision(b, w, grown[..k]) {
      if k < |log| { assert grown[..k] == log[..k]; }
    }
  }

  lemma ExplainsPrefix(b: Option<Fields>, w: World, log: seq<Attempt>, n: nat)
    requires Explains(b, w, log) && n <= |log|
    ensures Explains(b, w, log[..n])
  {
    forall j | 0 <= j < n ensures log[..n][j] == Decision(b, w, log[..n][..j]) {
      assert log[..n][..j] == log[..j];
    }
  }

  /** The attempts of a request are determined by its world and the breaker's state. */
  lemma {:induction false} LogIsDetermined(b: Option<Fields>, w: World, max: int, log: seq<Attempt>, log': seq<Attempt>)
    requires Explains(b, w, log) && Explains(b, w, log')
    requires IsRetryRun(max, Verdicts(log), log != [] && Succeeds(log[|log| - 1]))
    requires IsRetryRun(max, Verdicts(log'), log' != [] && Succeeds(log'[|log'| - 1]))
    ensures log == log'
  {
    NotShorter(b, w, max, log, log');
    NotShorter(b, w, max, log', log);
    CommonPrefix(b, w, log, log', |log|);
    assert log[..|log|] == log && log'[..|log'|] == log';
  }

  lemma NotShorter(b: Option<Fields>, w: World, max: int, log: seq<Attempt>, log': seq<Attempt>)
    requires Explains(b, w, log) && Explains(b, w, log')
    requires IsRetryRun(max, Verdicts(log), log != [] && Succeeds(log[|log| - 1]))
    requires IsRetryRun(max, Verdicts(log'), log' != [] && Succeeds(log'[|log'| - 1]))
    ensures |log| >= |log'|
  {
    var last := 0 < |log| <= |log'| && Verdicts(log')[|log| - 1];
    if |log| < |log'| {
      CommonPrefix(b, w, log, log', |log|);
      assert false;
    }
  }

  lemma {:induction false} CommonPrefix(b: Option<Fields>, w: World, log: seq<Attempt>, log': seq<Attempt>, n: nat)
    requires Explains(b, w, log) && Explains(b, w, log')
    requires n <= |log| && n <= |log'|
    ensures log[..n] == log'[..n]
  {
    if n > 0 {
      CommonPrefix(b, w, log, log', n - 1);
      assert log[n - 1] == Decision(b, w, log[..n - 1]) == log'[n - 1];
      assert log[..n] == log[..n - 1] + [log[n - 1]];
      assert log'[..n] == log'[..n - 1] + [log'[n - 1]];
    }
  }

  /** The last call of an attempt: the request for admission if it was refused, else the
      report, a success exactly for a response below 500. */
  lemma {:induction false} AttemptEndsWith(w: World, log: seq<Attempt>)
    requires log != [] && (log[|log| - 1].Admitted? ==> log[|log| - 1].reply == w.reply(|log| - 1))
    ensures var k, cs := |log| - 1, CallsOf(w, log);
      cs != [] && cs[|cs| - 1] == Call(
        if log[k].Refused? then Allow(w.allowAt(k))
        else if log[k].reply.Response? && log[k].reply.status < 500 then Success(w.reportAt(k))
        else Failure(w.reportAt(k)), true)
  {
  }

  /** The caller gets an error exactly when no attempt reached the upstream or the
      last one that did failed in transport; otherwise it gets that one's response,
      even after later refusals. */
  lemma {:induction false} LastReplyIsLastAdmitted(log: seq<Attempt>)
    ensures match LastReply(log)
      case None => forall k :: 0 <= k < |log| ==> log[k].Refused?
      case Some(r) => exists k :: IsLastAdmitted(log, k) && log[k].reply == r
  {
    if log != [] {
      var n := |log| - 1;
      LastReplyIsLastAdmitted(log[..n]);
      if log[n].Admitted? {
        assert IsLastAdmitted(log, n);
      } else if LastReply(log).Some? {
        var k :| IsLastAdmitted(log[..n], k) && log[k].reply == LastReply(log).value;
        assert IsLastAdmitted(log, k);
      }
    }
  }

  ghost predicate IsLastAdmitted(log: seq<Attempt>, k: int) {
    0 <= k < |log| && log[k].Admitted? && forall j :: k < j < |log| ==> log[j].Refused?
  }

  function AdmittedCount(log: seq<Attempt>): nat {
    if log == [] then 0 else
      AdmittedCount(log[..|log| - 1]) + if log[|log| - 1].Admitted? then 1 else 0
  }

  function GoodCount(log: seq<Attempt>): nat {
    if log == [] then 0 else
      GoodCount(log[..|log| - 1]) + if Succeeds(log[|log| - 1]) then 1 else 0
  }

  datatype Tally = Tally(allows: nat, successes: nat, failures: nat)

  /** How many calls of each kind the request itself makes. */
  function OwnCalls(cs: seq<Call>): Tally {
    if cs == [] then Tally(0, 0, 0) else
      var t, c := OwnCalls(cs[..|cs| - 1]), cs[|cs| - 1];
      if !c.own then t
      else match c.event
        case Allow(_) => t.(allows := t.allows + 1)
        case Success(_) => t.(successes := t.successes + 1)
        case Failure(_) => t.(failures := t.failures + 1)
  }

  lemma {:induction false} ForeignCallsAreNotOwn(cs: seq<Call>, es: seq<Event>)
    ensures OwnCalls(cs + Foreign(es)) == OwnCalls(cs)
  {
    if es == [] {
      assert cs + Foreign(es) == cs;
    } else {
      var front := es[..|es| - 1];
      ForeignCallsAreNotOwn(cs, front);
      assert (cs + Foreign(es))[..|cs| + |front|] == cs + Foreign(front);
    }
  }

  lemma OneMoreCall(cs: seq<Call>, c: Call)
    ensures (cs + [c])[..|cs|] == cs
  {
  }

  /** Every attempt asks once; every admitted attempt reports exactly once, a success
      exactly when its reply is good; a refused attempt reports nothing. */
  lemma {:induction false} OneReportPerAdmission(b: Option<Fields>, w: World, log: seq<Attempt>)
    requires Explains(b, w, log)
    ensures GoodCount(log) <= AdmittedCount(log)
    ensures OwnCalls(CallsOf(w, log)) == Tally(|log|, GoodCount(log), AdmittedCount(log) - GoodCount(log))
  {
    if log != [] {
      var k := |log| - 1;
      var before := log[..k];
      ExplainsPrefix(b, w, log, k);
      OneReportPerAdmission(b, w, before);
      ForeignCallsAreNotOwn(CallsOf(w, before), w.others(k));
      OneMoreCall(CallsBefore(w, before), Call(Allow(w.allowAt(k)), true));
      if log[k].Admitted? {
        assert log[k] == Decision(b, w, before);
        var asked := CallsBefore(w, before) + [Call(Allow(w.allowAt(k)), true)];
        ForeignCallsAreNotOwn(asked, w.meanwhile(k));
        OneMoreCall(asked + Foreign(w.meanwhile(k)), Call(Report(w, k), true));
      }
    }
  }
}
