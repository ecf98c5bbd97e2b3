/** The per-endpoint circuit breaker: a three-state machine driven by admission
    requests and by success or failure reports, each of which may arrive late.
    Instants and durations are integers (nanoseconds). */
module Breaker {
  import opened Common

  datatype State = Closed | Open | HalfOpen

  /** The value of every field of a breaker. */
  datatype Fields = Fields(
    state: State, failures: int, successes: int, openedAt: int,
    threshold: int, timeout: int, halfOpenMax: int)

  /** One call on the breaker together with the instant at which it holds the mutex. */
  datatype Event = Allow(at: int) | Success(at: int) | Failure(at: int)

  function Initial(threshold: int, timeout: int): Fields {
    Fields(Closed, 0, 0, 0, threshold, timeout, 1)
  }

  /** Whether an admission request made at instant `at` is let through. */
  predicate Admits(f: Fields, at: int) {
    f.state.Open? ==> at - f.openedAt >= f.timeout
  }

  function Step(f: Fields, e: Event): Fields {
    match e
    case Allow(at) =>
      if f.state.Open? && Admits(f, at) then f.(state := HalfOpen, successes := 0) else f
    case Success(_) =>
      if f.state.HalfOpen? then
        f.(failures := 0, successes := f.successes + 1,
           state := if f.successes + 1 >= f.halfOpenMax then Closed else HalfOpen)
      else f.(failures := 0)
    case Failure(at) =>
      if f.state.HalfOpen? || f.failures + 1 >= f.threshold
      then f.(failures := f.failures + 1, state := Open, openedAt := at)
      else f.(failures := f.failures + 1)
  }

  function Run(f: Fields, es: seq<Event>): Fields {
    if es == [] then f else Step(Run(f, es[..|es| - 1]), es[|es| - 1])
  }

  /** The breaker object. */
  class CircuitBreaker {
    var state: State
    var failures: int
    var successes: int
    var openedAt: int
    const threshold: int
    const timeout: int
    const halfOpenMax: int

    function View(): Fields
      reads this
    {
      Fields(state, failures, successes, openedAt, threshold, timeout, halfOpenMax)
    }

    constructor (threshold: int, timeout: int)
      ensures View() == Initial(threshold, timeout)
    {
      this.threshold, this.timeout, this.halfOpenMax := threshold, timeout, 1;
      state, failures, successes, openedAt := Closed, 0, 0, 0;
    }

    method Allow(now: int) returns (admitted: bool)
      modifies this
      ensures admitted == Admits(old(View()), now)
      ensures View() == Step(old(View()), Event.Allow(now))
    {
      match state
      case Closed => return true;
      case Open =>
        if now - openedAt >= timeout {
          state := HalfOpen;
          successes := 0;
          return true;
        }
        return false;
      case HalfOpen => return true;
    }

    method Success(ghost now: int)
      modifies this
      ensures View() == Step(old(View()), Event.Success(now))
    {
      failures := 0;
      if state == HalfOpen {
        successes := successes + 1;
        if successes >= halfOpenMax {
          state := Closed;
        }
      }
    }

    method Failure(now: int)
      modifies this
      ensures View() == Step(old(View()), Event.Failure(now))
    {
      failures := failures + 1;
      if state == HalfOpen {
        state := Open;
        openedAt := now;
        return;
      }
      if failures >= threshold {
        state := Open;
        openedAt := now;
      }
    }
  }

  // ---------------------------------------------------------------- histories

  /** Failure reports since the latest success report. */
  function FailuresSinceSuccess(es: seq<Event>): nat {
    if es == [] then 0 else
      var before := es[..|es| - 1];
      match es[|es| - 1]
      case Success(_) => 0
      case Failure(_) => FailuresSinceSuccess(before) + 1
      case Allow(_) => FailuresSinceSuccess(before)
  }

  lemma {:induction false} RunKeepsConfiguration(f: Fields, es: seq<Event>)
    ensures var r := Run(f, es);
      r.threshold == f.threshold && r.timeout == f.timeout && r.halfOpenMax == f.halfOpenMax
  {
    if es != [] { RunKeepsConfiguration(f, es[..|es| - 1]); }
  }

  /** What every history of a fresh breaker establishes, late reports included:
      the failure count is a function of the history, a closed breaker is below its
      threshold and a half-open one has counted no success yet. */
  lemma {:induction false} FieldsFollowHistory(threshold: int, timeout: int, es: seq<Event>)
    ensures var r := Run(Initial(threshold, timeout), es);
      && r.failures == FailuresSinceSuccess(es)
      && (r.state.Closed? ==> r.failures < Max(threshold, 1))
      && (r.state.HalfOpen? ==> r.successes == 0)
  {
    if es != [] {
      FieldsFollowHistory(threshold, timeout, es[..|es| - 1]);
      RunKeepsConfiguration(Initial(threshold, timeout), es[..|es| - 1]);
    }
  }

  ghost predicate Monotone(from: int, es: seq<Event>) {
    && (forall k :: 0 <= k < |es| ==> from <= es[k].at)
    && (forall j, k :: 0 <= j < k < |es| ==> es[j].at <= es[k].at)
  }

  lemma {:induction false} StaysOpen(f: Fields, es: seq<Event>)
    requires f.state.Open? && Monotone(f.openedAt, es)
    requires forall k :: 0 <= k < |es| ==> es[k].at < f.openedAt + f.timeout
    ensures Run(f, es).state.Open? && Run(f, es).openedAt >= f.openedAt
  {
    if es != [] {
      StaysOpen(f, es[..|es| - 1]);
      RunKeepsConfiguration(f, es[..|es| - 1]);
    }
  }

  /** Once open at instant s, the breaker stays open and refuses every admission
      before s + timeout, whatever late reports arrive meanwhile. */
  lemma NoAdmissionBeforeTimeout(f: Fields, es: seq<Event>)
    requires f.state.Open? && Monotone(f.openedAt, es)
    requires forall k :: 0 <= k < |es| ==> es[k].at < f.openedAt + f.timeout
    ensures Run(f, es).state.Open?
    ensures forall k :: 0 <= k < |es| ==> !Admits(Run(f, es[..k]), es[k].at)
  {
    StaysOpen(f, es);
    forall k | 0 <= k < |es| ensures !Admits(Run(f, es[..k]), es[k].at) {
      StaysOpen(f, es[..k]);
      RunKeepsConfiguration(f, es[..k]);
    }
  }

  /** Number of open-to-half-open transitions. */
  function Probes(f: Fields, es: seq<Event>): nat {
    if es == [] then 0 else
      var before := es[..|es| - 1];
      Probes(f, before) + if IsProbe(Run(f, before), es[|es| - 1]) then 1 else 0
  }

  predicate IsProbe(f: Fields, e: Event) {
    e.Allow? && f.state.Open? && Admits(f, e.at)
  }

  /** Instant of the latest open-to-half-open transition. */
  ghost function LastProbe(f: Fields, es: seq<Event>): int
    requires Probes(f, es) > 0
  {
    if IsProbe(Run(f, es[..|es| - 1]), es[|es| - 1]) then es[|es| - 1].at
    else LastProbe(f, es[..|es| - 1])
  }

  lemma {:induction false} ProbesAreSpaced(f: Fields, es: seq<Event>, start: int)
    requires Monotone(start, es) && Probes(f, es) > 0
    ensures (Probes(f, es) - 1) * f.timeout <= LastProbe(f, es) - start
    ensures LastProbe(f, es) <= es[|es| - 1].at
    ensures Run(f, es).state.Open? ==> Run(f, es).openedAt >= LastProbe(f, es)
  {
    var before := es[..|es| - 1];
    RunKeepsConfiguration(f, before);
    if Probes(f, before) > 0 {
      ProbesAreSpaced(f, before, start);
      NextMultiple(Probes(f, before) - 1, f.timeout);
    }
  }

  /** In any span of time the breaker goes half-open at most once more than the
      number of whole timeouts that fit in the span. */
  lemma ProbeRate(f: Fields, es: seq<Event>)
    requires es != [] && Monotone(es[0].at, es) && f.timeout > 0
    ensures Probes(f, es) <= 1 + (es[|es| - 1].at - es[0].at) / f.timeout
  {
    var probes, span := Probes(f, es), es[|es| - 1].at - es[0].at;
    assert probes <= 1 + span / f.timeout by {
      if probes > 0 {
        assert (probes - 1) * f.timeout <= span by { ProbesAreSpaced(f, es, es[0].at); }
        MultipleFits(probes - 1, f.timeout, span);
      } else {
        MultipleFits(0, f.timeout, span);
      }
    }
  }

  /** Some prefix of the history holds enough failures in a row to trip the breaker. */
  ghost predicate Tripped(threshold: int, es: seq<Event>) {
    exists k :: 0 <= k <= |es| && FailuresSinceSuccess(es[..k]) >= Max(threshold, 1)
  }

  /** Until the first probe, a fresh breaker is open exactly when some prefix of its
      history ended in `threshold` failures without a success between them. */
  lemma {:induction false} OpensExactlyWhenTripped(threshold: int, timeout: int, es: seq<Event>)
    requires Probes(Initial(threshold, timeout), es) == 0
    ensures var r := Run(Initial(threshold, timeout), es);
      !r.state.HalfOpen? && (r.state.Open? <==> Tripped(threshold, es))
  {
    var init := Initial(threshold, timeout);
    assert es[..|es|] == es;
    if es != [] {
      var before := es[..|es| - 1];
      OpensExactlyWhenTripped(threshold, timeout, before);
      FieldsFollowHistory(threshold, timeout, before);
      FieldsFollowHistory(threshold, timeout, es);
      RunKeepsConfiguration(init, before);
      assert forall k :: 0 <= k <= |before| ==> before[..k] == es[..k];
      if Tripped(threshold, es) && !Tripped(threshold, before) {
        assert FailuresSinceSuccess(es) >= Max(threshold, 1);
      }
      if Tripped(threshold, before) {
        var k :| 0 <= k <= |before| && FailuresSinceSuccess(before[..k]) >= Max(threshold, 1);
        assert FailuresSinceSuccess(es[..k]) >= Max(threshold, 1);
      }
    }
  }

  /** A half-open breaker lets every admission request through (halfOpenMax bounds
      successes, not probes) until the first report, which alone decides: a success
      closes the breaker with no failure on record, a failure reopens it at once. */
  lemma {:induction false} FirstReportDecides(f: Fields, waiting: seq<Event>, report: Event)
    requires f.state.HalfOpen? && f.successes == 0 && f.halfOpenMax == 1
    requires forall k :: 0 <= k < |waiting| ==> waiting[k].Allow?
    requires !report.Allow?
    ensures forall k :: 0 <= k < |waiting| ==> Admits(Run(f, waiting[..k]), waiting[k].at)
    ensures Run(f, waiting + [report]) ==
      if report.Success? then f.(state := Closed, failures := 0, successes := 1)
      else f.(state := Open, failures := f.failures + 1, openedAt := report.at)
  {
    assert Run(f, waiting + [report]) == Step(f, report) by {
      AdmissionsKeepHalfOpen(f, waiting);
      assert (waiting + [report])[..|waiting|] == waiting;
    }
    forall k | 0 <= k < |waiting| ensures Admits(Run(f, waiting[..k]), waiting[k].at) {
      AdmissionsKeepHalfOpen(f, waiting[..k]);
    }
  }

  lemma {:induction false} AdmissionsKeepHalfOpen(f: Fields, waiting: seq<Event>)
    requires f.state.HalfOpen?
    requires forall k :: 0 <= k < |waiting| ==> waiting[k].Allow?
    ensures Run(f, waiting) == f
  {
    if waiting != [] { AdmissionsKeepHalfOpen(f, waiting[..|waiting| - 1]); }
  }

  // ------------------------------------------------------ the state from the history

  /** Report k is a failure that opens the breaker, or opens it anew: it meets a half-open
      breaker, or is the last of `threshold` failures without a success between them. */
  predicate Trips(threshold: int, timeout: int, es: seq<Event>, k: nat)
    requires k < |es|
  {
    && es[k].Failure?
    && (Run(Initial(threshold, timeout), es[..k]).state.HalfOpen? || FailuresSinceSuccess(es[..k + 1]) >= threshold)
  }

  /** The latest such report. */
  function LastTrip(threshold: int, timeout: int, es: seq<Event>): (k: Option<nat>)
    ensures k.Some? ==> k.value < |es|
  {
    if es == [] then None
    else if Trips(threshold, timeout, es, |es| - 1) then Some(|es| - 1)
    else LastTrip(threshold, timeout, es[..|es| - 1])
  }

  /** Request j comes after report k, and a whole timeout later. */
  predicate Late(timeout: int, es: seq<Event>, k: nat, j: nat)
    requires k < |es|
  {
    k < j < |es| && es[j].Allow? && es[j].at >= es[k].at + timeout
  }

  /** Only requests come after j. */
  predicate NoReportAfter(es: seq<Event>, j: nat) { forall i :: j < i < |es| ==> es[i].Allow? }

  ghost predicate Probed(timeout: int, es: seq<Event>, k: nat)
    requires k < |es|
  {
    exists j: nat :: Late(timeout, es, k, j)
  }

  ghost predicate ProbeUndecided(timeout: int, es: seq<Event>, k: nat)
    requires k < |es|
  {
    Probed(timeout, es, k) && forall j: nat :: Late(timeout, es, k, j) ==> NoReportAfter(es, j)
  }

  /** What one more event changes of the two, with report k given. */
  lemma {:induction false} ProbedOneMore(timeout: int, es: seq<Event>, k: nat)
    requires k < |es| - 1
    ensures var before, e := es[..|es| - 1], es[|es| - 1];
      var late := e.Allow? && e.at >= es[k].at + timeout;
      && (Probed(timeout, es, k) <==> Probed(timeout, before, k) || late)
      && (ProbeUndecided(timeout, es, k) <==>
            if Probed(timeout, before, k) then e.Allow? && ProbeUndecided(timeout, before, k) else late)
  {
    var n := |es| - 1;
    var before, e := es[..n], es[n];
    var late := e.Allow? && e.at >= es[k].at + timeout;
    assert Late(timeout, es, k, n) <==> late;
    if Probed(timeout, before, k) {
      var j: nat :| Late(timeout, before, k, j);
      assert Late(timeout, es, k, j);
    }
    if Probed(timeout, es, k) && !late {
      var j: nat :| Late(timeout, es, k, j);
      assert j < n && Late(timeout, before, k, j);
    }
    forall j: nat | j < n
      ensures Late(timeout, es, k, j) <==> Late(timeout, before, k, j)
      ensures NoReportAfter(es, j) <==> NoReportAfter(before, j) && e.Allow?
    {
      if NoReportAfter(es, j) { assert forall i :: j < i < n ==> es[i].Allow? && before[i] == es[i]; }
    }
    assert NoReportAfter(es, n);
  }

  /** The state of a breaker, read off its history. */
  ghost predicate StateIs(threshold: int, timeout: int, es: seq<Event>, f: Fields) {
    match LastTrip(threshold, timeout, es)
    case None => f.state.Closed?
    case Some(k) =>
      && (f.state.Open? <==> !Probed(timeout, es, k))
      && (f.state.HalfOpen? <==> ProbeUndecided(timeout, es, k))
      && (f.state.Open? ==> f.openedAt == es[k].at)
  }

  lemma {:induction false} RunOneMore(f: Fields, es: seq<Event>)
    requires es != []
    ensures Run(f, es) == Step(Run(f, es[..|es| - 1]), es[|es| - 1])
  {
  }

  lemma {:induction false} TripOneMore(threshold: int, timeout: int, es: seq<Event>)
    requires es != []
    ensures LastTrip(threshold, timeout, es) ==
      if Trips(threshold, timeout, es, |es| - 1) then Some(|es| - 1)
      else LastTrip(threshold, timeout, es[..|es| - 1])
  {
  }

  /** Over every history of a fresh breaker: it is open exactly when no request came a whole
      timeout after the latest failure that tripped it, since then; half-open exactly when
      one did and no report followed; and closed otherwise. */
  lemma {:induction false} StateFollowsHistory(threshold: int, timeout: int, es: seq<Event>)
    ensures StateIs(threshold, timeout, es, Run(Initial(threshold, timeout), es))
  {
    if es != [] {
      var n := |es| - 1;
      var init, before := Initial(threshold, timeout), es[..n];
      var f := Run(init, before);
      StateFollowsHistory(threshold, timeout, before);
      FieldsFollowHistory(threshold, timeout, before);
      RunKeepsConfiguration(init, before);
      RunOneMore(init, es);
      TripOneMore(threshold, timeout, es);
      assert es[..n + 1] == es;
      if Trips(threshold, timeout, es, n) {
        assert !Probed(timeout, es, n);
      } else if LastTrip(threshold, timeout, before).Some? {
        ProbedOneMore(timeout, es, LastTrip(threshold, timeout, before).value);
      }
    }
  }

  /** Hence when a request is let through at `at`: always, but for an open breaker whose
      latest tripping failure is less than the timeout ago. */
  lemma {:induction false} AdmitsExactly(threshold: int, timeout: int, es: seq<Event>, at: int)
    ensures var k := LastTrip(threshold, timeout, es);
      Admits(Run(Initial(threshold, timeout), es), at) <==>
        k.None? || Probed(timeout, es, k.value) || at >= es[k.value].at + timeout
  {
    StateFollowsHistory(threshold, timeout, es);
    RunKeepsConfiguration(Initial(threshold, timeout), es);
  }
}
