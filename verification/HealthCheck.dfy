/** The health checker's watch loop: a debouncer over one endpoint's probe results. */
module HealthCheck {
  import opened Common
  import opened RoundRobin

  datatype Thresholds = Thresholds(fail: int, success: int)

  /** The loop's two counters and the flag it writes. */
  datatype Debounce = Debounce(failures: int, successes: int, healthy: bool)

  /** One probe; `ok` is its result. */
  function Tick(cfg: Thresholds, d: Debounce, ok: bool): Debounce {
    if !ok then
      if d.failures + 1 >= cfg.fail && d.healthy then Debounce(0, 0, false)
      else Debounce(d.failures + 1, 0, d.healthy)
    else if d.healthy then Debounce(0, 0, true)
    else if d.successes + 1 >= cfg.success then Debounce(0, 0, true)
    else Debounce(0, d.successes + 1, false)
  }

  /** After `probes`, from an endpoint whose flag was `start`. */
  function Watched(cfg: Thresholds, start: bool, probes: seq<bool>): Debounce {
    if probes == [] then Debounce(0, 0, start)
    else Tick(cfg, Watched(cfg, start, probes[..|probes| - 1]), probes[|probes| - 1])
  }

  /** The watch loop until its context is cancelled after `probes`. */
  method Watch(cfg: Thresholds, ep: Endpoint, probes: seq<bool>)
    modifies ep
    ensures ep.healthy == Watched(cfg, old(ep.healthy), probes).healthy
  {
    var failures, successes := 0, 0;
    for k := 0 to |probes|
      invariant Debounce(failures, successes, ep.healthy) == Watched(cfg, old(ep.healthy), probes[..k])
    {
      assert probes[..k + 1][..k] == probes[..k];
      if !probes[k] {
        successes := 0;
        failures := failures + 1;
        if failures >= cfg.fail {
          if ep.healthy {
            ep.healthy := false;
            failures := 0;
          }
        }
      } else {
        failures := 0;
        successes := successes + 1;
        if !ep.healthy {
          if successes >= cfg.success {
            ep.healthy := true;
            successes := 0;
          }
        } else {
          successes := 0;
        }
      }
    }
    assert probes[..|probes|] == probes;
  }

  // ------------------------------------------------- the flag without the counters

  /** The last n probes exist and all had this result. */
  ghost predicate LastAll(probes: seq<bool>, n: nat, result: bool) {
    n <= |probes| && forall k :: |probes| - n <= k < |probes| ==> probes[k] == result
  }

  /** What the flag should be: down once the last `fail` probes all failed, up again
      once the last `success` probes all succeeded, else as before. A threshold below
      one counts as one. */
  ghost predicate ShouldBeHealthy(cfg: Thresholds, start: bool, probes: seq<bool>) {
    if probes == [] then start
    else if ShouldBeHealthy(cfg, start, probes[..|probes| - 1]) then !LastAll(probes, Max(cfg.fail, 1), false)
    else LastAll(probes, Max(cfg.success, 1), true)
  }

  /** Length of the run of equal results at the end. */
  function Trailing(probes: seq<bool>, result: bool): nat {
    if probes == [] || probes[|probes| - 1] != result then 0
    else 1 + Trailing(probes[..|probes| - 1], result)
  }

  lemma {:induction false} TrailingIsLastAll(probes: seq<bool>, n: nat, result: bool)
    ensures LastAll(probes, n, result) <==> Trailing(probes, result) >= n
    ensures Trailing(probes, result) <= |probes|
  {
    if n > 0 && probes != [] {
      var front := probes[..|probes| - 1];
      TrailingIsLastAll(front, n - 1, result);
      if probes[|probes| - 1] == result && LastAll(front, n - 1, result) {
        assert forall k :: |probes| - n <= k < |probes| - 1 ==> probes[k] == front[k];
      }
      if LastAll(probes, n, result) {
        assert forall k :: |front| - (n - 1) <= k < |front| ==> front[k] == probes[k];
      }
    } else if probes != [] {
      TrailingIsLastAll(probes[..|probes| - 1], 0, result);
    }
  }

  ghost predicate CountersAreRuns(cfg: Thresholds, start: bool, probes: seq<bool>) {
    var d := Watched(cfg, start, probes);
    && d.healthy == ShouldBeHealthy(cfg, start, probes)
    && (d.healthy ==> d.failures == Trailing(probes, false) < Max(cfg.fail, 1) && d.successes == 0)
    && (!d.healthy ==> d.successes == Trailing(probes, true) < Max(cfg.success, 1))
  }

  /** The flag is the one the history calls for, and the counter in use is the length
      of the current run of failures or successes. */
  lemma {:induction false} FlagFollowsHistory(cfg: Thresholds, start: bool, probes: seq<bool>)
    ensures CountersAreRuns(cfg, start, probes)
  {
    if probes != [] {
      FlagFollowsHistory(cfg, start, probes[..|probes| - 1]);
      TrailingIsLastAll(probes, Max(cfg.fail, 1), false);
      TrailingIsLastAll(probes, Max(cfg.success, 1), true);
    }
  }

  // ------------------------------------------------------------------ flapping rate

  datatype Flips = Flips(downs: nat, ups: nat)

  function AddFlip(f: Flips, was: bool, now: bool): Flips {
    if was && !now then f.(downs := f.downs + 1)
    else if !was && now then f.(ups := f.ups + 1)
    else f
  }

  /** Health transitions along the history. */
  function CountFlips(cfg: Thresholds, start: bool, probes: seq<bool>): Flips {
    if probes == [] then Flips(0, 0) else
      var before := probes[..|probes| - 1];
      AddFlip(CountFlips(cfg, start, before), Watched(cfg, start, before).healthy, Watched(cfg, start, probes).healthy)
  }

  /** n probes pay for the flips so far and for the counter in use. */
  ghost predicate Paid(cfg: Thresholds, start: bool, f: Flips, d: Debounce, n: nat) {
    && Max(cfg.fail, 1) * f.downs + Max(cfg.success, 1) * f.ups + (if d.healthy then d.failures else d.successes) <= n
    && f.downs + (if d.healthy then 1 else 0) == f.ups + (if start then 1 else 0)
  }

  lemma OneProbePays(cfg: Thresholds, start: bool, f: Flips, d: Debounce, n: nat, ok: bool)
    requires Paid(cfg, start, f, d, n)
    requires if d.healthy then 0 <= d.failures < Max(cfg.fail, 1) else 0 <= d.successes < Max(cfg.success, 1)
    ensures Paid(cfg, start, AddFlip(f, d.healthy, Tick(cfg, d, ok).healthy), Tick(cfg, d, ok), n + 1)
  {
    NextMultiple(f.downs, Max(cfg.fail, 1));
    NextMultiple(f.ups, Max(cfg.success, 1));
  }

  lemma {:induction false} FlipsArePaidFor(cfg: Thresholds, start: bool, probes: seq<bool>)
    ensures Paid(cfg, start, CountFlips(cfg, start, probes), Watched(cfg, start, probes), |probes|)
  {
    if probes != [] {
      var before := probes[..|probes| - 1];
      FlipsArePaidFor(cfg, start, before);
      FlagFollowsHistory(cfg, start, before);
      OneProbePays(cfg, start, CountFlips(cfg, start, before), Watched(cfg, start, before),
        |before|, probes[|probes| - 1]);
    }
  }

  /** Each flip down costs `fail` probes of its own and each flip up `success`; the
      two kinds alternate. */
  lemma FlapBound(cfg: Thresholds, start: bool, probes: seq<bool>)
    requires cfg.fail >= 1 && cfg.success >= 1
    ensures var f := CountFlips(cfg, start, probes);
      && cfg.fail * f.downs + cfg.success * f.ups <= |probes|
      && -1 <= f.downs - f.ups <= 1
      && (start ==> f.downs >= f.ups) && (!start ==> f.ups >= f.downs)
  {
    FlipsArePaidFor(cfg, start, probes);
    FlagFollowsHistory(cfg, start, probes);
  }
}
