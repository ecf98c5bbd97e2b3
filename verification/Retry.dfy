/** The retry loop with exponential backoff, in the 64-bit two's complement
    arithmetic of the program's durations. */
module Retry {
  import opened Common

  datatype RetryConfig = RetryConfig(maxAttempts: int, baseDelay: int, maxDelay: int)

  const MILLISECOND := 1_000_000
  const TWO_63 := 0x8000_0000_0000_0000

  function DefaultRetryConfig(): RetryConfig {
    RetryConfig(3, 100 * MILLISECOND, 2 * SECOND)
  }

  function Pow2(n: nat): nat { if n == 0 then 1 else 2 * Pow2(n - 1) }

  /** The signed 64-bit value that arithmetic with exact result `x` leaves behind. */
  function Wrap64(x: int): int { (x + TWO_63) % TWO_64 - TWO_63 }

  /** The pause after failed attempt number `attempt`. */
  function Delay(cfg: RetryConfig, attempt: nat): int {
    var delay := Wrap64(cfg.baseDelay * Wrap64(Pow2(attempt)));
    if delay > cfg.maxDelay then cfg.maxDelay else delay
  }

  /** `outcomes` lists the results of the calls that a loop allowed `maxAttempts`
      calls makes when it stops at its first success, and `ok` is its verdict. */
  ghost predicate IsRetryRun(maxAttempts: int, outcomes: seq<bool>, ok: bool) {
    && |outcomes| <= Max(maxAttempts, 0)
    && (forall k :: 0 <= k < |outcomes| - 1 ==> !outcomes[k])
    && (ok <==> outcomes != [] && outcomes[|outcomes| - 1])
    && (!ok ==> |outcomes| == Max(maxAttempts, 0))
  }

  function Outcomes(fn: nat -> bool, n: nat): (s: seq<bool>)
    ensures |s| == n && forall k :: 0 <= k < n ==> s[k] == fn(k)
  {
    seq(n, k requires 0 <= k < n => fn(k))
  }

  /** `fn(k)` tells whether the k-th call would succeed. */
  method WithRetry(cfg: RetryConfig, fn: nat -> bool) returns (ok: bool, calls: nat, sleeps: seq<int>)
    ensures IsRetryRun(cfg.maxAttempts, Outcomes(fn, calls), ok)
    ensures ok <==> exists k: nat :: k < cfg.maxAttempts && fn(k)
    ensures ok ==> 0 < calls && fn(calls - 1) && forall k: nat :: k < calls - 1 ==> !fn(k)
    ensures !ok ==> calls == Max(cfg.maxAttempts, 0)
    ensures |sleeps| == if ok then calls - 1 else Max(cfg.maxAttempts - 1, 0)
    ensures forall a :: 0 <= a < |sleeps| ==> sleeps[a] == Delay(cfg, a)
  {
    calls, sleeps := 0, [];
    var attempt := 0;
    while attempt < cfg.maxAttempts
      invariant 0 <= attempt <= Max(cfg.maxAttempts, 0)
      invariant calls == attempt
      invariant forall k: nat :: k < attempt ==> !fn(k)
      invariant |sleeps| == if attempt < cfg.maxAttempts then attempt else Max(cfg.maxAttempts - 1, 0)
      invariant forall a :: 0 <= a < |sleeps| ==> sleeps[a] == Delay(cfg, a)
    {
      calls := calls + 1;
      if fn(attempt) {
        return true, calls, sleeps;
      }
      if attempt < cfg.maxAttempts - 1 {
        var delay := Wrap64(cfg.baseDelay * Wrap64(Pow2(attempt)));
        if delay > cfg.maxDelay {
          delay := cfg.maxDelay;
        }
        sleeps := sleeps + [delay];
      }
      attempt := attempt + 1;
    }
    ok := false;
  }

  /** The pause the backoff is meant to make: base * 2^a, capped. */
  function IdealDelay(cfg: RetryConfig, attempt: nat): int {
    Min(cfg.baseDelay * Pow2(attempt), cfg.maxDelay)
  }

  lemma Pow2Monotone(m: nat, n: nat)
    requires m <= n
    ensures 1 <= Pow2(m) <= Pow2(n)
    decreases n
  {
    if m < n { Pow2Monotone(m, n - 1); } else if m > 0 { Pow2Monotone(m - 1, n - 1); }
  }

  lemma Pow2At36()
    ensures Pow2(36) == 68_719_476_736
  {
    assert Pow2(12) == 4096;
    assert Pow2(24) == 16_777_216;
  }

  /** With the defaults every pause is the ideal one for any retry count up to 37. */
  lemma DelayIsIdeal(cfg: RetryConfig, attempt: nat)
    requires cfg.baseDelay == DefaultRetryConfig().baseDelay
    requires attempt <= 36
    ensures Delay(cfg, attempt) == IdealDelay(cfg, attempt)
  {
    Pow2Monotone(attempt, 36);
    Pow2At36();
  }

  /** The configuration a route's retry count selects; the sum is taken in 64 bits. */
  function RetryConfigFor(retryCount: int): RetryConfig {
    if retryCount > 0 then DefaultRetryConfig().(maxAttempts := Wrap64(retryCount + 1))
    else DefaultRetryConfig()
  }

  /** Every pause of a request that never succeeds is the ideal one. */
  ghost predicate PausesAreIdeal(cfg: RetryConfig) {
    forall a: nat :: a < cfg.maxAttempts - 1 ==> Delay(cfg, a) == IdealDelay(cfg, a)
  }

  /** No such pause is shorter than the one before it. */
  ghost predicate PausesNeverShrink(cfg: RetryConfig) {
    forall a: nat :: 0 < a < cfg.maxAttempts - 1 ==> Delay(cfg, a - 1) <= Delay(cfg, a)
  }

  lemma AttemptsFor(retryCount: int)
    requires retryCount < TWO_63
    ensures var n := RetryConfigFor(retryCount).maxAttempts;
      n == if retryCount <= 0 then 3 else if retryCount == TWO_63 - 1 then -TWO_63 else retryCount + 1
  {
  }

  lemma NextDelay(cfg: RetryConfig, a: nat)
    requires cfg.baseDelay == DefaultRetryConfig().baseDelay
    requires 0 < a <= 36
    ensures Delay(cfg, a - 1) <= Delay(cfg, a)
  {
    assert IdealDelay(cfg, a - 1) <= IdealDelay(cfg, a) by { Pow2Monotone(a - 1, a); }
    DelayIsIdeal(cfg, a - 1);
    DelayIsIdeal(cfg, a);
  }

  /** The pauses of a request that never succeeds are all the ideal ones exactly
      up to a retry count of 37, and up to the same count they never shrink: at 38
      the product overflows and the longest backoff disappears. (The largest 64-bit
      retry count wraps to no attempt at all, hence to no pause.) */
  lemma BackoffIsExactUpTo37(retryCount: int)
    requires retryCount < TWO_63
    ensures PausesAreIdeal(RetryConfigFor(retryCount)) <==> retryCount <= 37 || retryCount == TWO_63 - 1
    ensures PausesNeverShrink(RetryConfigFor(retryCount)) <==> retryCount <= 37 || retryCount == TWO_63 - 1
  {
    var cfg := RetryConfigFor(retryCount);
    AttemptsFor(retryCount);
    if retryCount <= 37 || retryCount == TWO_63 - 1 {
      forall a: nat | a < cfg.maxAttempts - 1 ensures Delay(cfg, a) == IdealDelay(cfg, a) {
        DelayIsIdeal(cfg, a);
      }
      forall a: nat | 0 < a < cfg.maxAttempts - 1 ensures Delay(cfg, a - 1) <= Delay(cfg, a) {
        NextDelay(cfg, a);
      }
    } else {
      OverflowAt37(cfg);
      assert Delay(cfg, 37) != IdealDelay(cfg, 37);
      assert !(Delay(cfg, 37 - 1) <= Delay(cfg, 37));
    }
  }

  /** Attempt 37 is the first whose exact product does not fit in 64 bits. */
  lemma OverflowAt37(cfg: RetryConfig)
    requires cfg.baseDelay == DefaultRetryConfig().baseDelay && cfg.maxDelay == DefaultRetryConfig().maxDelay
    ensures Delay(cfg, 37) < 0 < IdealDelay(cfg, 37)
    ensures Delay(cfg, 36) == cfg.maxDelay
  {
    Pow2At36();
    DelayIsIdeal(cfg, 36);
    assert Pow2(37) == 137_438_953_472;
  }

  /** With the defaults: three calls, or one more than the retry count; pauses of 100, 200,
      400, 800 and 1600 milliseconds, and of two seconds from then on. */
  lemma {:induction false} DefaultPauses(retryCount: int, attempt: nat)
    requires retryCount < TWO_63 - 1 && attempt <= 36
    ensures var cfg := RetryConfigFor(retryCount);
      && cfg.maxAttempts == (if retryCount <= 0 then 3 else retryCount + 1)
      && Delay(cfg, attempt) == if attempt == 0 then 100_000_000 else if attempt == 1 then 200_000_000
           else if attempt == 2 then 400_000_000 else if attempt == 3 then 800_000_000
           else if attempt == 4 then 1_600_000_000 else 2_000_000_000
  {
    AttemptsFor(retryCount);
    DelayIsIdeal(RetryConfigFor(retryCount), attempt);
    assert Pow2(1) == 2 && Pow2(2) == 4 && Pow2(3) == 8 && Pow2(4) == 16 && Pow2(5) == 32;
    if attempt >= 5 { Pow2Monotone(5, attempt); }
  }

  function Sum(s: seq<int>): int {
    if s == [] then 0 else Sum(s[..|s| - 1]) + s[|s| - 1]
  }

  function IdealSleep(cfg: RetryConfig, pauses: nat): int {
    if pauses == 0 then 0 else IdealSleep(cfg, pauses - 1) + IdealDelay(cfg, pauses - 1)
  }

  lemma {:induction false} SumOfIdeal(cfg: RetryConfig, sleeps: seq<int>)
    requires forall a :: 0 <= a < |sleeps| ==> sleeps[a] == IdealDelay(cfg, a)
    ensures Sum(sleeps) == IdealSleep(cfg, |sleeps|)
  {
    if sleeps != [] { SumOfIdeal(cfg, sleeps[..|sleeps| - 1]); }
  }

  /** Total pause over a run of `calls` calls, from the pauses `WithRetry` reports. */
  lemma {:induction false} TotalSleep(retryCount: int, sleeps: seq<int>)
    requires retryCount <= 37 && |sleeps| <= RetryConfigFor(retryCount).maxAttempts - 1
    requires forall a :: 0 <= a < |sleeps| ==> sleeps[a] == Delay(RetryConfigFor(retryCount), a)
    ensures Sum(sleeps) == IdealSleep(RetryConfigFor(retryCount), |sleeps|)
  {
    var cfg := RetryConfigFor(retryCount);
    forall a | 0 <= a < |sleeps| ensures sleeps[a] == IdealDelay(cfg, a) {
      DelayIsIdeal(cfg, a);
    }
    SumOfIdeal(cfg, sleeps);
  }
}
