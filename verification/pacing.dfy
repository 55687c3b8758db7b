/** Rate splitting, tick intervals and the rates of a throughput sweep. */
module Pacing {
  import opened Metrics

  // Go's integer division by a positive number truncates toward zero.
  function GoDiv(a: int, b: int): int
    requires b > 0
  {
    if a >= 0 then a / b else -(-a / b)
  }

  function Max(a: int, b: int): int {
    if a > b then a else b
  }

  function PerWorker(pps: int, workers: int): (ppw: int)
    requires workers > 0
    ensures ppw >= 1
  {
    Max(1, GoDiv(pps, workers))
  }

  // The ticker interval in nanoseconds.
  function Interval(ppw: int): (i: int)
    requires ppw >= 1
    ensures i >= 1
  {
    var i := SECOND / ppw;
    if i <= 0 then 1000 else i
  }

  lemma DivBounds(a: int, b: int)
    requires b > 0
    ensures b * (a / b) <= a < b * (a / b) + b
  {
  }

  lemma QuotientAtMost(a: int, b: int, q: int)
    requires b > 0
    ensures a / b >= q <==> a >= b * q
  {
    DivBounds(a, b);
    if a / b >= q {
      assert b * (a / b) >= b * q;
    } else {
      assert b * (a / b + 1) <= b * q;
    }
  }

  // The workers' integer rates add up to at most the target exactly when there are no more workers than
  // packets per second, and then fall short of it by less than one packet per worker; otherwise every worker
  // has a rate of one.
  lemma RateSplit(pps: int, workers: int)
    requires workers > 0
    ensures var total := workers * PerWorker(pps, workers);
      (total <= pps <==> pps >= workers) && (pps >= workers ==> pps < total + workers)
      && (pps < workers ==> total == workers)
  {
    if pps >= workers {
      DivBounds(pps, workers);
      QuotientAtMost(pps, workers, 1);
    } else {
      assert workers * PerWorker(pps, workers) >= workers by {
        assert PerWorker(pps, workers) >= 1;
      }
    }
  }

  lemma IntervalBounds(ppw: int)
    requires ppw >= 1
    ensures ppw <= SECOND ==> Interval(ppw) * ppw <= SECOND < (Interval(ppw) + 1) * ppw
    ensures ppw > SECOND ==> Interval(ppw) == 1000
  {
    DivBounds(SECOND, ppw);
    QuotientAtMost(SECOND, ppw, 1);
  }

  // Ticks of an ideal ticker in t nanoseconds.
  function Ticks(t: nat, interval: int): int
    requires interval > 0
  {
    t / interval
  }

  lemma ScaleUp(a: int, b: int, k: int)
    requires a <= b && k >= 0
    ensures a * k <= b * k
  {
  }

  lemma CancelFactor(a: int, b: int, k: int)
    requires k > 0 && a * k <= b * k
    ensures a <= b
  {
    assert (b + 1) * k == b * k + k;
    if a > b {
      ScaleUp(b + 1, a, k);
      assert false;
    }
  }

  lemma Regroup(a: int, b: int, c: int)
    ensures (a * b) * c == (a * c) * b
  {
  }

  // An ideal ticker keeps the per-worker rate ...
  lemma TicksAtLeast(t: nat, ppw: int)
    requires 1 <= ppw <= SECOND
    ensures t * ppw / SECOND <= Ticks(t, Interval(ppw))
  {
    var i, low := Interval(ppw), t * ppw / SECOND;
    IntervalBounds(ppw);
    DivBounds(t * ppw, SECOND);
    ScaleUp(i * ppw, SECOND, low);
    Regroup(i, ppw, low);
    CancelFactor(i * low, t, ppw);
    QuotientAtMost(t, i, low);
  }

  // ... and exceeds it only through the rounding of the interval.
  lemma TicksAtMost(t: nat, ppw: int)
    requires 1 <= ppw < SECOND
    ensures Ticks(t, Interval(ppw)) <= t * ppw / (SECOND - ppw)
  {
    var i := Interval(ppw);
    var n := Ticks(t, i);
    IntervalBounds(ppw);
    assert (i + 1) * ppw == i * ppw + ppw;
    DivBounds(t, i);
    ScaleUp(0, n, 1);
    ScaleUp(SECOND - ppw, i * ppw, n);
    Regroup(i, ppw, n);
    ScaleUp(i * n, t, ppw);
    QuotientAtMost(t * ppw, SECOND - ppw, n);
  }

  lemma DivMod(a: int, b: int)
    requires b > 0
    ensures a == b * (a / b) + a % b
  {
  }

  lemma Distribute(a: int, b: int, r: int, k: int)
    ensures (a * b + r) * k == (a * k) * b + r * k
  {
  }

  // What the division by the number of workers leaves over must pay for what the interval rounds away.
  lemma WithinTargetByRemainders(pps: int, workers: int)
    requires workers > 0 && pps >= workers && PerWorker(pps, workers) <= SECOND
    ensures var ppw := PerWorker(pps, workers);
      workers * SECOND <= pps * Interval(ppw) <==> workers * (SECOND % ppw) <= (pps % workers) * Interval(ppw)
  {
    QuotientAtMost(pps, workers, 1);
    var ppw := PerWorker(pps, workers);
    QuotientAtMost(SECOND, ppw, 1);
    var i := Interval(ppw);
    DivMod(pps, workers);
    DivMod(SECOND, ppw);
    Distribute(workers, ppw, pps % workers, i);
    Distribute(ppw, i, SECOND % ppw, workers);
    Regroup(ppw, workers, i);
    assert ppw * workers == workers * ppw;
  }

  lemma PeriodWithinTargetIff(pps: int, workers: int)
    requires workers > 0
    ensures var ppw := PerWorker(pps, workers);
      var i := Interval(ppw);
      workers * SECOND <= pps * i <==>
        pps >= workers && (ppw > SECOND || workers * (SECOND % ppw) <= (pps % workers) * i)
  {
    var ppw := PerWorker(pps, workers);
    if pps < workers {
      QuotientAtMost(pps, workers, 1);
      assert ppw == 1 && Interval(1) == SECOND;
      ScaleUp(pps + 1, workers, SECOND);
    } else if ppw > SECOND {
      QuotientAtMost(SECOND, ppw, 1);
      RateSplit(pps, workers);
      ScaleUp(SECOND, ppw, workers);
      assert Interval(ppw) == 1000;
    } else {
      WithinTargetByRemainders(pps, workers);
    }
  }

  // In the first t nanoseconds the workers' tickers have ticked no more often than the target rate allows.
  predicate WithinTarget(pps: int, workers: int, t: nat)
    requires workers > 0
  {
    workers * Ticks(t, Interval(PerWorker(pps, workers))) * SECOND <= pps * t
  }

  lemma PositiveTarget(pps: int, workers: int)
    requires workers > 0 && workers * SECOND <= pps * Interval(PerWorker(pps, workers))
    ensures pps > 0
  {
    if pps <= 0 {
      ScaleUp(pps, 0, Interval(PerWorker(pps, workers)));
      ScaleUp(1, workers, SECOND);
      assert false;
    }
  }

  lemma PeriodDecides(pps: int, workers: int, t: nat)
    requires workers > 0 && workers * SECOND <= pps * Interval(PerWorker(pps, workers))
    ensures WithinTarget(pps, workers, t)
  {
    var i := Interval(PerWorker(pps, workers));
    var n := Ticks(t, i);
    DivBounds(t, i);
    QuotientAtMost(t, i, 0);
    ScaleUp(workers * SECOND, pps * i, n);
    Regroup(workers, SECOND, n);
    Regroup(pps, i, n);
    PositiveTarget(pps, workers);
    ScaleUp(i * n, t, pps);
    assert (pps * n) * i == pps * (i * n);
  }

  // The rate limit holds the target over every span from the start of the tickers exactly under a condition
  // on the configuration: at least one packet per worker, and a remainder of the split that covers the
  // rounding of the interval.
  lemma TickersWithinTargetIff(pps: int, workers: int)
    requires workers > 0
    ensures var ppw := PerWorker(pps, workers);
      (forall t: nat :: WithinTarget(pps, workers, t)) <==>
        pps >= workers && (ppw > SECOND || workers * (SECOND % ppw) <= (pps % workers) * Interval(ppw))
  {
    PeriodWithinTargetIff(pps, workers);
    var i := Interval(PerWorker(pps, workers));
    if workers * SECOND <= pps * i {
      forall t: nat
        ensures WithinTarget(pps, workers, t)
      {
        PeriodDecides(pps, workers, t);
      }
    } else {
      assert Ticks(i, i) == 1;
      assert !WithinTarget(pps, workers, i);
    }
  }

  // In any t nanoseconds, from a on, no more ticks than the target rate allows and one more for each worker.
  predicate WithinBurst(pps: int, workers: int, a: nat, t: nat)
    requires workers > 0
  {
    var i := Interval(PerWorker(pps, workers));
    workers * (Ticks(a + t, i) - Ticks(a, i)) * SECOND <= pps * t + workers * SECOND
  }

  // Between the first and the last of n ticks there are n - 1 whole intervals.
  lemma TicksApart(a: nat, t: nat, i: int)
    requires i > 0
    ensures 0 <= Ticks(a + t, i) - Ticks(a, i)
    ensures i * (Ticks(a + t, i) - Ticks(a, i) - 1) <= t
  {
    DivBounds(a, i);
    DivBounds(a + t, i);
    var m, n := Ticks(a, i), Ticks(a + t, i);
    QuotientAtMost(a + t, i, m);
    assert i * (n - m - 1) == i * n - i * m - i;
  }

  lemma PeriodBoundsBursts(pps: int, workers: int, a: nat, t: nat)
    requires workers > 0 && workers * SECOND <= pps * Interval(PerWorker(pps, workers))
    ensures WithinBurst(pps, workers, a, t)
  {
    var i := Interval(PerWorker(pps, workers));
    var n := Ticks(a + t, i) - Ticks(a, i);
    TicksApart(a, t, i);
    PositiveTarget(pps, workers);
    if n == 0 {
      ScaleUp(0, pps, t);
    } else {
      ScaleUp(workers * SECOND, pps * i, n - 1);
      Regroup(workers, SECOND, n - 1);
      ScaleUp(i * (n - 1), t, pps);
      assert (pps * i) * (n - 1) == (i * (n - 1)) * pps;
      Distribute(workers, n - 1, workers, SECOND);
      assert workers * (n - 1) + workers == workers * n;
    }
  }

  // Over many intervals what a period exceeds the target by adds up to more than any burst.
  lemma LongSpanExceeds(pps: int, workers: int)
    requires workers > 0 && pps * Interval(PerWorker(pps, workers)) < workers * SECOND
    ensures exists t: nat :: !WithinBurst(pps, workers, 0, t)
  {
    var i, k := Interval(PerWorker(pps, workers)), workers * SECOND + 1;
    var t := k * i;
    QuotientAtMost(t, i, k);
    QuotientAtMost(t, i, k + 1);
    assert i * (k + 1) == t + i;
    assert Ticks(t, i) == k && Ticks(0, i) == 0;
    ScaleUp(pps * i + 1, workers * SECOND, k);
    assert (pps * i + 1) * k == pps * t + k by {
      assert (pps * i) * k == pps * (k * i);
    }
    Regroup(workers, SECOND, k);
    ScaleUp(0, k, i);
    var u: nat := t;
    assert !WithinBurst(pps, workers, 0, u);
  }

  // Over every time span whatever, up to one tick per worker for where the span begins, the target is held
  // exactly under the same condition.
  lemma BurstsWithinTargetIff(pps: int, workers: int)
    requires workers > 0
    ensures var ppw := PerWorker(pps, workers);
      (forall a: nat, t: nat :: WithinBurst(pps, workers, a, t)) <==>
        pps >= workers && (ppw > SECOND || workers * (SECOND % ppw) <= (pps % workers) * Interval(ppw))
  {
    PeriodWithinTargetIff(pps, workers);
    if workers * SECOND <= pps * Interval(PerWorker(pps, workers)) {
      forall a: nat, t: nat
        ensures WithinBurst(pps, workers, a, t)
      {
        PeriodBoundsBursts(pps, workers, a, t);
      }
    } else {
      LongSpanExceeds(pps, workers);
    }
  }

  // Enough packets for every worker is not sufficient: one worker at three packets per second ticks four
  // times in less than four thirds of a second.
  lemma RoundingExceedsTarget()
    ensures PerWorker(3, 1) == 3 && Interval(3) == 333333333 && Ticks(1333333332, Interval(3)) == 4
    ensures !WithinTarget(3, 1, 1333333332)
  {
    assert GoDiv(3, 1) == 3;
  }

  // A higher rate never ticks more slowly, except across the point where the division reaches zero
  // and the interval jumps back to a microsecond.
  lemma IntervalMonotoneIff(p: int, q: int)
    requires 1 <= p <= q
    ensures Interval(q) <= Interval(p) <==> q <= SECOND || p <= 1_000_000 || p > SECOND
  {
    DivBounds(SECOND, p);
    DivBounds(SECOND, q);
    QuotientAtMost(SECOND, p, 1);
    QuotientAtMost(SECOND, q, 1);
    QuotientAtMost(SECOND, p, 1000);
    if q <= SECOND {
      assert p * (SECOND / q) <= q * (SECOND / q);
      QuotientAtMost(SECOND, p, SECOND / q);
    }
  }

  lemma PerWorkerMonotone(a: int, b: int, workers: int)
    requires a <= b && workers > 0
    ensures PerWorker(a, workers) <= PerWorker(b, workers)
  {
    if a >= 0 {
      DivBounds(a, workers);
      QuotientAtMost(b, workers, a / workers);
    } else if b >= 0 {
      QuotientAtMost(b, workers, 0);
      QuotientAtMost(-a, workers, 0);
    } else {
      QuotientAtMost(-a, workers, 0);
      QuotientAtMost(-b, workers, 0);
    }
  }

  // ---------- The steps of a throughput sweep ----------

  datatype RunConfig = RunConfig(
    workers: int, pps: int, basePPS: int, stepPPS: int, stepCount: int, stepStartPPS: int, stepIncrement: int,
    stepDuration: int, duration: int)

  function Steps(cfg: RunConfig): (n: nat) {
    if cfg.stepCount <= 0 then 1 else cfg.stepCount
  }

  function StartPPS(cfg: RunConfig): int {
    if cfg.stepStartPPS <= 0 then Max(1, cfg.basePPS) else cfg.stepStartPPS
  }

  function Increment(cfg: RunConfig): int {
    if cfg.stepIncrement <= 0 then Max(1, cfg.stepPPS) else cfg.stepIncrement
  }

  function StepConfig(cfg: RunConfig, i: nat): RunConfig {
    cfg.(pps := StartPPS(cfg) + i * Increment(cfg), duration := cfg.stepDuration)
  }

  // The rate of the first step, what each step adds, and that nothing else of the configuration changes but
  // the duration.
  lemma StepTargets(cfg: RunConfig, i: nat)
    ensures StepConfig(cfg, 0).pps
         == if cfg.stepStartPPS > 0 then cfg.stepStartPPS else if cfg.basePPS > 0 then cfg.basePPS else 1
    ensures StepConfig(cfg, i + 1).pps - StepConfig(cfg, i).pps
         == if cfg.stepIncrement > 0 then cfg.stepIncrement else if cfg.stepPPS > 0 then cfg.stepPPS else 1
    ensures StepConfig(cfg, i) == cfg.(pps := StepConfig(cfg, i).pps, duration := cfg.stepDuration)
  {
    assert (i + 1) * Increment(cfg) == i * Increment(cfg) + Increment(cfg);
  }

  lemma StepsIncrease(cfg: RunConfig, i: nat, j: nat)
    requires i < j
    ensures 0 < StepConfig(cfg, i).pps < StepConfig(cfg, j).pps
  {
    var inc := Increment(cfg);
    ScaleUp(0, i, inc);
    ScaleUp(i + 1, j, inc);
    assert (i + 1) * inc == i * inc + inc;
  }

  // Over a sweep the tickers never slow down, as long as the last step's per-worker rate stays within
  // one packet per nanosecond.
  lemma SweepNeverSlowsDown(cfg: RunConfig, i: nat, j: nat)
    requires cfg.workers > 0 && i <= j && PerWorker(StepConfig(cfg, j).pps, cfg.workers) <= SECOND
    ensures Interval(PerWorker(StepConfig(cfg, j).pps, cfg.workers))
         <= Interval(PerWorker(StepConfig(cfg, i).pps, cfg.workers))
  {
    if i < j {
      StepsIncrease(cfg, i, j);
    }
    PerWorkerMonotone(StepConfig(cfg, i).pps, StepConfig(cfg, j).pps, cfg.workers);
    IntervalMonotoneIff(PerWorker(StepConfig(cfg, i).pps, cfg.workers), PerWorker(StepConfig(cfg, j).pps, cfg.workers));
  }
}
