/** What a latency run reports, and the throughput sweep over such runs. */
module Sweep {
  import opened Bytes
  import opened Metrics
  import opened Pacing
  import opened Protocol
  import opened Conservation

  // workers <= 0 means one.
  function Workers(cfg: RunConfig): nat {
    if cfg.workers <= 0 then 1 else cfg.workers
  }

  // es is a whole latency run of the configuration: the network, the scheduler and the snapshot ticker
  // choose it, up to the row that is taken after every worker has left.
  predicate LatencyRun(cfg: RunConfig, c: Config, es: seq<Event>) {
    c.mode.Latency? && c.workers == Workers(cfg) && Complete(c, es)
  }

  function Snapshots(cfg: RunConfig, transport: string, rows: seq<Row>): (snaps: seq<Snapshot>)
    ensures |snaps| == |rows|
  {
    seq(|rows|, i requires 0 <= i < |rows| =>
      Summary(rows[i].tally, "latency", transport, cfg.pps, Workers(cfg), rows[i].since))
  }

  // The rows that RunLatency returns for the run; it never returns an error.
  function RunLatency(cfg: RunConfig, transport: string, c: Config, es: seq<Event>): seq<Snapshot>
    requires LatencyRun(cfg, c, es)
  {
    Snapshots(cfg, transport, Run(c, es).value.rows)
  }

  // The books of a row: every send is a reply or a drop, and the percentiles are ordered.
  predicate ExactRow(s: Snapshot) {
    s.tx == s.rx + (s.drop - s.dropSendErr)
    && s.drop == s.dropTimeout + s.dropSendErr + s.dropDecode + s.dropMismatch + s.dropOther
    && s.p50US <= s.p95US <= s.p99US
  }

  // Every row shows the collector at the moment at which it was taken, for this rate and this many workers.
  lemma SnapshotsShow(cfg: RunConfig, transport: string, taken: seq<Row>)
    ensures var rows := Snapshots(cfg, transport, taken);
      forall i :: 0 <= i < |taken| ==>
        Shows(rows[i], taken[i].tally, taken[i].since) && rows[i].p50US <= rows[i].p95US <= rows[i].p99US
        && rows[i].mode == "latency" && rows[i].transport == transport && rows[i].targetPPS == cfg.pps
        && rows[i].channels == if cfg.workers > 0 then cfg.workers else 1
  {
    forall i | 0 <= i < |taken|
      ensures var row := Snapshots(cfg, transport, taken)[i];
        Shows(row, taken[i].tally, taken[i].since) && row.p50US <= row.p95US <= row.p99US
    {
      SummaryShows(taken[i].tally, "latency", transport, cfg.pps, Workers(cfg), taken[i].since);
    }
  }

  // The rows of a run show its collector, at the moments at which they were taken, and the last one is exact.
  lemma EndsExact(cfg: RunConfig, transport: string, c: Config, es: seq<Event>)
    requires LatencyRun(cfg, c, es)
    ensures var rows, taken := RunLatency(cfg, transport, c, es), Run(c, es).value.rows;
      |rows| == |taken| > 0 && ExactRow(rows[|rows| - 1])
      && forall i :: 0 <= i < |rows| ==>
        Shows(rows[i], taken[i].tally, taken[i].since)
        && rows[i].mode == "latency" && rows[i].transport == transport && rows[i].targetPPS == cfg.pps
        && rows[i].channels == if cfg.workers > 0 then cfg.workers else 1
  {
    FinalRowExact(c, es);
    SnapshotsShow(cfg, transport, Run(c, es).value.rows);
  }

  predicate NoLess(s: Snapshot, t: Snapshot) {
    s.tx <= t.tx && s.rx <= t.rx && s.drop <= t.drop && s.dropTimeout <= t.dropTimeout && s.dropSendErr <= t.dropSendErr
    && s.dropDecode <= t.dropDecode && s.dropMismatch <= t.dropMismatch && s.dropOther <= t.dropOther
  }

  // Within a run no row shows less than an earlier one.
  lemma RowsNeverShrink(cfg: RunConfig, transport: string, c: Config, es: seq<Event>)
    requires LatencyRun(cfg, c, es)
    ensures var rows := RunLatency(cfg, transport, c, es);
      forall i, j :: 0 <= i < j < |rows| ==> NoLess(rows[i], rows[j])
  {
    AlwaysBalanced(c, es);
  }

  // row is the last row of a run with its own target rate, the step's duration, and all else as configured;
  // and it is exact.
  predicate IsStepRow(cfg: RunConfig, transport: string, c: Config, es: seq<Event>, row: Snapshot) {
    var step := cfg.(pps := row.targetPPS, duration := cfg.stepDuration);
    LatencyRun(step, c, es) &&
    var rows := RunLatency(step, transport, c, es);
    rows != [] && row == rows[|rows| - 1] && ExactRow(row)
  }

  // The i-th row is that of the i-th step.
  predicate StepRowAt(cfg: RunConfig, transport: string, c: Config, runs: seq<seq<Event>>, rows: seq<Snapshot>, i: nat)
    requires i < |rows| <= |runs|
  {
    rows[i].targetPPS == StepConfig(cfg, i).pps && IsStepRow(cfg, transport, c, runs[i], rows[i])
  }

  predicate StepRows(cfg: RunConfig, transport: string, c: Config, runs: seq<seq<Event>>, rows: seq<Snapshot>) {
    |rows| <= |runs| && forall i: nat :: i < |rows| ==> StepRowAt(cfg, transport, c, runs, rows, i)
  }

  // The run of the next step ends with the next row.
  lemma OneMoreRow(cfg: RunConfig, transport: string, c: Config, runs: seq<seq<Event>>, rows: seq<Snapshot>)
    requires StepRows(cfg, transport, c, runs, rows) && |rows| < |runs|
    requires LatencyRun(StepConfig(cfg, |rows|), c, runs[|rows|])
    ensures var more := RunLatency(StepConfig(cfg, |rows|), transport, c, runs[|rows|]);
      more != [] && StepRows(cfg, transport, c, runs, rows + [more[|more| - 1]])
  {
    var i, step := |rows|, StepConfig(cfg, |rows|);
    EndsExact(step, transport, c, runs[i]);
    StepTargets(cfg, i);
    var more := RunLatency(step, transport, c, runs[i]);
    var now := rows + [more[|more| - 1]];
    assert step == cfg.(pps := now[i].targetPPS, duration := cfg.stepDuration);
    forall k: nat | k < |now|
      ensures StepRowAt(cfg, transport, c, runs, now, k)
    {
      assert k < i ==> StepRowAt(cfg, transport, c, runs, rows, k);
    }
  }

  lemma StepRowsAre(cfg: RunConfig, transport: string, c: Config, runs: seq<seq<Event>>, rows: seq<Snapshot>)
    requires StepRows(cfg, transport, c, runs, rows)
    ensures forall i :: 0 <= i < |rows| ==> rows[i].targetPPS == StepConfig(cfg, i).pps
    ensures forall i :: 0 <= i < |rows| ==> IsStepRow(cfg, transport, c, runs[i], rows[i])
  {
    forall i: nat | i < |rows|
      ensures rows[i].targetPPS == StepConfig(cfg, i).pps && IsStepRow(cfg, transport, c, runs[i], rows[i])
    {
      assert StepRowAt(cfg, transport, c, runs, rows, i);
    }
  }

  // runs[i] is the run of the i-th step, if there is to be one.
  method RunThroughputSweep(cfg: RunConfig, transport: string, c: Config, runs: seq<seq<Event>>)
    returns (res: Result<seq<Snapshot>, string>)
    requires cfg.stepDuration > 0 ==>
      |runs| == Steps(cfg) && forall i: nat :: i < |runs| ==> LatencyRun(StepConfig(cfg, i), c, runs[i])
    ensures res.Success? <==> cfg.stepDuration > 0
    ensures res.Failure? ==> res.error == "step_duration must be > 0"
    // One row per step, of the run of that step.
    ensures res.Success? ==> |res.value| == |runs| == if cfg.stepCount > 0 then cfg.stepCount else 1
    ensures res.Success? ==>
      forall i :: 0 <= i < |res.value| ==> IsStepRow(cfg, transport, c, runs[i], res.value[i])
    // The target of the first step, and by how much each next one exceeds the one before it.
    ensures res.Success? ==>
      var first := if cfg.stepStartPPS > 0 then cfg.stepStartPPS else if cfg.basePPS > 0 then cfg.basePPS else 1;
      res.value[0].targetPPS == first
    ensures res.Success? ==> forall i :: 0 < i < |res.value| ==>
      var inc := if cfg.stepIncrement > 0 then cfg.stepIncrement else if cfg.stepPPS > 0 then cfg.stepPPS else 1;
      res.value[i].targetPPS == res.value[i - 1].targetPPS + inc
    ensures res.Success? ==> forall i :: 0 <= i < |res.value| ==> res.value[i].targetPPS == StepConfig(cfg, i).pps > 0
    ensures res.Success? ==> forall i, j :: 0 <= i < j < |res.value| ==> res.value[i].targetPPS < res.value[j].targetPPS
  {
    var steps := cfg.stepCount;
    if steps <= 0 {
      steps := 1;
    }
    var startPPS := cfg.stepStartPPS;
    if startPPS <= 0 {
      startPPS := Max(1, cfg.basePPS);
    }
    var inc := cfg.stepIncrement;
    if inc <= 0 {
      inc := Max(1, cfg.stepPPS);
    }
    if cfg.stepDuration <= 0 {
      return Failure("step_duration must be > 0");
    }
    var all: seq<Snapshot> := [];
    for i := 0 to steps
      invariant |all| == i && StepRows(cfg, transport, c, runs, all)
    {
      var r2 := cfg.(pps := startPPS + i * inc, duration := cfg.stepDuration);
      assert r2 == StepConfig(cfg, i);
      OneMoreRow(cfg, transport, c, runs, all);
      var rows := RunLatency(r2, transport, c, runs[i]);
      if |rows| > 0 {
        all := all + [rows[|rows| - 1]];
      }
    }
    StepRowsAre(cfg, transport, c, runs, all);
    TargetsAre(cfg, all);
    return Success(all);
  }

  lemma TargetsAre(cfg: RunConfig, rows: seq<Snapshot>)
    requires rows != [] && forall i :: 0 <= i < |rows| ==> rows[i].targetPPS == StepConfig(cfg, i).pps
    ensures rows[0].targetPPS
         == if cfg.stepStartPPS > 0 then cfg.stepStartPPS else if cfg.basePPS > 0 then cfg.basePPS else 1
    ensures forall i :: 0 < i < |rows| ==>
      var inc := if cfg.stepIncrement > 0 then cfg.stepIncrement else if cfg.stepPPS > 0 then cfg.stepPPS else 1;
      rows[i].targetPPS == rows[i - 1].targetPPS + inc
    ensures forall i :: 0 <= i < |rows| ==> rows[i].targetPPS > 0
    ensures forall i, j :: 0 <= i < j < |rows| ==> rows[i].targetPPS < rows[j].targetPPS
  {
    StepTargets(cfg, 0);
    forall i: nat, j: nat | i < j <= |rows|
      ensures 0 < StepConfig(cfg, i).pps < StepConfig(cfg, j).pps
    {
      StepsIncrease(cfg, i, j);
    }
    forall i | 0 <= i < |rows|
      ensures rows[i].targetPPS > 0
      ensures i > 0 ==>
        var inc := if cfg.stepIncrement > 0 then cfg.stepIncrement else if cfg.stepPPS > 0 then cfg.stepPPS else 1;
        rows[i].targetPPS == rows[i - 1].targetPPS + inc
    {
      assert 0 < StepConfig(cfg, i).pps < StepConfig(cfg, i + 1).pps;
      if i > 0 {
        StepTargets(cfg, i - 1);
      }
    }
  }
}
