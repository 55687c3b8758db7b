/**
 The goroutine loops of the AMF handler, a latency worker and a flood worker, over a channel, a clock and
 the real collector. Whatever the channel and the clock do, a loop takes the steps of its session in the
 transition system, and the channel calls of those steps are exactly the calls it made, with what they
 returned and left in the pipes.
 */
module Loops {
  import opened Bytes
  import opened Wire
  import opened Stream
  import opened Framing
  import opened Pipes
  import opened Links
  import opened Protocol
  import opened Metrics
  import opened Conservation
  import opened Solo
  import opened Amf

  // atomic.Uint64, as far as fewer than 2^64 requests are concerned
  class Sequence {
    var n: nat

    constructor ()
      ensures n == 0
    {
      n := 0;
    }

    method Add() returns (id: nat)
      modifies this
      ensures n == old(n) + 1 && id == n
    {
      n := n + 1;
      return n;
    }
  }

  // time.Now, in nanoseconds; it may be set back.
  class Clock {
    var now: int64

    constructor ()
      ensures now == 0
    {
      now := 0;
    }

    method Now() returns (t: int64)
      modifies this
      ensures now == t
    {
      t := *;
      now := t;
    }
  }

  // ---------- Walks ----------

  // What a loop and the rest of its process share.
  predicate At(m: Local, pc: PC, n: nat, clock: int64, tally: Tally, puts: seq<PutCall>, gots: seq<GotCall>) {
    m.wk.pc == pc && m.seqNo == n && m.clock == clock && m.tally == tally && m.puts == puts && m.gots == gots
  }

  lemma TwoOn(c: Config, w: nat, l: Local, before: seq<Action>, m: Local, a1: Action, a2: Action)
    returns (steps: seq<Action>, q: Local)
    requires Walk(c, w, l, before) == Some(m) && Can(m, a1) && Can(Take(c, w, m, a1), a2)
    ensures before <= steps && Walk(c, w, l, steps) == Some(q) && q == Take(c, w, Take(c, w, m, a1), a2)
  {
    var m1 := Take(c, w, m, a1);
    WalkOn(c, w, l, before, m, a1);
    WalkOn(c, w, l, before + [a1], m1, a2);
    return before + [a1] + [a2], Take(c, w, m1, a2);
  }

  lemma FourOn(c: Config, w: nat, l: Local, before: seq<Action>, m: Local,
               a1: Action, a2: Action, a3: Action, a4: Action)
    returns (steps: seq<Action>, q: Local)
    requires Walk(c, w, l, before) == Some(m) && Can(m, a1) && Can(Take(c, w, m, a1), a2)
    requires var m2 := Take(c, w, Take(c, w, m, a1), a2); Can(m2, a3) && Can(Take(c, w, m2, a3), a4)
    ensures before <= steps && Walk(c, w, l, steps) == Some(q)
    ensures q == Take(c, w, Take(c, w, Take(c, w, Take(c, w, m, a1), a2), a3), a4)
  {
    steps, q := TwoOn(c, w, l, before, m, a1, a2);
    steps, q := TwoOn(c, w, l, steps, q, a3, a4);
  }

  lemma SendSteps(c: Config, w: nat, l: Local, before: seq<Action>, m: Local, now: int64, after: Pipe,
                  err: Option<ChannelError>) returns (steps: seq<Action>, q: Local)
    requires Walk(c, w, l, before) == Some(m) && m.wk.pc.Idle? && m.seqNo + 1 < TWO_64
    ensures before <= steps && Walk(c, w, l, steps) == Some(q)
    ensures var frm := Request(c, w, m.seqNo + 1, now);
      At(q, if err.None? && c.mode.Latency? then Awaiting(frm) else Idle, m.seqNo + 1, now,
         Metrics.Apply(m.tally, if err.Some? then Op.AddDropSendErr(1) else Op.AddTx(1)),
         m.puts + [Put(EncodeDiscardingError(frm), after, err)], m.gots)
  {
    SendEnds(c, w, m, now, after, err);
    steps, q := FourOn(c, w, l, before, m, Number, Stamp(now), Action.Send(after, err), CountSend);
  }

  lemma SendEnds(c: Config, w: nat, m: Local, now: int64, after: Pipe, err: Option<ChannelError>)
    requires m.wk.pc.Idle? && m.seqNo + 1 < TWO_64
    ensures Can(m, Number) && Can(Take(c, w, m, Number), Stamp(now))
    ensures var m2, frm := Take(c, w, Take(c, w, m, Number), Stamp(now)), Request(c, w, m.seqNo + 1, now);
      Can(m2, Action.Send(after, err)) && Can(Take(c, w, m2, Action.Send(after, err)), CountSend)
      && At(Take(c, w, Take(c, w, m2, Action.Send(after, err)), CountSend),
            if err.None? && c.mode.Latency? then Awaiting(frm) else Idle, m.seqNo + 1, now,
            Metrics.Apply(m.tally, if err.Some? then Op.AddDropSendErr(1) else Op.AddTx(1)),
            m.puts + [Put(EncodeDiscardingError(frm), after, err)], m.gots)
  {
  }

  lemma RxSteps(c: Config, w: nat, l: Local, before: seq<Action>, m: Local, recv: Action, now: int64)
    returns (steps: seq<Action>, q: Local)
    requires Walk(c, w, l, before) == Some(m) && m.wk.pc.Awaiting? && recv.Recv?
    requires Verdict(recv.res, m.wk.pc.req.seqID).Matched?
    ensures before <= steps && Walk(c, w, l, steps) == Some(q)
    ensures At(q, Idle, m.seqNo, now, Booked(m.tally, Verdict(recv.res, m.wk.pc.req.seqID), now),
               m.puts, m.gots + [Got(recv.after, recv.res)])
  {
    RxEnds(c, w, m, recv, now);
    steps, q := FourOn(c, w, l, before, m, recv, CountRx, Measure(now), Sample);
  }

  lemma RxEnds(c: Config, w: nat, m: Local, recv: Action, now: int64)
    requires recv.Recv? && m.wk.pc.Awaiting? && Verdict(recv.res, m.wk.pc.req.seqID).Matched?
    ensures Can(m, recv) && Can(Take(c, w, m, recv), CountRx)
    ensures var m2 := Take(c, w, Take(c, w, m, recv), CountRx);
      Can(m2, Measure(now)) && Can(Take(c, w, m2, Measure(now)), Sample)
      && At(Take(c, w, Take(c, w, m2, Measure(now)), Sample), Idle, m.seqNo, now,
            Booked(m.tally, Verdict(recv.res, m.wk.pc.req.seqID), now), m.puts, m.gots + [Got(recv.after, recv.res)])
  {
  }

  lemma LossSteps(c: Config, w: nat, l: Local, before: seq<Action>, m: Local, recv: Action)
    returns (steps: seq<Action>, q: Local)
    requires Walk(c, w, l, before) == Some(m) && m.wk.pc.Awaiting? && recv.Recv?
    requires !Verdict(recv.res, m.wk.pc.req.seqID).Matched?
    ensures before <= steps && Walk(c, w, l, steps) == Some(q)
    ensures At(q, Idle, m.seqNo, m.clock, Booked(m.tally, Verdict(recv.res, m.wk.pc.req.seqID), m.clock),
               m.puts, m.gots + [Got(recv.after, recv.res)])
  {
    steps, q := TwoOn(c, w, l, before, m, recv, CountDrop);
  }

  lemma RecvSteps(c: Config, w: nat, l: Local, before: seq<Action>, m: Local, after: Pipe,
                  res: Result<seq<byte>, ChannelError>, now: int64) returns (steps: seq<Action>, q: Local)
    requires Walk(c, w, l, before) == Some(m) && m.wk.pc.Awaiting?
    requires !Verdict(res, m.wk.pc.req.seqID).Matched? ==> now == m.clock
    ensures before <= steps && Walk(c, w, l, steps) == Some(q)
    ensures At(q, Idle, m.seqNo, now, Booked(m.tally, Verdict(res, m.wk.pc.req.seqID), now),
               m.puts, m.gots + [Got(after, res)])
  {
    if Verdict(res, m.wk.pc.req.seqID).Matched? {
      steps, q := RxSteps(c, w, l, before, m, Action.Recv(after, res), now);
    } else {
      steps, q := LossSteps(c, w, l, before, m, Action.Recv(after, res));
    }
  }

  lemma RoundSteps(c: Config, w: nat, l: Local, before: seq<Action>, m: Local, now: int64, out: Pipe,
                   rest: Pipe, res: Result<seq<byte>, ChannelError>, later: int64)
    returns (steps: seq<Action>, q: Local)
    requires Walk(c, w, l, before) == Some(m) && m.wk.pc.Idle? && m.seqNo + 1 < TWO_64 && c.mode.Latency?
    requires !Verdict(res, m.seqNo + 1).Matched? ==> later == now
    ensures before <= steps && Walk(c, w, l, steps) == Some(q)
    ensures At(q, Idle, m.seqNo + 1, later,
               Booked(Metrics.Apply(m.tally, Op.AddTx(1)), Verdict(res, m.seqNo + 1), later),
               m.puts + [Put(EncodeDiscardingError(Request(c, w, m.seqNo + 1, now)), out, None)],
               m.gots + [Got(rest, res)])
  {
    var sent, p := SendSteps(c, w, l, before, m, now, out, None);
    steps, q := RecvSteps(c, w, l, sent, p, rest, res, later);
  }

  function Verdict(res: Result<seq<byte>, ChannelError>, next: uint64): PC {
    match res
    case Failure(e) => Dropping(if IsTimeoutError(e) then TimedOut else Other)
    case Success(raw) => Judge(raw, next)
  }

  // What a verdict adds to the collector; now is the time read for a sample.
  function Booked(t: Tally, pc: PC, now: int64): Tally {
    match pc
    case Matched(resp) => Metrics.Apply(Metrics.Apply(t, Op.AddRx(1)), Op.AddLatency(Since(now, resp.sendTSNS)))
    case _ => Tallied(t, OpOf(pc, CountDrop))
  }

  // A walk keeps the books balanced, whatever was open when it began.
  lemma {:induction false} WalkBalances(c: Config, w: nat, l: Local, steps: seq<Action>, a: int, b: int, d: int)
    requires Walk(c, w, l, steps).Some? && (c.mode.Flood? ==> PhaseOf(l.wk.pc) in {Quiet, Unsent})
    requires Balanced(c.mode, l.tally, l.seqNo,
                      a + In(l.wk.pc, Unsent), b + In(l.wk.pc, Unanswered), d + In(l.wk.pc, Unsampled))
    ensures var m := Walk(c, w, l, steps).value;
      Balanced(c.mode, m.tally, m.seqNo,
               a + In(m.wk.pc, Unsent), b + In(m.wk.pc, Unanswered), d + In(m.wk.pc, Unsampled))
      && (c.mode.Flood? ==> PhaseOf(m.wk.pc) in {Quiet, Unsent})
    decreases |steps|
  {
    if steps != [] {
      WalkBalances(c, w, l, steps[..|steps| - 1], a, b, d);
      var m, e := Walk(c, w, l, steps[..|steps| - 1]).value, steps[|steps| - 1];
      StepBalances(c, w, m.seqNo + 1, m.wk, e, m.tally,
                   a + In(m.wk.pc, Unsent), b + In(m.wk.pc, Unanswered), d + In(m.wk.pc, Unsampled));
    }
  }

  // ---------- The worker loops ----------

  // From Recv to the verdict on the reply; before is what had arrived when the message was taken.
  method Receive(link: Link, next: uint64)
    returns (pc: PC, ghost before: Pipe, ghost res: Result<seq<byte>, ChannelError>)
    requires link.Valid()
    modifies link`gots, link`causes, link.inp, link.conn`queue, link.conn`readFailed
    ensures link.Valid() && link.gots == old(link.gots) + [Got(link.In(), res)] && link.Out() == old(link.Out())
    ensures Grew(old(link.In()), before) && Takes(link.transport, before, link.In(), res)
    ensures pc == Verdict(res, next) && (pc.Dropping? || pc.Matched?)
    // The verdict is a timeout exactly when the read under the Recv timed out.
    ensures link.causes == old(link.causes) + [link.Cause(res)]
    ensures pc == Dropping(TimedOut) <==> link.Cause(res) == Some(Timeout)
  {
    var raw;
    raw, before := link.Recv();
    res := raw;
    if raw.Failure? {
      return if IsTimeoutError(raw.error) then Dropping(TimedOut) else Dropping(Other), before, res;
    }
    var resp := Decode(raw.value);
    if resp.Failure? {
      return Dropping(Undecodable), before, res;
    }
    if resp.value.msgType != MSG_RESP || resp.value.seqID != next {
      return Dropping(Mismatch), before, res;
    }
    return Matched(resp.value), before, res;
  }

  // From t to u one counter has grown by one, the one of the verdict, and nothing else but the samples.
  predicate CountedOnce(t: Tally, u: Tally, pc: PC) {
    && u.rx == t.rx + (if pc.Matched? then 1 else 0)
    && u.dropTimeout == t.dropTimeout + (if pc == Dropping(TimedOut) then 1 else 0)
    && u.dropOther == t.dropOther + (if pc == Dropping(Other) then 1 else 0)
    && u.dropDecode == t.dropDecode + (if pc == Dropping(Undecodable) then 1 else 0)
    && u.dropMismatch == t.dropMismatch + (if pc == Dropping(Mismatch) then 1 else 0)
    && u.tx == t.tx && u.dropSendErr == t.dropSendErr && t.latencyUS <= u.latencyUS
    && (!pc.Matched? ==> u.latencyUS == t.latencyUS)
  }

  method CountLoss(why: Why, col: Collector)
    modifies col
    ensures col.View() == Tallied(old(col.View()), OpOf(Dropping(why), CountDrop))
  {
    match why {
      case TimedOut => col.AddDropTimeout(1);
      case Other => col.AddDrop(1);
      case Undecodable => col.AddDropDecode(1);
      case Mismatch => col.AddDropMismatch(1);
    }
  }

  // The latency loop from the verdict on the reply to its top.
  method CountReply(pc: PC, col: Collector, clock: Clock)
    requires pc.Dropping? || pc.Matched?
    modifies col, clock
    ensures col.View() == Booked(old(col.View()), pc, clock.now)
    ensures !pc.Matched? ==> clock.now == old(clock.now)
    ensures CountedOnce(old(col.View()), col.View(), pc)
    ensures pc.Matched? ==>
      |col.latencyUS| == |old(col.latencyUS)| + 1
      && Measures(col.latencyUS[|old(col.latencyUS)|], clock.now, pc.resp.sendTSNS)
  {
    match pc {
      case Dropping(why) => CountLoss(why, col);
      case Matched(resp) =>
        col.AddRx(1);
        var now := clock.Now();
        col.AddLatency(Since(now, resp.sendTSNS));
        SampleMeasures(now, resp.sendTSNS);
    }
  }

  // Either loop from its top to the outcome of Send: seq.Add, the frame, Encode, one Send of it, and the count
  // of what that returned.
  method SendRequest(c: Config, w: nat, number: Sequence, col: Collector, clock: Clock, link: Link)
    returns (err: Option<ChannelError>, frm: Frame)
    requires link.Valid() && number.n + 1 < TWO_64
    modifies number, col, clock, link`puts, link.out, link.conn`sent, link.conn`writeFailed
    ensures link.Valid() && link.In() == old(link.In())
    ensures number.n == old(number.n) + 1 && frm == Request(c, w, number.n, clock.now)
    ensures Puts(link.transport, old(link.Out()), link.Out(), EncodeDiscardingError(frm), err)
    ensures link.puts == old(link.puts) + [Put(EncodeDiscardingError(frm), link.Out(), err)]
    ensures col.View() == Metrics.Apply(old(col.View()), if err.Some? then Op.AddDropSendErr(1) else Op.AddTx(1))
  {
    var next := number.Add();
    var now := clock.Now();
    frm := Request(c, w, next, now);
    err := link.Send(EncodeDiscardingError(frm));
    if err.Some? {
      col.AddDropSendErr(1);
    } else {
      col.AddTx(1);
    }
  }

  // The latency loop from AddTx to its top: one Recv, and what it returned is what is counted.
  method AwaitReply(next: uint64, col: Collector, clock: Clock, link: Link)
    returns (ghost res: Result<seq<byte>, ChannelError>)
    requires link.Valid()
    modifies col, clock, link`gots, link`causes, link.inp, link.conn`queue, link.conn`readFailed
    ensures link.Valid() && link.Out() == old(link.Out()) && link.gots == old(link.gots) + [Got(link.In(), res)]
    ensures col.View() == Booked(old(col.View()), Verdict(res, next), clock.now)
    ensures !Verdict(res, next).Matched? ==> clock.now == old(clock.now)
    ensures link.causes == old(link.causes) + [link.Cause(res)]
    ensures col.dropTimeout == old(col.dropTimeout) + if link.Cause(res) == Some(Timeout) then 1 else 0
  {
    var pc;
    ghost var arrived;
    pc, arrived, res := Receive(link, next);
    CountReply(pc, col, clock);
  }

  // How many reads have timed out.
  ghost function Timeouts(causes: seq<Option<IOError>>): nat {
    multiset(causes)[Some(Timeout)]
  }

  // One pass of either loop, as steps of the worker's session.
  method Pass(c: Config, w: nat, ghost l: Local, ghost before: seq<Action>, ghost m: Local, number: Sequence,
              col: Collector, clock: Clock, link: Link)
    returns (ghost steps: seq<Action>, ghost q: Local)
    requires link.Valid() && number.n + 1 < TWO_64
    requires Walk(c, w, l, before) == Some(m) && At(m, Idle, number.n, clock.now, col.View(), link.puts, link.gots)
    modifies number, col, clock, link, link.inp, link.out, link.conn
    ensures link.Valid() && number.n == old(number.n) + 1
    ensures before <= steps && Walk(c, w, l, steps) == Some(q)
    ensures At(q, Idle, number.n, clock.now, col.View(), link.puts, link.gots)
    ensures col.dropTimeout - old(col.dropTimeout) == Timeouts(link.causes) - Timeouts(old(link.causes))
  {
    var err, frm := SendRequest(c, w, number, col, clock, link);
    if err.None? && c.mode.Latency? {
      ghost var now, out := clock.now, link.Out();
      ghost var res := AwaitReply(frm.seqID, col, clock, link);
      steps, q := RoundSteps(c, w, l, before, m, now, out, link.In(), res, clock.now);
    } else {
      steps, q := SendSteps(c, w, l, before, m, clock.now, link.Out(), err);
    }
  }

  // A worker that has opened its channel; passes is how often it passes the ctx.Done check. It runs the
  // latency loop or the flood loop, and takes the steps of the transition system from Idle to Left.
  method WorkerLoop(c: Config, w: nat, ghost l: Local, number: Sequence, col: Collector, clock: Clock, link: Link,
                    passes: nat)
    returns (ghost steps: seq<Action>)
    requires link.Valid() && number.n + passes < TWO_64
    requires At(l, Idle, number.n, clock.now, col.View(), link.puts, link.gots)
    modifies number, col, clock, link, link.inp, link.out, link.conn
    ensures link.Valid() && number.n == old(number.n) + passes
    // The loop walks from top to exit, and the calls of its steps are exactly those it made on the link.
    ensures Walk(c, w, l, steps).Some?
    ensures At(Walk(c, w, l, steps).value, Left, number.n, clock.now, col.View(), link.puts, link.gots)
    // Every timeout it has counted is a read on its link that timed out, and every such read is counted.
    ensures col.dropTimeout - old(col.dropTimeout) == Timeouts(link.causes) - Timeouts(old(link.causes))
    // Alone, it is a run of the system that ends with this number and this tally, and its books are exact.
    ensures w < c.workers && l == Opened(c.transport) ==> EndsAlone(c, w, steps, number.n, col.View())
  {
    ghost var m := l;
    steps := [];
    for pass := 0 to passes
      invariant link.Valid() && number.n == old(number.n) + pass
      invariant col.dropTimeout - old(col.dropTimeout) == Timeouts(link.causes) - Timeouts(old(link.causes))
      invariant Walk(c, w, l, steps) == Some(m) && At(m, Idle, number.n, clock.now, col.View(), link.puts, link.gots)
    {
      steps, m := Pass(c, w, l, steps, m, number, col, clock, link);
    }
    WalkOn(c, w, l, steps, m, Leave);
    steps := steps + [Leave];
    if w < c.workers && l == Opened(c.transport) {
      AloneIsRun(c, w, steps, Take(c, w, m, Leave));
    }
  }

  // The steps of one worker that nobody else disturbs are a run that ends with this number and this tally.
  predicate EndsAlone(c: Config, w: nat, steps: seq<Action>, n: nat, tally: Tally) {
    var end := Run(c, StepsOf(w, [Open(true)] + steps));
    end.Some? && w < |end.value.workers| && end.value.workers[w].pc.Left?
    && end.value.seqNo == n && end.value.tally == tally && Balanced(c.mode, tally, n, 0, 0, 0)
  }

  lemma AloneIsRun(c: Config, w: nat, steps: seq<Action>, m: Local)
    requires w < c.workers && Walk(c, w, Opened(c.transport), steps) == Some(m) && m.wk.pc.Left?
    ensures EndsAlone(c, w, steps, m.seqNo, m.tally)
  {
    WalkFromOpened(c, w, steps, m);
    BalancesFromOpened(c, w, steps, m);
  }

  lemma BalancesFromOpened(c: Config, w: nat, steps: seq<Action>, m: Local)
    requires Walk(c, w, Opened(c.transport), steps) == Some(m) && m.wk.pc.Left?
    ensures Balanced(c.mode, m.tally, m.seqNo, 0, 0, 0)
  {
    WalkBalances(c, w, Opened(c.transport), steps, 0, 0, 0);
  }

  // ---------- The handler loop ----------

  // The body of the handler loop after a successful Recv: one Send of the reply, if there is one. The loop
  // drops err.
  method Handle(link: Link, raw: seq<byte>) returns (err: Option<ChannelError>)
    requires link.Valid()
    modifies link`puts, link.out, link.conn`sent, link.conn`writeFailed
    ensures link.Valid() && link.In() == old(link.In())
    ensures Answered(link.transport, old(link.Out()), link.Out(), raw, err)
    ensures link.puts == old(link.puts) + if React(raw).Some? then [Put(React(raw).value, link.Out(), err)] else []
  {
    err := None;
    var frm := Decode(raw);
    if frm.Success? && frm.value.msgType == MSG_REQ {
      var buf := EncodeDiscardingError(Echo(frm.value));
      err := link.Send(buf);
    }
  }

  function TurnPut(turn: Turn): seq<PutCall> {
    if React(turn.raw).Some? then [Put(React(turn.raw).value, turn.after, turn.err)] else []
  }

  function AllPuts(turns: seq<Turn>): seq<PutCall> {
    if turns == [] then [] else AllPuts(turns[..|turns| - 1]) + TurnPut(turns[|turns| - 1])
  }

  function AllGots(turns: seq<Turn>): (gots: seq<GotCall>)
    ensures |gots| == |turns|
  {
    seq(|turns|, i requires 0 <= i < |turns| => Got(turns[i].rest, Success(turns[i].raw)))
  }

  lemma OneMoreTurn(turns: seq<Turn>, turn: Turn)
    ensures AllPuts(turns + [turn]) == AllPuts(turns) + TurnPut(turn)
    ensures AllGots(turns + [turn]) == AllGots(turns) + [Got(turn.rest, Success(turn.raw))]
  {
    assert (turns + [turn])[..|turns|] == turns;
  }

  lemma OneMoreCall(puts: seq<PutCall>, gots: seq<GotCall>, turns: seq<Turn>, turn: Turn)
    ensures puts + AllPuts(turns + [turn]) == (puts + AllPuts(turns)) + TurnPut(turn)
    ensures gots + AllGots(turns + [turn]) == (gots + AllGots(turns)) + [Got(turn.rest, Success(turn.raw))]
  {
    OneMoreTurn(turns, turn);
    Associative(puts, AllPuts(turns), TurnPut(turn));
    Associative(gots, AllGots(turns), [Got(turn.rest, Success(turn.raw))]);
  }

  lemma LastCall(puts: seq<PutCall>, gots: seq<GotCall>, turns: seq<Turn>)
    requires turns != []
    ensures var init, last := turns[..|turns| - 1], turns[|turns| - 1];
      puts + AllPuts(turns) == (puts + AllPuts(init)) + TurnPut(last)
      && gots + AllGots(turns) == (gots + AllGots(init)) + [Got(last.rest, Success(last.raw))]
  {
    var init, last := turns[..|turns| - 1], turns[|turns| - 1];
    assert turns == init + [last];
    OneMoreCall(puts, gots, init, last);
  }

  lemma TurnEnds(c: Config, w: nat, m: Local, turn: Turn)
    requires m.wk.ses.amf.Listening?
    ensures var recv, send := AmfRecv(turn.rest, turn.raw), AmfSend(turn.after, turn.err);
      Can(m, recv) &&
      var p := Take(c, w, m, recv);
      p.gots == m.gots + [Got(turn.rest, Success(turn.raw))] &&
      if React(turn.raw).None? then p.wk.ses.amf.Listening? && p.puts == m.puts + TurnPut(turn)
      else
        Can(p, send) &&
        var q := Take(c, w, p, send);
        q.wk.ses.amf.Listening? && q.puts == m.puts + TurnPut(turn) && q.gots == p.gots
  {
  }

  lemma TurnSteps(c: Config, w: nat, l: Local, before: seq<Action>, m: Local, turn: Turn)
    returns (steps: seq<Action>, q: Local)
    requires Walk(c, w, l, before) == Some(m) && m.wk.ses.amf.Listening?
    ensures Walk(c, w, l, steps) == Some(q) && q.wk.ses.amf.Listening?
    ensures q.puts == m.puts + TurnPut(turn) && q.gots == m.gots + [Got(turn.rest, Success(turn.raw))]
  {
    var recv := AmfRecv(turn.rest, turn.raw);
    TurnEnds(c, w, m, turn);
    if React(turn.raw).Some? {
      steps, q := TwoOn(c, w, l, before, m, recv, AmfSend(turn.after, turn.err));
    } else {
      WalkOn(c, w, l, before, m, recv);
      steps, q := before + [recv], Take(c, w, m, recv);
    }
  }

  // The turns of the handler loop are steps of its session.
  lemma {:induction false} TurnsWalk(c: Config, w: nat, l: Local, turns: seq<Turn>)
    returns (steps: seq<Action>, q: Local)
    requires l.wk.ses.amf.Listening?
    ensures Walk(c, w, l, steps) == Some(q) && q.wk.ses.amf.Listening?
    ensures q.puts == l.puts + AllPuts(turns) && q.gots == l.gots + AllGots(turns)
    decreases |turns|
  {
    if turns == [] {
      steps, q := [], l;
    } else {
      var init, last := turns[..|turns| - 1], turns[|turns| - 1];
      var before, m := TurnsWalk(c, w, l, init);
      LastCall(l.puts, l.gots, turns);
      steps, q := TurnSteps(c, w, l, before, m, last);
    }
  }

  // One turn of the handler loop: a Recv, and the answer to what it returned.
  method HandleNext(link: Link)
    returns (raw: Result<seq<byte>, ChannelError>, err: Option<ChannelError>, ghost before: Pipe)
    requires link.Valid()
    modifies link, link.inp, link.out, link.conn
    ensures link.Valid() && link.gots == old(link.gots) + [Got(link.In(), raw)]
    ensures Grew(old(link.In()), before) && Takes(link.transport, before, link.In(), raw)
    ensures raw.Failure? ==> link.Out() == old(link.Out()) && link.puts == old(link.puts)
    ensures raw.Success? ==>
      Answered(link.transport, old(link.Out()), link.Out(), raw.value, err)
      && link.puts == old(link.puts) + TurnPut(Turn(raw.value, link.In(), link.Out(), err))
  {
    err := None;
    raw, before := link.Recv();
    if raw.Success? {
      err := Handle(link, raw.value);
    }
  }

  // What the turns so far have put on the link and which calls they have made.
  predicate Heard(t: Transport, start: Pipe, out: Pipe, was: seq<PutCall>, puts: seq<PutCall>,
                  had: seq<GotCall>, gots: seq<GotCall>, turns: seq<Turn>) {
    AllAnswered(t, start, turns) && out == OutOf(start, turns, |turns|)
    && puts == was + AllPuts(turns) && gots == had + AllGots(turns)
  }

  lemma HeardMore(t: Transport, start: Pipe, out: Pipe, was: seq<PutCall>, puts: seq<PutCall>,
                  had: seq<GotCall>, gots: seq<GotCall>, turns: seq<Turn>, turn: Turn)
    requires Heard(t, start, out, was, puts, had, gots, turns) && Answered(t, out, turn.after, turn.raw, turn.err)
    ensures Heard(t, start, turn.after, was, puts + TurnPut(turn), had, gots + [Got(turn.rest, Success(turn.raw))],
                  turns + [turn])
    ensures Raws(turns + [turn]) == Raws(turns) + [turn.raw]
  {
    OneMoreAnswered(t, start, turns, turn);
    OneMoreCall(was, had, turns, turn);
  }

  // One more Recv on what has been read so far: more is everything that has arrived now.
  lemma ReadOn(t: Transport, first: Pipe, all: Pipe, msgs: seq<seq<byte>>, left: Pipe, before: Pipe, after: Pipe,
               res: Result<seq<byte>, ChannelError>) returns (more: Pipe)
    requires Grew(first, all) && PipeReads(t, all, msgs, left) && Grew(left, before) && Takes(t, before, after, res)
    ensures Grew(first, more) && PipeReads(t, more, msgs, before)
    ensures res.Success? ==> PipeReads(t, more, msgs + [res.value], after)
  {
    PipeReadsRecv(t, all, msgs, left, before, after, res);
    more := Extend(all, left, before);
  }

  // The handler loop. rounds is the number of times it passes the ctx.Done check. It stops on cancellation or
  // a failed Recv; all is everything that had arrived, of which it read the messages of turns and left rest.
  method HandleMessages(link: Link, rounds: nat)
    returns (stopped: Option<ChannelError>, ghost all: Pipe, ghost turns: seq<Turn>, ghost rest: Pipe)
    requires link.Valid()
    modifies link, link.inp, link.out, link.conn
    ensures link.Valid() && Grew(old(link.In()), all) && PipeReads(link.transport, all, Raws(turns), rest)
    ensures stopped.None? ==> |turns| == rounds && rest == link.In()
    ensures stopped.Some? ==> |turns| < rounds && Takes(link.transport, rest, link.In(), Failure(stopped.value))
    ensures AllAnswered(link.transport, old(link.Out()), turns) && link.Out() == OutOf(old(link.Out()), turns, |turns|)
    ensures link.puts == old(link.puts) + AllPuts(turns)
    ensures link.gots == old(link.gots) + AllGots(turns) + LastGot(link.In(), stopped)
  {
    ghost var start, was, had, made := link.Out(), link.puts, link.gots, link.gots;
    assert had + [] == had && was + [] == was;
    var round := 0;
    all, turns, rest := link.In(), [], link.In();
    stopped := None;
    while round < rounds && stopped.None?
      invariant link.Valid() && Grew(old(link.In()), all) && PipeReads(link.transport, all, Raws(turns), rest)
      invariant round == |turns| <= rounds
      invariant stopped.None? ==> rest == link.In()
      invariant stopped.Some? ==> round < rounds && Takes(link.transport, rest, link.In(), Failure(stopped.value))
      invariant Heard(link.transport, start, link.Out(), was, link.puts, had, made, turns)
      invariant link.gots == made + LastGot(link.In(), stopped)
      decreases rounds - round, stopped.None?
    {
      var raw, err;
      ghost var out, puts := link.Out(), link.puts;
      ghost var left, before := rest, rest;
      raw, err, before := HandleNext(link);
      all := ReadOn(link.transport, old(link.In()), all, Raws(turns), left, before, link.In(), raw);
      rest := before;
      if raw.Failure? {
        stopped := Some(raw.error);
      } else {
        ghost var turn := Turn(raw.value, link.In(), link.Out(), err);
        HeardMore(link.transport, start, out, was, puts, had, made, turns, turn);
        rest, turns, made := link.In(), turns + [turn], link.gots;
        round := round + 1;
      }
    }
  }

  // The handler loop as steps of its session: it takes the handler's steps until it stops, and the calls of
  // these steps are exactly those it made on the link, but for the Recv that failed. When no Send failed, it
  // has put exactly the echoes of the decodable requests it read.
  method HandleSession(c: Config, w: nat, ghost l: Local, link: Link, rounds: nat)
    returns (stopped: Option<ChannelError>, ghost all: Pipe, ghost turns: seq<Turn>, ghost rest: Pipe,
             ghost steps: seq<Action>)
    requires link.Valid() && l.wk.ses.amf.Listening? && l.puts == link.puts && l.gots == link.gots
    modifies link, link.inp, link.out, link.conn
    ensures link.Valid() && Grew(old(link.In()), all) && PipeReads(link.transport, all, Raws(turns), rest)
    ensures stopped.None? ==> |turns| == rounds && rest == link.In()
    ensures stopped.Some? ==> |turns| < rounds && Takes(link.transport, rest, link.In(), Failure(stopped.value))
    ensures AllAnswered(link.transport, old(link.Out()), turns) && link.Out() == OutOf(old(link.Out()), turns, |turns|)
    ensures NoSendFailed(turns) ==>
      link.Out() == PutAll(link.transport, old(link.Out()), EncodeAll(Echoes(Requests(Decodables(Raws(turns))))))
    ensures Walk(c, w, l, steps).Some?
    ensures HasStopped(Walk(c, w, l, steps).value, link.puts, link.gots, link.In(), stopped)
    ensures link.puts == old(link.puts) + AllPuts(turns)
    ensures link.gots == old(link.gots) + AllGots(turns) + LastGot(link.In(), stopped)
  {
    ghost var start := link.Out();
    stopped, all, turns, rest := HandleMessages(link, rounds);
    LosslessHolds(link.transport, start, turns);
    ghost var m;
    steps, m := StopWalk(c, w, l, turns);
  }

  lemma StopWalk(c: Config, w: nat, l: Local, turns: seq<Turn>) returns (steps: seq<Action>, q: Local)
    requires l.wk.ses.amf.Listening?
    ensures Walk(c, w, l, steps) == Some(q) && q.wk.ses.amf.Stopped?
    ensures q.puts == l.puts + AllPuts(turns) && q.gots == l.gots + AllGots(turns)
  {
    var m;
    steps, m := TurnsWalk(c, w, l, turns);
    WalkOn(c, w, l, steps, m, AmfStop);
    steps, q := steps + [AmfStop], Take(c, w, m, AmfStop);
  }

  // The handler has stopped, after these calls and perhaps one more Recv that failed.
  predicate HasStopped(m: Local, puts: seq<PutCall>, gots: seq<GotCall>, after: Pipe, stopped: Option<ChannelError>) {
    m.wk.ses.amf.Stopped? && puts == m.puts && gots == m.gots + LastGot(after, stopped)
  }

  function LastGot(after: Pipe, stopped: Option<ChannelError>): seq<GotCall> {
    if stopped.Some? then [Got(after, Failure(stopped.value))] else []
  }
}
