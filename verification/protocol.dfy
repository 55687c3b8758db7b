/**
 The closed loop as a transition system: workers that share one sequence counter and one collector,
 each with its own session to an AMF handler. A Send takes effect when it starts and a Recv when it
 ends; every other shared access is one step. Any interleaving of the steps is a run, whatever the
 channel calls report; a run is faithful when every call has one of the effects that the channel
 methods promise (Pipes.Puts, Pipes.Takes).
 */
module Protocol {
  import opened Bytes
  import opened Wire
  import opened Stream
  import opened Framing
  import opened Pipes
  import Amf
  import Metrics

  datatype Mode = Latency | Flood

  datatype Config = Config(transport: Transport, mode: Mode, payload: seq<byte>, workers: nat, channelCount: int)

  datatype Why = TimedOut | Other | Undecodable | Mismatch

  // Where a worker goroutine is; id and the frames are its local variables next, frm and resp, and now is
  // the time it has read for its latency sample.
  datatype PC =
    | Opening
    | Idle
    | Drawn(id: uint64)
    | Numbered(req: Frame)
    | Delivered(req: Frame)
    | Undelivered
    | Awaiting(req: Frame)
    | Dropping(why: Why)
    | Matched(resp: Frame)
    | Counted(resp: Frame)
    | Timed(resp: Frame, now: int64)
    | Left

  datatype Handler = Listening | Replying(buf: seq<byte>, of: nat) | Stopped

  // What is in flight in each direction and the AMF handler. History: the requests whose Send returned
  // nil, how many messages the handler has read, the requests it has answered, and the replies received.
  datatype Session = Session(
    c2s: Pipe, s2c: Pipe, amf: Handler,
    sent: seq<Frame>, handled: nat, echoed: seq<nat>, recvd: nat)

  datatype Worker = Worker(pc: PC, ses: Session)

  datatype Issue = Issue(w: nat, stamp: Option<int64>)
  datatype Hit = Hit(w: nat, resp: Frame)
  datatype Sampled = Sampled(w: nat, resp: Frame, now: int64)

  // A snapshot of the collector, with what the rest of the state was at that moment.
  datatype Row = Row(tally: Metrics.Tally, since: int, seqNo: nat, unsent: nat, unanswered: nat, unsampled: nat)

  // clock is the last time that was read. History: issued[i] is the worker that drew number i+1 and the
  // timestamp it then put on its frame; hits are the counted replies, sampled the latency samples.
  datatype State = State(
    seqNo: nat, clock: int64, tally: Metrics.Tally, workers: seq<Worker>,
    rows: seq<Row>, issued: seq<Issue>, hits: seq<Hit>, sampled: seq<Sampled>)

  // One step of one worker or of its handler, with what the channel call reported and left in the pipe.
  datatype Action =
    | Open(ok: bool)
    | Leave
    | Number
    | Stamp(now: int64)
    | Send(after: Pipe, err: Option<ChannelError>)
    | CountSend
    | Recv(after: Pipe, res: Result<seq<byte>, ChannelError>)
    | CountDrop
    | CountRx
    | Measure(now: int64)
    | Sample
    | AmfRecv(after: Pipe, raw: seq<byte>)
    | AmfSend(after: Pipe, err: Option<ChannelError>)
    | AmfStop

  // since is the time the snapshot divides by.
  datatype Event = Step(w: nat, a: Action) | Observe(since: int)

  function Fresh(t: Transport): Worker {
    Worker(Opening, Session(Content(t, []), Content(t, []), Listening, [], 0, [], 0))
  }

  function Init(c: Config): State {
    State(0, 0, Metrics.EMPTY, seq(c.workers, _ => Fresh(c.transport)), [], [], [], [])
  }

  // w % n by repeated subtraction.
  function Remainder(w: nat, n: nat): nat
    requires n > 0
  {
    if w < n then w else Remainder(w - n, n)
  }

  lemma {:induction false} Quotient(w: nat, n: nat) returns (k: nat)
    requires n > 0
    ensures w == k * n + Remainder(w, n) && Remainder(w, n) < n
  {
    if w < n {
      k := 0;
    } else {
      k := Quotient(w - n, n);
      assert (k + 1) * n == k * n + n;
      k := k + 1;
    }
  }

  lemma RemainderIs(w: nat, n: nat)
    requires n > 0
    ensures Remainder(w, n) == w % n
  {
    var k := Quotient(w, n);
    OneDivision(k, Remainder(w, n), w / n, w % n, n);
  }

  function ChannelOf(c: Config, w: nat): uint16 {
    Remainder(w, if c.channelCount > 1 then c.channelCount else 1) % TWO_16
  }

  function Request(c: Config, w: nat, id: uint64, now: int64): Frame {
    Frame(if c.mode.Latency? then MSG_REQ else MSG_FLOOD, id, now, ChannelOf(c, w), c.payload)
  }

  predicate IsTimeoutError(e: ChannelError) {
    e == StreamError(Timeout)
  }

  // What a worker makes of a received message while it waits for the reply to request next.
  function Judge(raw: seq<byte>, next: uint64): PC {
    match Decode(raw)
    case Failure(_) => Dropping(Undecodable)
    case Success(resp) =>
      if resp.msgType != MSG_RESP || resp.seqID != next then Dropping(Mismatch) else Matched(resp)
  }

  // time.Since saturates at the ends of the int64 range.
  function Since(now: int64, then_: int64): int64 {
    if now - then_ >= TWO_63 then TWO_63 - 1 else if now - then_ < -TWO_63 then -TWO_63 else now - then_
  }

  // A sample of the time from then_ to now: whole microseconds, truncated toward zero, of a difference that
  // saturates at the ends of the int64 range.
  predicate Measures(us: int, now: int64, then_: int64) {
    var d := now - then_;
    && (0 <= d < TWO_63 ==> 1000 * us <= d < 1000 * us + 1000)
    && (-TWO_63 <= d < 0 ==> 1000 * us - 1000 < d <= 1000 * us)
    && (d >= TWO_63 ==> 1000 * us <= TWO_63 - 1 < 1000 * us + 1000)
    && (d < -TWO_63 ==> 1000 * us - 1000 < -TWO_63 <= 1000 * us)
  }

  lemma SampleMeasures(now: int64, then_: int64)
    ensures Measures(Metrics.Microseconds(Since(now, then_)), now, then_)
  {
  }

  // ---------- Phases of the conservation laws ----------

  datatype Phase = Quiet | Unsent | Unanswered | Unsampled

  function PhaseOf(pc: PC): Phase {
    match pc
    case Drawn(_) => Unsent
    case Numbered(_) => Unsent
    case Delivered(_) => Unsent
    case Undelivered => Unsent
    case Awaiting(_) => Unanswered
    case Dropping(_) => Unanswered
    case Matched(_) => Unanswered
    case Counted(_) => Unsampled
    case Timed(_, _) => Unsampled
    case _ => Quiet
  }

  function Count(ws: seq<Worker>, ph: Phase): (n: nat)
    ensures n <= |ws|
  {
    if ws == [] then 0 else (if PhaseOf(ws[0].pc) == ph then 1 else 0) + Count(ws[1..], ph)
  }

  // ---------- Steps ----------

  // Where the goroutine or the handler must be to take the step.
  predicate Ready(wk: Worker, a: Action) {
    match a
    case Open(_) => wk.pc.Opening?
    case Leave => wk.pc.Idle?
    case Number => wk.pc.Idle?
    case Stamp(_) => wk.pc.Drawn?
    case Send(_, _) => wk.pc.Numbered?
    case CountSend => wk.pc.Delivered? || wk.pc.Undelivered?
    case Recv(_, _) => wk.pc.Awaiting?
    case CountDrop => wk.pc.Dropping?
    case CountRx => wk.pc.Matched?
    case Measure(_) => wk.pc.Counted?
    case Sample => wk.pc.Timed?
    case AmfRecv(_, _) => wk.ses.amf.Listening?
    case AmfSend(_, _) => wk.ses.amf.Replying?
    case AmfStop => wk.ses.amf.Listening?
  }

  // What the channel may report: exactly what Send and Recv promise.
  predicate Allowed(t: Transport, wk: Worker, a: Action)
    requires Ready(wk, a)
  {
    match a
    case Send(after, err) => Puts(t, wk.ses.c2s, after, EncodeDiscardingError(wk.pc.req), err)
    case Recv(after, res) => Takes(t, wk.ses.s2c, after, res)
    case AmfRecv(after, raw) => Takes(t, wk.ses.c2s, after, Success(raw))
    case AmfSend(after, err) => Puts(t, wk.ses.s2c, after, wk.ses.amf.buf, err)
    case _ => true
  }

  // There are fewer than 2^64 requests.
  predicate InRange(seqNo: nat, a: Action) {
    a.Number? ==> seqNo + 1 < TWO_64
  }

  // A reading of the clock is not before the last one.
  predicate Timely(clock: int64, a: Action) {
    match a
    case Stamp(now) => clock <= now
    case Measure(now) => clock <= now
    case _ => true
  }

  // What the step needs of the worker and the shared state.
  predicate Possible(s: State, e: Event) {
    match e
    case Observe(_) => true
    case Step(w, a) => w < |s.workers| && Ready(s.workers[w], a) && InRange(s.seqNo, a)
  }

  // The collector call the step makes, if any.
  function OpOf(pc: PC, a: Action): Option<Metrics.Op> {
    match a
    case CountSend => Some(if pc.Undelivered? then Metrics.AddDropSendErr(1) else Metrics.AddTx(1))
    case CountDrop =>
      if !pc.Dropping? then None
      else Some(match pc.why
        case TimedOut => Metrics.AddDropTimeout(1)
        case Other => Metrics.AddDrop(1)
        case Undecodable => Metrics.AddDropDecode(1)
        case Mismatch => Metrics.AddDropMismatch(1))
    case CountRx => Some(Metrics.AddRx(1))
    case Sample => if pc.Timed? then Some(Metrics.AddLatency(Since(pc.now, pc.resp.sendTSNS))) else None
    case _ => None
  }

  // Where the goroutine goes; id is the number seq.Add would return.
  function NextPC(c: Config, w: nat, id: nat, wk: Worker, a: Action): PC
    requires Ready(wk, a) && (a.Number? ==> id < TWO_64)
  {
    match a
    case Open(ok) => if ok then Idle else Left
    case Leave => Left
    case Number => Drawn(id)
    case Stamp(now) => Numbered(Request(c, w, wk.pc.id, now))
    case Send(_, err) => if err.None? then Delivered(wk.pc.req) else Undelivered
    case CountSend => if wk.pc.Delivered? && c.mode.Latency? then Awaiting(wk.pc.req) else Idle
    case Recv(_, Failure(err)) => Dropping(if IsTimeoutError(err) then TimedOut else Other)
    case Recv(_, Success(raw)) => Judge(raw, wk.pc.req.seqID)
    case CountDrop => Idle
    case CountRx => Counted(wk.pc.resp)
    case Measure(now) => Timed(wk.pc.resp, now)
    case Sample => Idle
    case _ => wk.pc
  }

  function NextSession(wk: Worker, a: Action): Session
    requires Ready(wk, a)
  {
    var ses := wk.ses;
    match a
    case Send(after, err) =>
      ses.(c2s := after, sent := if err.None? then ses.sent + [wk.pc.req] else ses.sent)
    case Recv(after, res) =>
      ses.(s2c := after, recvd := if res.Success? then ses.recvd + 1 else ses.recvd)
    case AmfRecv(after, raw) =>
      ses.(c2s := after, handled := ses.handled + 1,
           amf := match Amf.React(raw) case Some(buf) => Replying(buf, ses.handled) case None => Listening)
    case AmfSend(after, err) =>
      ses.(s2c := after, amf := Listening,
           echoed := if err.None? then ses.echoed + [ses.amf.of] else ses.echoed)
    case AmfStop => ses.(amf := Stopped)
    case _ => ses
  }

  function Moved(c: Config, s: State, w: nat, a: Action): Worker
    requires Possible(s, Step(w, a))
  {
    Worker(NextPC(c, w, s.seqNo + 1, s.workers[w], a), NextSession(s.workers[w], a))
  }

  function Tallied(t: Metrics.Tally, op: Option<Metrics.Op>): Metrics.Tally {
    match op
    case None => t
    case Some(o) => Metrics.Apply(t, o)
  }

  // The history of numbers: a new one is noted when it is drawn, its timestamp when it is stamped.
  function Noted(issued: seq<Issue>, w: nat, pc: PC, a: Action): seq<Issue> {
    match a
    case Number => issued + [Issue(w, None)]
    case Stamp(now) => if pc.Drawn? && 1 <= pc.id <= |issued| then issued[pc.id - 1 := Issue(w, Some(now))] else issued
    case _ => issued
  }

  function RowOf(s: State, since: int): Row {
    Row(s.tally, since, s.seqNo, Count(s.workers, Unsent), Count(s.workers, Unanswered), Count(s.workers, Unsampled))
  }

  function Apply(c: Config, s: State, e: Event): State
    requires Possible(s, e)
  {
    match e
    case Observe(since) => s.(rows := s.rows + [RowOf(s, since)])
    case Step(w, a) =>
      var wk := s.workers[w];
      State(
        if a.Number? then s.seqNo + 1 else s.seqNo,
        if a.Stamp? || a.Measure? then a.now else s.clock,
        Tallied(s.tally, OpOf(wk.pc, a)),
        s.workers[w := Moved(c, s, w, a)],
        s.rows,
        Noted(s.issued, w, wk.pc, a),
        if a.CountRx? then s.hits + [Hit(w, wk.pc.resp)] else s.hits,
        if a.Sample? then s.sampled + [Sampled(w, wk.pc.resp, wk.pc.now)] else s.sampled)
  }

  // ---------- Runs ----------

  function RunFrom(c: Config, s: State, es: seq<Event>): Option<State> {
    if es == [] then Some(s)
    else
      var before := RunFrom(c, s, es[..|es| - 1]);
      if before.Some? && Possible(before.value, es[|es| - 1]) then Some(Apply(c, before.value, es[|es| - 1])) else None
  }

  // Every interleaving, with any result of any channel call and any readings of the clock: nothing at all is
  // assumed of the transport and of the time.
  function Run(c: Config, es: seq<Event>): Option<State> {
    RunFrom(c, Init(c), es)
  }

  // Every channel call of the run has done what the channel methods promise.
  predicate Faithful(c: Config, es: seq<Event>)
    requires Run(c, es).Some?
  {
    es == [] ||
    var init, e := es[..|es| - 1], es[|es| - 1];
    Faithful(c, init) && (e.Step? ==> Allowed(c.transport, Run(c, init).value.workers[e.w], e.a))
  }

  // The clock has never been set back.
  predicate Steady(c: Config, es: seq<Event>)
    requires Run(c, es).Some?
  {
    es == [] ||
    var init, e := es[..|es| - 1], es[|es| - 1];
    Steady(c, init) && (e.Step? ==> Timely(Run(c, init).value.clock, e.a))
  }

  predicate AllLeft(s: State) {
    forall w :: 0 <= w < |s.workers| ==> s.workers[w].pc.Left?
  }

  // A whole run of RunLatency or RunFlood: wg.Wait has returned and the last row has been taken.
  predicate Complete(c: Config, es: seq<Event>) {
    es != [] && es[|es| - 1].Observe? && Run(c, es).Some? && AllLeft(Run(c, es).value)
  }
}
