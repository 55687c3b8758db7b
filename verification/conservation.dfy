/** Conservation: no request is lost from or added to the books, in any run, at any moment. */
module Conservation {
  import opened Bytes
  import opened Wire
  import opened Stream
  import opened Framing
  import opened Protocol
  import opened Metrics

  function In(pc: PC, ph: Phase): nat {
    if PhaseOf(pc) == ph then 1 else 0
  }

  lemma {:induction false} CountUpdate(ws: seq<Worker>, i: nat, w: Worker, ph: Phase)
    requires i < |ws|
    ensures Count(ws[i := w], ph) == Count(ws, ph) - In(ws[i].pc, ph) + In(w.pc, ph)
  {
    if i == 0 {
      assert ws[i := w][1..] == ws[1..];
    } else {
      CountUpdate(ws[1..], i - 1, w, ph);
      assert ws[i := w][1..] == ws[1..][i - 1 := w];
    }
  }

  lemma {:induction false} PhasesAreDisjoint(ws: seq<Worker>)
    ensures Count(ws, Unsent) + Count(ws, Unanswered) + Count(ws, Unsampled) <= |ws|
  {
    if ws != [] {
      PhasesAreDisjoint(ws[1..]);
    }
  }

  lemma {:induction false} NobodyBusy(ws: seq<Worker>)
    requires forall i :: 0 <= i < |ws| ==> PhaseOf(ws[i].pc) == Quiet
    ensures Count(ws, Unsent) == 0 && Count(ws, Unanswered) == 0 && Count(ws, Unsampled) == 0
  {
    if ws != [] {
      NobodyBusy(ws[1..]);
    }
  }

  // Every request that has been numbered is at one place in the books.
  predicate Balanced(mode: Mode, t: Tally, seqNo: int, unsent: int, unanswered: int, unsampled: int) {
    seqNo == t.tx + t.dropSendErr + unsent &&
    match mode
    case Latency =>
      t.tx == t.rx + t.dropTimeout + t.dropDecode + t.dropMismatch + t.dropOther + unanswered
      && t.rx == |t.latencyUS| + unsampled
    case Flood =>
      t.rx == 0 && t.latencyUS == [] && Drop(t) == t.dropSendErr && unanswered == 0 && unsampled == 0
  }

  predicate RowBalanced(c: Config, r: Row) {
    Balanced(c.mode, r.tally, r.seqNo, r.unsent, r.unanswered, r.unsampled)
    && r.unsent + r.unanswered + r.unsampled <= c.workers
  }

  // The rows recorded so far balance, and no later row shows less than an earlier one.
  predicate RowsGrow(c: Config, rows: seq<Row>, t: Tally) {
    && (forall i :: 0 <= i < |rows| ==> RowBalanced(c, rows[i]) && AtMost(rows[i].tally, t))
    && (forall i, j :: 0 <= i < j < |rows| ==> AtMost(rows[i].tally, rows[j].tally))
  }

  predicate Books(c: Config, s: State) {
    && |s.workers| == c.workers
    && Balanced(c.mode, s.tally, s.seqNo,
                Count(s.workers, Unsent), Count(s.workers, Unanswered), Count(s.workers, Unsampled))
    && (c.mode.Flood? ==> forall w :: 0 <= w < |s.workers| ==> PhaseOf(s.workers[w].pc) in {Quiet, Unsent})
  }

  predicate Ledger(c: Config, s: State) {
    Books(c, s) && RowsGrow(c, s.rows, s.tally)
  }

  lemma InitBooks(c: Config)
    ensures Books(c, Init(c))
  {
    var ws := Init(c).workers;
    assert forall i :: 0 <= i < |ws| ==> ws[i] == Fresh(c.transport);
    NobodyBusy(ws);
  }

  // A step changes the books by what its change of phase means.
  lemma StepBalances(c: Config, w: nat, id: nat, wk: Worker, a: Action, t: Tally,
                                        unsent: int, unanswered: int, unsampled: int)
    requires Ready(wk, a) && (a.Number? ==> id < TWO_64)
    requires Balanced(c.mode, t, id - 1, unsent, unanswered, unsampled)
    requires c.mode.Flood? ==> PhaseOf(wk.pc) in {Quiet, Unsent}
    ensures var now := NextPC(c, w, id, wk, a);
      Balanced(c.mode, Tallied(t, OpOf(wk.pc, a)), if a.Number? then id else id - 1,
               unsent - In(wk.pc, Unsent) + In(now, Unsent),
               unanswered - In(wk.pc, Unanswered) + In(now, Unanswered),
               unsampled - In(wk.pc, Unsampled) + In(now, Unsampled))
      && (c.mode.Flood? ==> PhaseOf(now) in {Quiet, Unsent})
  {
    match a {
      case Recv(_, res) =>
      case _ =>
    }
  }

  lemma WorkKeepsBooks(c: Config, s: State, w: nat, a: Action)
    requires Books(c, s) && Possible(s, Step(w, a))
    ensures Books(c, Protocol.Apply(c, s, Step(w, a)))
  {
    var wk, wk' := s.workers[w], Moved(c, s, w, a);
    StepBalances(c, w, s.seqNo + 1, wk, a, s.tally,
                 Count(s.workers, Unsent), Count(s.workers, Unanswered), Count(s.workers, Unsampled));
    CountUpdate(s.workers, w, wk', Unsent);
    CountUpdate(s.workers, w, wk', Unanswered);
    CountUpdate(s.workers, w, wk', Unsampled);
  }

  lemma TalliesGrow(c: Config, rows: seq<Row>, t: Tally, op: Option<Op>)
    requires RowsGrow(c, rows, t)
    ensures RowsGrow(c, rows, Tallied(t, op))
  {
    assert AtMost(t, Tallied(t, op));
  }

  lemma StepKeepsLedger(c: Config, s: State, e: Event)
    requires Ledger(c, s) && Possible(s, e)
    ensures Ledger(c, Protocol.Apply(c, s, e))
  {
    match e {
      case Observe(_) => PhasesAreDisjoint(s.workers);
      case Step(w, a) =>
        WorkKeepsBooks(c, s, w, a);
        TalliesGrow(c, s.rows, s.tally, OpOf(s.workers[w].pc, a));
    }
  }

  // Every state of every run, at every snapshot taken so far, whatever the channel calls reported.
  lemma {:induction false} AlwaysBalanced(c: Config, es: seq<Event>)
    requires Run(c, es).Some?
    ensures Ledger(c, Run(c, es).value)
    ensures var ws := Run(c, es).value.workers;
      Count(ws, Unsent) + Count(ws, Unanswered) + Count(ws, Unsampled) <= c.workers
    decreases |es|
  {
    PhasesAreDisjoint(Run(c, es).value.workers);
    if es == [] {
      InitBooks(c);
    } else {
      AlwaysBalanced(c, es[..|es| - 1]);
      StepKeepsLedger(c, Run(c, es[..|es| - 1]).value, es[|es| - 1]);
    }
  }

  // A row shows the counters of the moment at which it was taken, and no later step changes it.
  lemma {:induction false} RowShowsItsMoment(c: Config, es: seq<Event>, k: nat)
    requires Run(c, es).Some? && k < |es| && es[k].Observe?
    ensures Run(c, es[..k]).Some?
    ensures var s, rows := Run(c, es[..k]).value, Run(c, es).value.rows;
      |s.rows| < |rows| && rows[|s.rows|].tally == s.tally && rows[|s.rows|].seqNo == s.seqNo
      && rows[|s.rows|].since == es[k].since && rows[..|s.rows|] == s.rows
    decreases |es|
  {
    var init := es[..|es| - 1];
    if k < |es| - 1 {
      RowShowsItsMoment(c, init, k);
      assert init[..k] == es[..k];
    }
  }

  // What the last row shows in each mode.
  predicate Exact(mode: Mode, row: Row) {
    var t := row.tally;
    row.seqNo == t.tx + t.dropSendErr &&
    match mode
    case Latency => t.tx == t.rx + (Drop(t) - t.dropSendErr) && |t.latencyUS| == t.rx
    case Flood => t.rx == 0 && Drop(t) == t.dropSendErr
  }

  lemma FinalBooks(c: Config, s: State, row: Row)
    requires Books(c, s) && AllLeft(s) && row.tally == s.tally && row.seqNo == s.seqNo
    ensures Exact(c.mode, row)
  {
    NobodyBusy(s.workers);
  }

  // The last row is taken after every worker has left, and a worker leaves only at the top of its loop.
  lemma FinalRowExact(c: Config, es: seq<Event>)
    requires Complete(c, es)
    ensures var rows := Run(c, es).value.rows; rows != [] && Exact(c.mode, rows[|rows| - 1])
  {
    var init := es[..|es| - 1];
    var s := Run(c, init).value;
    AlwaysBalanced(c, init);
    FinalBooks(c, s, RowOf(s, es[|es| - 1].since));
  }

  // ---------- Each counter counts its own cause ----------

  // The counters, and the workers that are about to add to one.
  datatype Slot = Nowhere | ToTx | ToSendErr | ToTimeout | ToOther | ToDecode | ToMismatch | ToRx

  function SlotOf(pc: PC): Slot {
    match pc
    case Delivered(_) => ToTx
    case Undelivered => ToSendErr
    case Dropping(why) =>
      (match why
       case TimedOut => ToTimeout case Other => ToOther case Undecodable => ToDecode case Mismatch => ToMismatch)
    case Matched(_) => ToRx
    case _ => Nowhere
  }

  function Counter(t: Tally, slot: Slot): nat {
    match slot
    case Nowhere => 0
    case ToTx => t.tx
    case ToSendErr => t.dropSendErr
    case ToTimeout => t.dropTimeout
    case ToOther => t.dropOther
    case ToDecode => t.dropDecode
    case ToMismatch => t.dropMismatch
    case ToRx => t.rx
  }

  // Whether the message begins with an encoded response that carries the number.
  predicate Answering(raw: seq<byte>, id: uint64) {
    Decode(raw).Success? && Decode(raw).value.msgType == MSG_RESP && Decode(raw).value.seqID == id
  }

  // What a channel call reported to a worker at pc, independently of where it then goes.
  function CauseOf(pc: PC, a: Action): Slot {
    match a
    case Send(_, err) => if err.None? then ToTx else ToSendErr
    case Recv(_, Failure(e)) => if e == StreamError(Timeout) then ToTimeout else ToOther
    case Recv(_, Success(raw)) =>
      if Decode(raw).Failure? then ToDecode
      else if pc.Awaiting? && Answering(raw, pc.req.seqID) then ToRx
      else ToMismatch
    case _ => Nowhere
  }

  function Causes(c: Config, es: seq<Event>, slot: Slot): nat
    requires Run(c, es).Some?
  {
    if es == [] then 0
    else
      var init, e := es[..|es| - 1], es[|es| - 1];
      Causes(c, init, slot)
      + if e.Step? && CauseOf(Run(c, init).value.workers[e.w].pc, e.a) == slot then 1 else 0
  }

  function Held(ws: seq<Worker>, slot: Slot): nat {
    if ws == [] then 0 else (if SlotOf(ws[0].pc) == slot then 1 else 0) + Held(ws[1..], slot)
  }

  lemma {:induction false} HeldUpdate(ws: seq<Worker>, i: nat, w: Worker, slot: Slot)
    requires i < |ws|
    ensures Held(ws[i := w], slot) + (if SlotOf(ws[i].pc) == slot then 1 else 0)
         == Held(ws, slot) + (if SlotOf(w.pc) == slot then 1 else 0)
  {
    if i == 0 {
      assert ws[i := w][1..] == ws[1..];
    } else {
      HeldUpdate(ws[1..], i - 1, w, slot);
      assert ws[i := w][1..] == ws[1..][i - 1 := w];
    }
  }

  lemma {:induction false} NoneHeld(ws: seq<Worker>, slot: Slot)
    requires slot != Nowhere && forall i :: 0 <= i < |ws| ==> SlotOf(ws[i].pc) == Nowhere
    ensures Held(ws, slot) == 0
  {
    if ws != [] {
      NoneHeld(ws[1..], slot);
    }
  }

  lemma StepCounts(c: Config, w: nat, id: nat, wk: Worker, a: Action, t: Tally, slot: Slot)
    requires Ready(wk, a) && (a.Number? ==> id < TWO_64) && slot != Nowhere
    ensures Counter(Tallied(t, OpOf(wk.pc, a)), slot) + (if SlotOf(NextPC(c, w, id, wk, a)) == slot then 1 else 0)
         == Counter(t, slot) + (if SlotOf(wk.pc) == slot then 1 else 0) + (if CauseOf(wk.pc, a) == slot then 1 else 0)
  {
    match a {
      case Recv(_, res) =>
      case _ =>
    }
  }

  lemma StepHolds(c: Config, s: State, w: nat, a: Action, slot: Slot)
    requires Possible(s, Step(w, a)) && slot != Nowhere
    ensures var s' := Protocol.Apply(c, s, Step(w, a));
      Counter(s'.tally, slot) + Held(s'.workers, slot)
      == Counter(s.tally, slot) + Held(s.workers, slot) + (if CauseOf(s.workers[w].pc, a) == slot then 1 else 0)
  {
    StepCounts(c, w, s.seqNo + 1, s.workers[w], a, s.tally, slot);
    HeldUpdate(s.workers, w, Moved(c, s, w, a), slot);
  }

  lemma NothingCounted(c: Config, slot: Slot)
    requires slot != Nowhere
    ensures Counter(Init(c).tally, slot) + Held(Init(c).workers, slot) == 0
  {
    var ws := Init(c).workers;
    assert forall i :: 0 <= i < |ws| ==> ws[i] == Fresh(c.transport);
    NoneHeld(ws, slot);
  }

  // In every run each counter is the number of channel calls that reported its cause, less the workers that
  // have yet to add theirs: sends that succeeded and failed, timeouts, other failures, undecodable replies,
  // replies to the request of the moment, and other decodable messages.
  lemma {:induction false} EveryCounterHasItsCause(c: Config, es: seq<Event>, slot: Slot)
    requires Run(c, es).Some? && slot != Nowhere
    ensures var s := Run(c, es).value; Counter(s.tally, slot) + Held(s.workers, slot) == Causes(c, es, slot)
    decreases |es|
  {
    if es == [] {
      NothingCounted(c, slot);
    } else {
      EveryCounterHasItsCause(c, es[..|es| - 1], slot);
      var s, e := Run(c, es[..|es| - 1]).value, es[|es| - 1];
      if e.Step? {
        StepHolds(c, s, e.w, e.a, slot);
      }
    }
  }

  // In the last row each counter is exactly the number of calls that reported its cause.
  lemma FinalCauses(c: Config, es: seq<Event>, slot: Slot)
    requires Complete(c, es) && slot != Nowhere
    ensures var rows := Run(c, es).value.rows;
      rows != [] && Counter(rows[|rows| - 1].tally, slot) == Causes(c, es, slot)
  {
    EveryCounterHasItsCause(c, es, slot);
    NoneHeld(Run(c, es).value.workers, slot);
  }

  // A decodable reply is Rx exactly when it is a response that carries the number of the current request.
  lemma JudgeIff(raw: seq<byte>, next: uint64)
    ensures Judge(raw, next).Matched? <==>
      exists f, t :: Encodable(f) && raw == Encoded(f) + t && f.msgType == MSG_RESP && f.seqID == next
    ensures forall f, t | Encodable(f) && raw == Encoded(f) + t && f.msgType == MSG_RESP && f.seqID == next ::
      Judge(raw, next) == Matched(f)
    ensures Judge(raw, next) == Dropping(Undecodable) <==> !exists f, t :: Encodable(f) && raw == Encoded(f) + t
    ensures Judge(raw, next).Matched? || Judge(raw, next) in {Dropping(Undecodable), Dropping(Mismatch)}
  {
    DecodableIff(raw);
    if f, t :| Encodable(f) && raw == Encoded(f) + t {
      forall g, u | Encodable(g) && raw == Encoded(g) + u
        ensures Decode(raw) == Success(g)
      {
        DecodeEncode(g, u);
      }
    }
  }
}
