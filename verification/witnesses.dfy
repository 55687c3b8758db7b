/**
 Runs of one session, built round by round: every payload that the transport carries is answered in some run.
 */
module Witnesses {
  import opened Bytes
  import opened Wire
  import opened Stream
  import opened Framing
  import opened SctpChannel
  import opened Pipes
  import opened Protocol
  import opened Attribution
  import opened EndToEnd
  import opened Solo
  import Amf

  // ---------- Building runs ----------

  // Every step is one that the channel and a clock that is not set back allow.
  predicate Good(c: Config, w: nat, steps: seq<Action>)
    requires Walk(c, w, Start(c.transport), steps).Some?
  {
    steps == [] ||
    var init, a := steps[..|steps| - 1], steps[|steps| - 1];
    var m := Walk(c, w, Start(c.transport), init).value;
    Good(c, w, init) && Allowed(c.transport, m.wk, a) && Timely(m.clock, a)
  }

  // The steps that failed and moved something.
  function Dirty(c: Config, w: nat, steps: seq<Action>): seq<Action>
    requires Walk(c, w, Start(c.transport), steps).Some?
  {
    if steps == [] then []
    else
      var init, a := steps[..|steps| - 1], steps[|steps| - 1];
      Dirty(c, w, init) + if Clean(Walk(c, w, Start(c.transport), init).value.wk.ses, a) then [] else [a]
  }

  // The steps lead to m, and bad are those that failed and moved something.
  predicate Reaches(c: Config, w: nat, steps: seq<Action>, m: Local, bad: seq<Action>) {
    Walk(c, w, Start(c.transport), steps) == Some(m) && Good(c, w, steps) && Dirty(c, w, steps) == bad
  }

  // The same; written so that the proofs about rounds, which only add steps, do not retrace the walk.
  ghost predicate Leads(c: Config, w: nat, steps: seq<Action>, m: Local, bad: seq<Action>) {
    forall all: seq<Action> :: all == steps ==> Reaches(c, w, all, m, bad)
  }

  predicate Next(c: Config, m: Local, a: Action) {
    Can(m, a) && Allowed(c.transport, m.wk, a) && Timely(m.clock, a)
  }

  lemma LeadsOn(c: Config, w: nat, steps: seq<Action>, m: Local, bad: seq<Action>, a: Action)
    requires Leads(c, w, steps, m, bad) && Next(c, m, a)
    ensures Leads(c, w, steps + [a], Take(c, w, m, a), if Clean(m.wk.ses, a) then bad else bad + [a])
  {
    assert Reaches(c, w, steps, m, bad);
    WalkOn(c, w, Start(c.transport), steps, m, a);
    assert (steps + [a])[..|steps|] == steps;
  }

  // One more step of a run.
  lemma RunOn(c: Config, es: seq<Event>, s: State, w: nat, a: Action)
    requires Run(c, es) == Some(s) && Possible(s, Step(w, a))
    ensures Run(c, es + [Step(w, a)]) == Some(Protocol.Apply(c, s, Step(w, a)))
  {
    assert (es + [Step(w, a)])[..|es|] == es;
  }

  lemma FaithfulOn(c: Config, es: seq<Event>, s: State, w: nat, a: Action)
    requires Run(c, es) == Some(s) && Run(c, es + [Step(w, a)]).Some? && w < |s.workers| && Ready(s.workers[w], a)
    requires Faithful(c, es) && Allowed(c.transport, s.workers[w], a)
    ensures Faithful(c, es + [Step(w, a)])
  {
    assert (es + [Step(w, a)])[..|es|] == es;
  }

  lemma SteadyOn(c: Config, es: seq<Event>, s: State, w: nat, a: Action)
    requires Run(c, es) == Some(s) && Run(c, es + [Step(w, a)]).Some?
    requires Steady(c, es) && Timely(s.clock, a)
    ensures Steady(c, es + [Step(w, a)])
  {
    assert (es + [Step(w, a)])[..|es|] == es;
  }

  lemma UncleanOn(c: Config, es: seq<Event>, s: State, w: nat, a: Action)
    requires Run(c, es) == Some(s) && Run(c, es + [Step(w, a)]).Some? && w < |s.workers|
    ensures Unclean(c, es + [Step(w, a)]) == Unclean(c, es) + if Clean(s.workers[w].ses, a) then [] else [a]
  {
    assert (es + [Step(w, a)])[..|es|] == es;
  }

  // The steps of one session that lead somewhere are a faithful and steady run of the system.
  lemma {:induction false} ReachesIsRun(c: Config, w: nat, steps: seq<Action>, m: Local, bad: seq<Action>)
    requires w < c.workers && Reaches(c, w, steps, m, bad)
    ensures var es := StepsOf(w, steps);
      Run(c, es).Some? && Faithful(c, es) && Steady(c, es) && Unclean(c, es) == bad
      && |Run(c, es).value.workers| == c.workers && View(Run(c, es).value, w, m) == m
    decreases |steps|
  {
    WalkFromStart(c, w, steps, m);
    if steps != [] {
      var init, a := steps[..|steps| - 1], steps[|steps| - 1];
      var before := Walk(c, w, Start(c.transport), init).value;
      ReachesIsRun(c, w, init, before, Dirty(c, w, init));
      StepsOfLast(w, steps);
      var es, s := StepsOf(w, init), Run(c, StepsOf(w, init)).value;
      SoloStepIsSystemStep(c, s, w, before, a);
      RunOn(c, es, s, w, a);
      FaithfulOn(c, es, s, w, a);
      SteadyOn(c, es, s, w, a);
      UncleanOn(c, es, s, w, a);
    }
  }

  lemma LeadsIsRun(c: Config, w: nat, steps: seq<Action>, m: Local, bad: seq<Action>)
    requires w < c.workers && Leads(c, w, steps, m, bad)
    ensures var es := StepsOf(w, steps);
      Run(c, es).Some? && Faithful(c, es) && Steady(c, es) && Unclean(c, es) == bad
      && |Run(c, es).value.workers| == c.workers && View(Run(c, es).value, w, m) == m
  {
    assert Reaches(c, w, steps, m, bad);
    ReachesIsRun(c, w, steps, m, bad);
  }

  // ---------- Rounds ----------

  lemma OpenedLeads(c: Config, w: nat) returns (steps: seq<Action>)
    ensures Leads(c, w, steps, Opened(c.transport), [])
  {
    assert Reaches(c, w, [], Start(c.transport), []);
    assert Take(c, w, Start(c.transport), Open(true)) == Opened(c.transport);
    LeadsOn(c, w, [], Start(c.transport), [], Open(true));
    steps := [] + [Open(true)];
  }

  // The worker has drawn its next number and stamped the frame.
  function AfterStamp(c: Config, w: nat, m: Local, now: int64): Local
    requires m.seqNo + 1 < TWO_64
  {
    m.(wk := m.wk.(pc := Numbered(Request(c, w, m.seqNo + 1, now))), seqNo := m.seqNo + 1, clock := now)
  }

  lemma StampPoint(c: Config, w: nat, m: Local, now: int64)
    requires m.wk.pc.Idle? && m.seqNo + 1 < TWO_64 && m.clock <= now
    ensures Next(c, m, Number) && Next(c, Take(c, w, m, Number), Stamp(now))
    ensures Take(c, w, Take(c, w, m, Number), Stamp(now)) == AfterStamp(c, w, m, now)
  {
  }

  lemma StampRound(c: Config, w: nat, before: seq<Action>, m: Local, bad: seq<Action>, now: int64)
    returns (steps: seq<Action>)
    requires Leads(c, w, before, m, bad) && m.wk.pc.Idle? && m.seqNo + 1 < TWO_64 && m.clock <= now
    ensures Leads(c, w, steps, AfterStamp(c, w, m, now), bad)
  {
    StampPoint(c, w, m, now);
    LeadsOn(c, w, before, m, bad, Number);
    LeadsOn(c, w, before + [Number], Take(c, w, m, Number), bad, Stamp(now));
    steps := before + [Number] + [Stamp(now)];
  }

  // The session has the given pipes, the handler listens, and n numbers have been drawn.
  predicate Stands(m: Local, pc: PC, n: nat, now: int64, c2s: Pipe, s2c: Pipe) {
    m.wk.pc == pc && m.seqNo == n && m.clock == now && m.wk.ses.c2s == c2s && m.wk.ses.s2c == s2c
    && m.wk.ses.amf.Listening?
  }

  predicate LastSent(m: Local, f: Frame) {
    m.wk.ses.sent != [] && m.wk.ses.sent[|m.wk.ses.sent| - 1] == f
  }

  lemma SendPoint(c: Config, w: nat, m: Local, after: Pipe, err: Option<ChannelError>) returns (q: Local)
    requires m.wk.pc.Numbered? && m.wk.ses.amf.Listening? && Next(c, m, Send(after, err)) && c.mode.Latency?
    ensures var p := Take(c, w, m, Send(after, err)); Next(c, p, CountSend) && q == Take(c, w, p, CountSend)
    ensures Stands(q, if err.None? then Awaiting(m.wk.pc.req) else Idle, m.seqNo, m.clock, after, m.wk.ses.s2c)
    ensures err.None? ==> LastSent(q, m.wk.pc.req)
  {
    q := Take(c, w, Take(c, w, m, Send(after, err)), CountSend);
  }

  // One turn of the worker's loop up to the count of its Send.
  lemma SendRound(c: Config, w: nat, before: seq<Action>, m: Local, bad: seq<Action>, now: int64, after: Pipe,
                  err: Option<ChannelError>) returns (steps: seq<Action>, q: Local, worse: seq<Action>)
    requires Leads(c, w, before, m, bad) && m.wk.pc.Idle? && m.wk.ses.amf.Listening? && c.mode.Latency?
    requires m.seqNo + 1 < TWO_64 && m.clock <= now
    requires Puts(c.transport, m.wk.ses.c2s, after, EncodeDiscardingError(Request(c, w, m.seqNo + 1, now)), err)
    ensures var req := Request(c, w, m.seqNo + 1, now);
      Leads(c, w, steps, q, worse) && (err.None? ==> LastSent(q, req))
      && Stands(q, if err.None? then Awaiting(req) else Idle, m.seqNo + 1, now, after, m.wk.ses.s2c)
    ensures worse == if err.None? || after == m.wk.ses.c2s then bad else bad + [Send(after, err)]
  {
    steps := StampRound(c, w, before, m, bad, now);
    var p, send := AfterStamp(c, w, m, now), Action.Send(after, err);
    assert p.wk.pc.req == Request(c, w, m.seqNo + 1, now) && p.wk.ses == m.wk.ses;
    LeadsOn(c, w, steps, p, bad, send);
    worse := if Clean(p.wk.ses, send) then bad else bad + [send];
    q := SendPoint(c, w, p, after, err);
    LeadsOn(c, w, steps + [send], Take(c, w, p, send), worse, CountSend);
    steps := steps + [send] + [CountSend];
  }

  function AfterHandling(m: Local, rest: Pipe, raw: seq<byte>, buf: seq<byte>): Worker {
    m.wk.(ses := m.wk.ses.(c2s := rest, handled := m.wk.ses.handled + 1, amf := Replying(buf, m.wk.ses.handled)))
  }

  lemma HandlePoint(c: Config, w: nat, m: Local, rest: Pipe, raw: seq<byte>, buf: seq<byte>) returns (q: Local)
    requires m.wk.ses.amf.Listening? && Amf.React(raw) == Some(buf)
    requires Takes(c.transport, m.wk.ses.c2s, rest, Success(raw))
    ensures Next(c, m, AmfRecv(rest, raw)) && q == Take(c, w, m, AmfRecv(rest, raw))
    ensures q.wk == AfterHandling(m, rest, raw, buf) && q.seqNo == m.seqNo && q.clock == m.clock
  {
    q := Take(c, w, m, AmfRecv(rest, raw));
  }

  lemma ReplyPoint(c: Config, w: nat, m: Local, after: Pipe, err: Option<ChannelError>) returns (q: Local)
    requires m.wk.ses.amf.Replying? && Puts(c.transport, m.wk.ses.s2c, after, m.wk.ses.amf.buf, err)
    ensures Next(c, m, AmfSend(after, err)) && q == Take(c, w, m, AmfSend(after, err))
    ensures Stands(q, m.wk.pc, m.seqNo, m.clock, m.wk.ses.c2s, after) && q.wk.ses.sent == m.wk.ses.sent
  {
    q := Take(c, w, m, AmfSend(after, err));
  }

  // The handler reads one message, leaving rest, and answers it.
  lemma EchoRound(c: Config, w: nat, before: seq<Action>, m: Local, bad: seq<Action>, rest: Pipe, raw: seq<byte>,
                  buf: seq<byte>, after: Pipe, err: Option<ChannelError>)
    returns (steps: seq<Action>, q: Local, worse: seq<Action>)
    requires Leads(c, w, before, m, bad) && m.wk.ses.amf.Listening?
    requires Takes(c.transport, m.wk.ses.c2s, rest, Success(raw)) && Amf.React(raw) == Some(buf)
    requires Puts(c.transport, m.wk.ses.s2c, after, buf, err)
    ensures Leads(c, w, steps, q, worse) && Stands(q, m.wk.pc, m.seqNo, m.clock, rest, after)
    ensures q.wk.ses.sent == m.wk.ses.sent
    ensures worse == if err.None? || after == m.wk.ses.s2c then bad else bad + [AmfSend(after, err)]
  {
    var recv, send := AmfRecv(rest, raw), AmfSend(after, err);
    var p := HandlePoint(c, w, m, rest, raw, buf);
    LeadsOn(c, w, before, m, bad, recv);
    steps := before + [recv];
    q := ReplyPoint(c, w, p, after, err);
    LeadsOn(c, w, steps, p, bad, send);
    worse := if Clean(p.wk.ses, send) then bad else bad + [send];
    steps := steps + [send];
  }

  lemma RecvPoint(c: Config, w: nat, m: Local, after: Pipe, res: Result<seq<byte>, ChannelError>) returns (q: Local)
    requires m.wk.pc.Awaiting? && m.wk.ses.amf.Listening? && Takes(c.transport, m.wk.ses.s2c, after, res)
    ensures Next(c, m, Recv(after, res)) && q == Take(c, w, m, Recv(after, res)) && q.wk.ses.sent == m.wk.ses.sent
    ensures var pc := match res
        case Success(raw) => Judge(raw, m.wk.pc.req.seqID)
        case Failure(e) => Dropping(if IsTimeoutError(e) then TimedOut else Other);
      Stands(q, pc, m.seqNo, m.clock, m.wk.ses.c2s, after)
  {
    q := Take(c, w, m, Recv(after, res));
  }

  const TIMED_OUT: ChannelError := StreamError(Timeout)

  lemma DropPoint(c: Config, w: nat, m: Local) returns (q: Local)
    requires m.wk.pc.Dropping? && m.wk.ses.amf.Listening?
    ensures Next(c, m, CountDrop) && q == Take(c, w, m, CountDrop)
    ensures Stands(q, Idle, m.seqNo, m.clock, m.wk.ses.c2s, m.wk.ses.s2c)
  {
    q := Take(c, w, m, CountDrop);
  }

  // The worker's Recv times out.
  lemma LostRound(c: Config, w: nat, before: seq<Action>, m: Local, bad: seq<Action>, after: Pipe)
    returns (steps: seq<Action>, q: Local, worse: seq<Action>)
    requires Leads(c, w, before, m, bad) && m.wk.pc.Awaiting? && m.wk.ses.amf.Listening?
    requires Takes(c.transport, m.wk.ses.s2c, after, Failure(TIMED_OUT))
    ensures Leads(c, w, steps, q, worse) && Stands(q, Idle, m.seqNo, m.clock, m.wk.ses.c2s, after)
    ensures worse == if after == m.wk.ses.s2c then bad else bad + [Recv(after, Failure(TIMED_OUT))]
  {
    var lost := Action.Recv(after, Failure(TIMED_OUT));
    var p := RecvPoint(c, w, m, after, Failure(TIMED_OUT));
    LeadsOn(c, w, before, m, bad, lost);
    worse := if Clean(m.wk.ses, lost) then bad else bad + [lost];
    steps := before + [lost];
    q := DropPoint(c, w, p);
    LeadsOn(c, w, steps, p, worse, CountDrop);
    steps := steps + [CountDrop];
  }

  // The worker's Recv returns a reply that it accepts.
  lemma MatchedRound(c: Config, w: nat, before: seq<Action>, m: Local, bad: seq<Action>, after: Pipe, raw: seq<byte>,
                     resp: Frame) returns (steps: seq<Action>, q: Local)
    requires Leads(c, w, before, m, bad) && m.wk.pc.Awaiting? && m.wk.ses.amf.Listening?
    requires Takes(c.transport, m.wk.ses.s2c, after, Success(raw)) && Judge(raw, m.wk.pc.req.seqID) == Matched(resp)
    ensures Leads(c, w, steps, q, bad) && Stands(q, Matched(resp), m.seqNo, m.clock, m.wk.ses.c2s, after)
    ensures q.wk.ses.sent == m.wk.ses.sent
  {
    q := RecvPoint(c, w, m, after, Success(raw));
    LeadsOn(c, w, before, m, bad, Action.Recv(after, Success(raw)));
    steps := before + [Action.Recv(after, Success(raw))];
  }

  lemma SamplePoint(c: Config, w: nat, m: Local) returns (p: Local, r: Local, q: Local)
    requires m.wk.pc.Matched? && m.wk.ses.amf.Listening?
    ensures Next(c, m, CountRx) && p == Take(c, w, m, CountRx)
    ensures Next(c, p, Measure(m.clock)) && r == Take(c, w, p, Measure(m.clock))
    ensures Next(c, r, Sample) && q == Take(c, w, r, Sample)
    ensures Stands(q, Idle, m.seqNo, m.clock, m.wk.ses.c2s, m.wk.ses.s2c)
  {
    p := Take(c, w, m, CountRx);
    r := Take(c, w, p, Measure(m.clock));
    q := Take(c, w, r, Sample);
  }

  // The accepted reply is counted and sampled.
  lemma SampledRound(c: Config, w: nat, before: seq<Action>, m: Local, bad: seq<Action>)
    returns (steps: seq<Action>, q: Local)
    requires Leads(c, w, before, m, bad) && m.wk.pc.Matched? && m.wk.ses.amf.Listening?
    ensures Leads(c, w, steps, q, bad) && Stands(q, Idle, m.seqNo, m.clock, m.wk.ses.c2s, m.wk.ses.s2c)
  {
    var p, r;
    p, r, q := SamplePoint(c, w, m);
    LeadsOn(c, w, before, m, bad, CountRx);
    LeadsOn(c, w, before + [CountRx], p, bad, Measure(m.clock));
    LeadsOn(c, w, before + [CountRx] + [Measure(m.clock)], r, bad, Sample);
    steps := before + [CountRx] + [Measure(m.clock)] + [Sample];
  }

  // ---------- Whole requests and replies ----------

  lemma StreamOne(b: Backend, f: Frame)
    requires Encodable(f)
    ensures WrapAll(b, EncodeAll([f])) == Wrap(b, Encoded(f))
    ensures Sent(b, [], Wrap(b, Encoded(f)), Encoded(f), None)
  {
    var w := Wrap(b, Encoded(f));
    assert EncodeAll([f]) == [Encoded(f)] && WrapAll(b, [Encoded(f)]) == w + [] == w;
    assert w[0..] == w;
  }

  lemma PutOne(t: Transport, f: Frame)
    requires Carried(t, f)
    ensures Puts(t, Content(t, []), Content(t, [f]), Encoded(f), None)
    ensures EncodeDiscardingError(f) == Encoded(f)
  {
    assert EncodeAll([]) == [];
    match t {
      case Streamed(b) => StreamOne(b, f);
      case Sctp => assert EncodeAll([f]) == [] + [Encoded(f)];
    }
  }

  lemma TakeOne(t: Transport, f: Frame)
    requires Carried(t, f)
    ensures Takes(t, Content(t, [f]), Content(t, []), Success(Encoded(f)))
  {
    var x := Encoded(f);
    assert EncodeAll([f]) == [x] && EncodeAll([]) == [];
    match t {
      case Streamed(b) =>
        EncodedDeliverable(b, f);
        DeliverableHead(b, x, []);
        StreamOne(b, f);
        assert Wrap(b, x) + [] == Wrap(b, x);
      case Sctp => assert x[..Cut(x, BUFFER)] == x;
    }
  }

  lemma JudgeFrame(f: Frame)
    requires Encodable(f) && f.msgType == MSG_RESP
    ensures Judge(Encoded(f), f.seqID) == Matched(f)
  {
    DecodeEncode(f, []);
    assert Encoded(f) + [] == Encoded(f);
  }

  // One request, sent whole, and what the handler leaves of its echo.
  lemma AskRound(c: Config, w: nat, before: seq<Action>, m: Local, bad: seq<Action>, now: int64, after: Pipe,
                 err: Option<ChannelError>) returns (steps: seq<Action>, q: Local, worse: seq<Action>)
    requires Leads(c, w, before, m, bad) && m.wk.pc.Idle? && m.wk.ses.amf.Listening? && c.mode.Latency?
    requires m.seqNo + 1 < TWO_64 && m.clock <= now && m.wk.ses.c2s == Content(c.transport, [])
    requires |c.payload| <= MaxPayload(c.transport)
    requires Puts(c.transport, m.wk.ses.s2c, after, Encoded(Amf.Echo(Request(c, w, m.seqNo + 1, now))), err)
    ensures var req := Request(c, w, m.seqNo + 1, now);
      Leads(c, w, steps, q, worse) && LastSent(q, req)
      && Stands(q, Awaiting(req), m.seqNo + 1, now, Content(c.transport, []), after)
    ensures worse == if err.None? || after == m.wk.ses.s2c then bad else bad + [AmfSend(after, err)]
  {
    var t, req := c.transport, Request(c, w, m.seqNo + 1, now);
    PutOne(t, req);
    TakeOne(t, req);
    Amf.ReactToFrame(req);
    steps, q, worse := SendRound(c, w, before, m, bad, now, Content(t, [req]), None);
    steps, q, worse := EchoRound(c, w, steps, q, bad, Content(t, []), Encoded(req), Encoded(Amf.Echo(req)), after, err);
  }

  // A request whose reply is on its way back.
  lemma EchoedRound(c: Config, w: nat, before: seq<Action>, m: Local, bad: seq<Action>, now: int64)
    returns (steps: seq<Action>, q: Local)
    requires Leads(c, w, before, m, bad) && c.mode.Latency? && m.seqNo + 1 < TWO_64 && m.clock <= now
    requires |c.payload| <= MaxPayload(c.transport)
    requires Stands(m, Idle, m.seqNo, m.clock, Content(c.transport, []), Content(c.transport, []))
    ensures var req := Request(c, w, m.seqNo + 1, now);
      Leads(c, w, steps, q, bad) && LastSent(q, req)
      && Stands(q, Awaiting(req), m.seqNo + 1, now, Content(c.transport, []), Content(c.transport, [Amf.Echo(req)]))
  {
    var echo, worse := Amf.Echo(Request(c, w, m.seqNo + 1, now)), [];
    PutOne(c.transport, echo);
    steps, q, worse := AskRound(c, w, before, m, bad, now, Content(c.transport, [echo]), None);
  }

  // A request that is answered, and whose reply is counted and sampled.
  lemma NormalRound(c: Config, w: nat, before: seq<Action>, m: Local, bad: seq<Action>, now: int64)
    returns (steps: seq<Action>, q: Local)
    requires Leads(c, w, before, m, bad) && c.mode.Latency? && m.seqNo + 1 < TWO_64 && m.clock <= now
    requires |c.payload| <= MaxPayload(c.transport)
    requires Stands(m, Idle, m.seqNo, m.clock, Content(c.transport, []), Content(c.transport, []))
    ensures Leads(c, w, steps, q, bad)
    ensures Stands(q, Idle, m.seqNo + 1, now, Content(c.transport, []), Content(c.transport, []))
  {
    var echo := Amf.Echo(Request(c, w, m.seqNo + 1, now));
    steps, q := EchoedRound(c, w, before, m, bad, now);
    TakeOne(c.transport, echo);
    JudgeFrame(echo);
    steps, q := MatchedRound(c, w, steps, q, bad, Content(c.transport, []), Encoded(echo), echo);
    steps, q := SampledRound(c, w, steps, q, bad);
  }

  // Any number of them.
  lemma {:induction false} NormalRounds(c: Config, w: nat, n: nat, now: int64) returns (steps: seq<Action>, q: Local)
    requires c.mode.Latency? && |c.payload| <= MaxPayload(c.transport) && n < TWO_64 && now >= 0
    ensures Leads(c, w, steps, q, []) && q.clock <= now
    ensures Stands(q, Idle, n, q.clock, Content(c.transport, []), Content(c.transport, []))
  {
    if n == 0 {
      steps := OpenedLeads(c, w);
      q := Opened(c.transport);
    } else {
      steps, q := NormalRounds(c, w, n - 1, now);
      steps, q := NormalRound(c, w, steps, q, [], now);
    }
  }

  // ---------- Every carried payload is answered ----------

  lemma RxPoint(c: Config, w: nat, m: Local) returns (q: Local)
    requires m.wk.pc.Matched?
    ensures Next(c, m, CountRx) && q == Take(c, w, m, CountRx) && Clean(m.wk.ses, CountRx)
    ensures q.tally.rx == m.tally.rx + 1 && q.wk.ses == m.wk.ses
  {
    q := Take(c, w, m, CountRx);
  }

  // The run in which the accepted reply is counted.
  lemma CountedRun(c: Config, w: nat, steps: seq<Action>, m: Local, bad: seq<Action>) returns (es: seq<Event>)
    requires w < c.workers && Leads(c, w, steps, m, bad) && m.wk.pc.Matched?
    ensures Run(c, es).Some? && Faithful(c, es) && Steady(c, es) && Unclean(c, es) == bad
    ensures Run(c, es).value.tally.rx > 0 && Hit(w, m.wk.pc.resp) in Run(c, es).value.hits
    ensures |Run(c, es).value.workers| == c.workers && Run(c, es).value.workers[w].ses == m.wk.ses
  {
    var q := RxPoint(c, w, m);
    LeadsOn(c, w, steps, m, bad, CountRx);
    LeadsIsRun(c, w, steps + [CountRx], q, bad);
    es := StepsOf(w, steps + [CountRx]);
    LastHit(c, w, steps, m, bad);
  }

  lemma LastHit(c: Config, w: nat, steps: seq<Action>, m: Local, bad: seq<Action>)
    requires w < c.workers && Leads(c, w, steps, m, bad) && m.wk.pc.Matched?
    requires Run(c, StepsOf(w, steps + [CountRx])).Some?
    ensures Hit(w, m.wk.pc.resp) in Run(c, StepsOf(w, steps + [CountRx])).value.hits
  {
    LeadsIsRun(c, w, steps, m, bad);
    StepsOfLast(w, steps + [CountRx]);
    assert (steps + [CountRx])[..|steps|] == steps;
    var es := StepsOf(w, steps + [CountRx]);
    assert es[..|es| - 1] == StepsOf(w, steps);
    var s := Run(c, StepsOf(w, steps)).value;
    assert Apply(c, s, Step(w, CountRx)).hits[|s.hits|] == Hit(w, m.wk.pc.resp);
  }

  lemma FirstMatched(c: Config) returns (steps: seq<Action>, q: Local)
    requires c.mode.Latency? && |c.payload| <= MaxPayload(c.transport)
    ensures Leads(c, 0, steps, q, []) && q.wk.pc.Matched?
  {
    steps := OpenedLeads(c, 0);
    var echo := Amf.Echo(Request(c, 0, 1, 0));
    steps, q := EchoedRound(c, 0, steps, Opened(c.transport), [], 0);
    TakeOne(c.transport, echo);
    JudgeFrame(echo);
    steps, q := MatchedRound(c, 0, steps, q, [], Content(c.transport, []), Encoded(echo), echo);
  }

  lemma FirstReply(c: Config) returns (es: seq<Event>)
    requires c.mode.Latency? && c.workers == 1 && |c.payload| <= MaxPayload(c.transport)
    ensures Run(c, es).Some? && Faithful(c, es) && Steady(c, es) && CleanRun(c, es) && Run(c, es).value.tally.rx > 0
  {
    var steps, q := FirstMatched(c);
    es := CountedRun(c, 0, steps, q, []);
  }

  ghost predicate SomeRunIsAnswered(t: Transport, payload: seq<byte>) {
    exists c: Config, es: seq<Event> ::
      c.transport == t && c.payload == payload && Run(c, es).Some? && Faithful(c, es) && Run(c, es).value.tally.rx > 0
  }

  // A payload can be answered exactly when the transport carries it: up to 65535 bytes over a byte stream,
  // up to 65510 over plain SCTP.
  lemma AnsweredIff(t: Transport, payload: seq<byte>)
    ensures SomeRunIsAnswered(t, payload) <==> |payload| <= MaxPayload(t)
  {
    if |payload| <= MaxPayload(t) {
      var c := Config(t, Latency, payload, 1, 1);
      var es := FirstReply(c);
      assert c.transport == t && c.payload == payload;
    } else {
      forall c: Config, es: seq<Event> | c.transport == t && c.payload == payload && Run(c, es).Some? && Faithful(c, es)
        ensures Run(c, es).value.tally.rx == 0
      {
        NeverAnswered(c, es);
      }
    }
  }
}
