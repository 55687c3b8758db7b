/** The end-to-end theorems of the closed loop. */
module EndToEnd {
  import opened Bytes
  import opened Wire
  import opened Framing
  import opened SctpChannel
  import opened Pipes
  import opened Protocol
  import opened Attribution
  import opened Numbering
  import Amf
  import Metrics

  // ---------- Payloads that are not carried ----------

  predicate Zeros(s: seq<byte>) {
    forall i :: 0 <= i < |s| ==> s[i] == 0
  }

  // A message that Recv cuts to something that does not decode, leaving no more than a piece that does not
  // decode either.
  predicate Hopeless(m: seq<byte>) {
    |m| < BUFFER + HEADER_LEN && Decode(m[..Cut(m, BUFFER)]).Failure?
  }

  // Nothing in the pipe will ever be read as a frame.
  predicate Mute(t: Transport, p: Pipe) {
    Fit(t, p) &&
    match t
    case Streamed(b) => if b.Kernel? then p.unread == [] else Zeros(p.unread)
    case Sctp => forall m :: m in p.queue ==> Hopeless(m)
  }

  predicate Silent(t: Transport, wk: Worker) {
    Mute(t, wk.ses.c2s) && wk.ses.s2c == Content(t, []) && !wk.ses.amf.Replying?
    && !wk.pc.Matched? && !wk.pc.Counted? && !wk.pc.Timed? && (wk.pc.Numbered? ==> !Carried(t, wk.pc.req))
  }

  lemma ZerosSuffix(s: seq<byte>, t: seq<byte>, k: nat)
    requires Zeros(s) && Zeros(t) && k <= |s|
    ensures Zeros(s[k..]) && Zeros(s + t)
  {
  }

  // What a Send of no bytes at all can put on a stream.
  lemma EmptySend(b: Backend, before: seq<byte>, after: seq<byte>, err: Option<ChannelError>)
    requires (if b.Kernel? then before == [] else Zeros(before)) && Sent(b, before, after, [], err)
    ensures if b.Kernel? then after == [] else Zeros(after)
  {
    assert after == before + after[|before|..];
    assert Zeros(Wrap(Quic, []));
  }

  // A frame too long for the buffer is cut to something that does not decode.
  lemma LongIsHopeless(f: Frame)
    requires MAX_SCTP_PAYLOAD < |f.payload|
    ensures Hopeless(EncodeDiscardingError(f))
  {
    if Encodable(f) {
      var x := Encoded(f);
      var q: seq<seq<byte>> := [x];
      assert q + [] == q && q[1..] == [];
      SurvivesBufferIff(f, [], [], x[..Cut(x, BUFFER)]);
    }
  }

  lemma LongSendKeepsMute(t: Transport, before: Pipe, after: Pipe, f: Frame, err: Option<ChannelError>)
    requires Mute(t, before) && !Carried(t, f) && Puts(t, before, after, EncodeDiscardingError(f), err)
    ensures Mute(t, after)
  {
    match t {
      case Streamed(b) => EmptySend(b, before.unread, after.unread, err);
      case Sctp => LongIsHopeless(f);
    }
  }

  // The handler reads an empty message off a stream of zeros, and does not answer it.
  lemma ZerosHoldNoRequest(b: Backend, before: seq<byte>, after: seq<byte>, raw: seq<byte>)
    requires (if b.Kernel? then before == [] else Zeros(before)) && Received(b, before, after, Success(raw))
    ensures b.Quic? && Zeros(after) && Amf.React(raw).None?
  {
    assert before[..4] == PutBE(0, 4);
    GetPut(0, 4);
    ZerosSuffix(before, [], |before| - |after|);
  }

  lemma PacketsHoldNoRequest(before: seq<seq<byte>>, after: seq<seq<byte>>, raw: seq<byte>)
    requires (forall m :: m in before ==> Hopeless(m)) && PacketReceived(before, after, Success(raw))
    ensures Amf.React(raw).None? && forall m :: m in after ==> Hopeless(m)
  {
    assert before[0] in before;
    if after != before[1..] {
      var piece := before[0][BUFFER..];
      assert piece[..Cut(piece, BUFFER)] == piece;
    }
  }

  lemma MuteRead(t: Transport, before: Pipe, after: Pipe, raw: seq<byte>)
    requires Mute(t, before) && Takes(t, before, after, Success(raw))
    ensures Amf.React(raw).None? && Mute(t, after)
  {
    match t {
      case Streamed(b) => ZerosHoldNoRequest(b, before.unread, after.unread, raw);
      case Sctp => PacketsHoldNoRequest(before.queue, after.queue, raw);
    }
  }

  // Nothing is read from an empty pipe, and a Recv that fails leaves it empty.
  lemma EmptyTake(t: Transport, after: Pipe, res: Result<seq<byte>, ChannelError>)
    requires Takes(t, Content(t, []), after, res)
    ensures res.Failure? && after == Content(t, [])
  {
    if res.Success? {
      TakeFirst(t, [], after, res.value);
    }
  }

  lemma SilentStep(c: Config, w: nat, id: nat, wk: Worker, a: Action)
    requires Silent(c.transport, wk) && MaxPayload(c.transport) < |c.payload|
    requires Ready(wk, a) && Allowed(c.transport, wk, a) && (a.Number? ==> id < TWO_64)
    ensures Silent(c.transport, Worker(NextPC(c, w, id, wk, a), NextSession(wk, a)))
    ensures !a.CountRx? && !a.Sample?
  {
    match a {
      case Send(after, err) => LongSendKeepsMute(c.transport, wk.ses.c2s, after, wk.pc.req, err);
      case Recv(after, res) => EmptyTake(c.transport, after, res);
      case AmfRecv(after, raw) => MuteRead(c.transport, wk.ses.c2s, after, raw);
      case _ =>
    }
  }

  predicate AllSilent(c: Config, s: State) {
    s.tally.rx == 0 && s.tally.latencyUS == [] && s.hits == [] && s.sampled == []
    && forall w :: 0 <= w < |s.workers| ==> Silent(c.transport, s.workers[w])
  }

  lemma InitSilent(c: Config)
    ensures AllSilent(c, Init(c))
  {
    var s := Init(c);
    assert EncodeAll([]) == [];
    assert forall w :: 0 <= w < |s.workers| ==> s.workers[w] == Fresh(c.transport);
  }

  // A payload over 65535 bytes, or over 65510 with plain SCTP, is never answered: whatever the channels do,
  // no reply is ever counted.
  lemma {:induction false} NeverAnswered(c: Config, es: seq<Event>)
    requires Run(c, es).Some? && Faithful(c, es) && MaxPayload(c.transport) < |c.payload|
    ensures AllSilent(c, Run(c, es).value)
    decreases |es|
  {
    if es == [] {
      InitSilent(c);
    } else {
      var init, e := es[..|es| - 1], es[|es| - 1];
      NeverAnswered(c, init);
      if e.Step? {
        var s := Run(c, init).value;
        SilentStep(c, e.w, s.seqNo + 1, s.workers[e.w], e.a);
      }
    }
  }

  // ---------- Attribution ----------

  // The reply is the echo of one of the frames.
  predicate EchoesOne(resp: Frame, fs: seq<Frame>) {
    exists k :: 0 <= k < |fs| && resp == Amf.Echo(fs[k])
  }

  lemma EchoesMore(resp: Frame, fs: seq<Frame>, more: seq<Frame>)
    requires EchoesOne(resp, fs)
    ensures EchoesOne(resp, fs + more)
  {
    var k :| 0 <= k < |fs| && resp == Amf.Echo(fs[k]);
    assert (fs + more)[k] == fs[k];
  }

  // The worker about to count a reply has handed the request it echoes to Send.
  lemma MatchedWasHanded(c: Config, es: seq<Event>, w: nat)
    requires Run(c, es).Some? && w < c.workers && Inv(c, Run(c, es).value) && Run(c, es).value.workers[w].pc.Matched?
    ensures EchoesOne(Run(c, es).value.workers[w].pc.resp, Handed(c, es, w))
  {
    var wk := Run(c, es).value.workers[w];
    SentWasHanded(c, es, w);
    assert WorkerOk(c, w, wk, Run(c, es).value.issued);
    var f := wk.ses.sent[|wk.ses.sent| - 1];
    assert f in Handed(c, es, w);
    var k :| 0 <= k < |Handed(c, es, w)| && f == Handed(c, es, w)[k];
  }

  predicate HitsHanded(c: Config, es: seq<Event>)
    requires Run(c, es).Some?
  {
    forall h :: h in Run(c, es).value.hits ==> h.w < c.workers && EchoesOne(h.resp, Handed(c, es, h.w))
  }

  lemma HandedMore(c: Config, es: seq<Event>, w: nat) returns (more: seq<Frame>)
    requires Run(c, es).Some? && es != []
    ensures Handed(c, es, w) == Handed(c, es[..|es| - 1], w) + more
  {
    more := Handed(c, es, w)[|Handed(c, es[..|es| - 1], w)|..];
  }

  lemma HitsAfterStep(c: Config, s: State, e: Event, h: Hit)
    requires Possible(s, e) && h in Apply(c, s, e).hits
    ensures h in s.hits || (e.Step? && e.a.CountRx? && h == Hit(e.w, s.workers[e.w].pc.resp))
  {
  }

  lemma {:induction false} HitsWereHanded(c: Config, es: seq<Event>)
    requires Run(c, es).Some? && Faithful(c, es) && CleanRun(c, es) && |c.payload| <= MaxPayload(c.transport)
    ensures HitsHanded(c, es)
    decreases |es|
  {
    if es != [] {
      var init, e := es[..|es| - 1], es[|es| - 1];
      CleanRunKeepsInv(c, init);
      HitsWereHanded(c, init);
      forall h | h in Run(c, es).value.hits
        ensures h.w < c.workers && EchoesOne(h.resp, Handed(c, es, h.w))
      {
        HitsAfterStep(c, Run(c, init).value, e, h);
        if h !in Run(c, init).value.hits {
          MatchedWasHanded(c, init, e.w);
        }
        var more := HandedMore(c, es, h.w);
        EchoesMore(h.resp, Handed(c, init, h.w), more);
      }
    }
  }

  // Rx counts replies; each is the echo of a frame that the very worker that counted it handed to Send, no
  // two carry the same number, and each latency sample is the time from the timestamp of a counted reply, in
  // whole microseconds.
  predicate OwnEchoes(c: Config, es: seq<Event>)
    requires Run(c, es).Some?
  {
    var s := Run(c, es).value;
    && |s.hits| == s.tally.rx && HitsHanded(c, es)
    && (forall i, j :: 0 <= i < j < |s.hits| ==> s.hits[i].resp.seqID != s.hits[j].resp.seqID)
    && |s.sampled| == |s.tally.latencyUS|
    && (forall i, j :: 0 <= i < j < |s.sampled| ==> s.sampled[i].resp.seqID != s.sampled[j].resp.seqID)
    && (forall i :: 0 <= i < |s.sampled| ==>
      var it := s.sampled[i];
      Hit(it.w, it.resp) in s.hits && Measures(s.tally.latencyUS[i], it.now, it.resp.sendTSNS))
  }

  // Attribution, for every payload: over a byte stream in every run in which failed calls move nothing, over
  // plain SCTP in every run; and in every run if the payload is not carried, because then nothing is counted.
  lemma EveryRxIsOwnEcho(c: Config, es: seq<Event>)
    requires Run(c, es).Some? && Faithful(c, es)
    requires c.transport.Sctp? || CleanRun(c, es) || MaxPayload(c.transport) < |c.payload|
    ensures OwnEchoes(c, es)
  {
    if MaxPayload(c.transport) < |c.payload| {
      NeverAnswered(c, es);
    } else {
      if c.transport.Sctp? {
        SctpRunsAreClean(c, es);
      }
      CleanRunKeepsInv(c, es);
      HitsWereHanded(c, es);
      SamplesMeasure(Run(c, es).value);
    }
  }

  lemma SamplesMeasure(s: State)
    requires SamplesOk(s)
    ensures forall i :: 0 <= i < |s.sampled| ==>
      Measures(s.tally.latencyUS[i], s.sampled[i].now, s.sampled[i].resp.sendTSNS)
  {
    forall i | 0 <= i < |s.sampled|
      ensures Measures(s.tally.latencyUS[i], s.sampled[i].now, s.sampled[i].resp.sendTSNS)
    {
      SampleMeasures(s.sampled[i].now, s.sampled[i].resp.sendTSNS);
    }
  }

  // While the clock is not set back, no latency is negative.
  lemma LatenciesNotNegative(c: Config, es: seq<Event>)
    requires Run(c, es).Some? && Faithful(c, es) && Steady(c, es)
    requires c.transport.Sctp? || CleanRun(c, es) || MaxPayload(c.transport) < |c.payload|
    ensures forall us :: us in Run(c, es).value.tally.latencyUS ==> us >= 0
  {
    EveryRxIsOwnEcho(c, es);
    if MaxPayload(c.transport) < |c.payload| {
      NeverAnswered(c, es);
    } else {
      if c.transport.Sctp? {
        SctpRunsAreClean(c, es);
      }
      SteadyRunKeepsTimes(c, es);
    }
  }

  // ---------- Floods ----------

  // No frame of a flood is a request: whatever reads one whole does not answer it.
  lemma FloodFrameUnanswered(c: Config, es: seq<Event>, w: nat, f: Frame)
    requires Run(c, es).Some? && w < c.workers && c.mode.Flood? && f in Handed(c, es, w)
    ensures Amf.React(EncodeDiscardingError(f)).None?
  {
    var k :| 0 <= k < |Handed(c, es, w)| && Handed(c, es, w)[k] == f;
    HandedFields(c, es, w, k);
    if Encodable(f) {
      Amf.ReactToFrame(f);
    }
  }

  predicate OneWay(t: Transport, wk: Worker) {
    !wk.ses.amf.Replying? && wk.ses.s2c == Content(t, []) && PhaseOf(wk.pc) in {Quiet, Unsent}
  }

  lemma FloodReadIsUnanswered(c: Config, s: State, w: nat, after: Pipe, raw: seq<byte>)
    requires Inv(c, s) && c.mode.Flood? && |c.payload| <= MaxPayload(c.transport) && w < |s.workers|
    requires Takes(c.transport, s.workers[w].ses.c2s, after, Success(raw))
    ensures Amf.React(raw).None?
  {
    var ses := s.workers[w].ses;
    assert WorkerOk(c, w, s.workers[w], s.issued);
    OwnAreCarried(c, w, ses.sent, s.issued);
    HandlerReads(c.transport, ses, after, raw);
    var f := ses.sent[ses.handled];
    assert Own(c, w, f, s.issued);
    CarriedIsEncodable(c.transport, f);
    Amf.ReactToFrame(f);
  }

  lemma FloodStep(c: Config, s: State, w: nat, a: Action)
    requires Inv(c, s) && c.mode.Flood? && |c.payload| <= MaxPayload(c.transport) && Possible(s, Step(w, a))
    requires Allowed(c.transport, s.workers[w], a) && OneWay(c.transport, s.workers[w])
    ensures !a.AmfSend? && !a.Recv? && OneWay(c.transport, Moved(c, s, w, a))
  {
    if a.AmfRecv? {
      FloodReadIsUnanswered(c, s, w, a.after, a.raw);
    }
  }

  // A flood is one-way: in every clean run, and in every run over plain SCTP, no handler ever sends anything
  // and no worker ever receives.
  lemma {:induction false} FloodIsOneWay(c: Config, es: seq<Event>, w: nat)
    requires Run(c, es).Some? && Faithful(c, es) && (c.transport.Sctp? || CleanRun(c, es))
    requires c.mode.Flood? && |c.payload| <= MaxPayload(c.transport) && w < c.workers
    ensures |Run(c, es).value.workers| == c.workers && OneWay(c.transport, Run(c, es).value.workers[w])
    ensures forall e :: e in es && e.Step? && e.w == w ==> !e.a.AmfSend? && !e.a.Recv?
    decreases |es|
  {
    if es != [] {
      var init, e := es[..|es| - 1], es[|es| - 1];
      if c.transport.Sctp? {
        SctpRunsAreClean(c, es);
      }
      CleanRunKeepsInv(c, init);
      FloodIsOneWay(c, init, w);
      if e.Step? && e.w == w {
        FloodStep(c, Run(c, init).value, w, e.a);
      }
      assert es == init + [e];
    }
  }

  // ---------- FIFO position ----------

  // No reply of the handler is lost.
  predicate NoReplyLost(es: seq<Event>) {
    forall e :: e in es && e.Step? && e.a.AmfSend? ==> e.a.err.None?
  }

  // Failed calls move nothing and no reply is lost.
  predicate LosslessRun(c: Config, es: seq<Event>)
    requires Run(c, es).Some?
  {
    Faithful(c, es) && (c.transport.Sctp? || CleanRun(c, es)) && NoReplyLost(es)
    && |c.payload| <= MaxPayload(c.transport) && c.mode.Latency?
  }

  function FailedRecvs(es: seq<Event>, w: nat): nat {
    if es == [] then 0
    else
      var e := es[|es| - 1];
      FailedRecvs(es[..|es| - 1], w) + if e.Step? && e.w == w && e.a.Recv? && e.a.res.Failure? then 1 else 0
  }

  // Replies are in request order, and the worker is ahead of them by its failed Recvs.
  predicate InOrder(wk: Worker, failed: nat) {
    var ses := wk.ses;
    && (forall i :: 0 <= i < |ses.echoed| ==> ses.echoed[i] == i)
    && |ses.echoed| + (if ses.amf.Replying? then 1 else 0) == ses.handled
    && (ses.amf.Replying? ==> ses.amf.of == |ses.echoed|)
    && |ses.sent| == ses.recvd + failed + (if wk.pc.Delivered? || wk.pc.Awaiting? then 1 else 0)
  }

  predicate AllRequests(t: Transport, fs: seq<Frame>) {
    AllCarried(t, fs) && forall f :: f in fs ==> f.msgType == MSG_REQ
  }

  lemma HandlerTakesRequest(t: Transport, wk: Worker, a: Action)
    requires PipesOk(t, wk.ses) && AllRequests(t, wk.ses.sent)
    requires a.AmfRecv? && Ready(wk, a) && Allowed(t, wk, a)
    ensures NextSession(wk, a).amf.Replying? && NextSession(wk, a).amf.of == wk.ses.handled
  {
    HandlerReads(t, wk.ses, a.after, a.raw);
    var f := wk.ses.sent[wk.ses.handled];
    CarriedIsEncodable(t, f);
    Amf.ReactToFrame(f);
  }

  lemma StepKeepsOrder(c: Config, w: nat, id: nat, wk: Worker, a: Action, failed: nat)
    requires PipesOk(c.transport, wk.ses) && AllRequests(c.transport, wk.ses.sent)
    requires c.mode.Latency? && Ready(wk, a) && Allowed(c.transport, wk, a) && (a.Number? ==> id < TWO_64)
    requires InOrder(wk, failed) && (a.AmfSend? ==> a.err.None?)
    ensures InOrder(Worker(NextPC(c, w, id, wk, a), NextSession(wk, a)),
                    failed + if a.Recv? && a.res.Failure? then 1 else 0)
  {
    if a.AmfRecv? {
      HandlerTakesRequest(c.transport, wk, a);
    }
  }

  lemma OwnAreRequests(c: Config, s: State, w: nat)
    requires Inv(c, s) && c.mode.Latency? && w < |s.workers| && |c.payload| <= MaxPayload(c.transport)
    ensures AllRequests(c.transport, s.workers[w].ses.sent)
  {
    var sent := s.workers[w].ses.sent;
    assert WorkerOk(c, w, s.workers[w], s.issued);
    OwnAreCarried(c, w, sent, s.issued);
    forall f | f in sent
      ensures f.msgType == MSG_REQ
    {
      var i :| 0 <= i < |sent| && f == sent[i];
      assert Own(c, w, sent[i], s.issued);
    }
  }

  lemma OrderStep(c: Config, s: State, w: nat, a: Action, failed: nat)
    requires Inv(c, s) && c.mode.Latency? && |c.payload| <= MaxPayload(c.transport) && Possible(s, Step(w, a))
    requires Allowed(c.transport, s.workers[w], a) && (a.AmfSend? ==> a.err.None?) && InOrder(s.workers[w], failed)
    ensures InOrder(Moved(c, s, w, a), failed + if a.Recv? && a.res.Failure? then 1 else 0)
  {
    OwnAreRequests(c, s, w);
    StepKeepsOrder(c, w, s.seqNo + 1, s.workers[w], a, failed);
  }

  lemma LosslessInv(c: Config, es: seq<Event>)
    requires Run(c, es).Some? && LosslessRun(c, es)
    ensures CleanRun(c, es) && Inv(c, Run(c, es).value)
    ensures es != [] ==> LosslessRun(c, es[..|es| - 1])
  {
    if c.transport.Sctp? {
      SctpRunsAreClean(c, es);
    }
    CleanRunKeepsInv(c, es);
  }

  lemma {:induction false} LosslessKeepsOrder(c: Config, es: seq<Event>, w: nat)
    requires Run(c, es).Some? && LosslessRun(c, es) && w < c.workers
    ensures |Run(c, es).value.workers| == c.workers && InOrder(Run(c, es).value.workers[w], FailedRecvs(es, w))
    decreases |es|
  {
    if es != [] {
      var init, e := es[..|es| - 1], es[|es| - 1];
      LosslessInv(c, es);
      LosslessInv(c, init);
      LosslessKeepsOrder(c, init, w);
      if e.Step? && e.w == w {
        assert e in es;
        OrderStep(c, Run(c, init).value, w, e.a, FailedRecvs(init, w));
      }
    }
  }

  // What a successful Recv returns in such a state, and what the worker makes of it.
  lemma NextReply(c: Config, s: State, w: nat, after: Pipe, raw: seq<byte>, failed: nat)
    requires Inv(c, s) && c.mode.Latency? && |c.payload| <= MaxPayload(c.transport) && w < |s.workers|
    requires InOrder(s.workers[w], failed) && Ready(s.workers[w], Recv(after, Success(raw)))
    requires Allowed(c.transport, s.workers[w], Recv(after, Success(raw)))
    ensures var ses := s.workers[w].ses;
      ses.recvd < |ses.sent| && raw == Encoded(Amf.Echo(ses.sent[ses.recvd])) &&
      NextPC(c, w, 0, s.workers[w], Recv(after, Success(raw)))
      == if failed == 0 then Matched(Amf.Echo(ses.sent[ses.recvd])) else Dropping(Mismatch)
  {
    assert WorkerOk(c, w, s.workers[w], s.issued);
    OwnAreRequests(c, s, w);
    RecvReply(c, w, s.workers[w], Recv(after, Success(raw)), s.issued);
  }

  // A worker's k-th successful Recv returns the reply to its k-th successful Send, so it is counted exactly
  // when no earlier Recv of that worker failed; every other reply is a mismatch.
  lemma ReplyPosition(c: Config, es: seq<Event>, w: nat, after: Pipe, raw: seq<byte>)
    requires Run(c, es).Some? && LosslessRun(c, es)
    requires Possible(Run(c, es).value, Step(w, Recv(after, Success(raw))))
    requires Allowed(c.transport, Run(c, es).value.workers[w], Recv(after, Success(raw)))
    ensures var s := Run(c, es).value;
      var ses := s.workers[w].ses;
      ses.recvd < |ses.sent| && raw == Encoded(Amf.Echo(ses.sent[ses.recvd])) &&
      NextPC(c, w, 0, s.workers[w], Recv(after, Success(raw)))
      == if FailedRecvs(es, w) == 0 then Matched(Amf.Echo(ses.sent[ses.recvd])) else Dropping(Mismatch)
  {
    LosslessInv(c, es);
    LosslessKeepsOrder(c, es, w);
    NextReply(c, Run(c, es).value, w, after, raw, FailedRecvs(es, w));
  }

  // ---------- FIFO position, over whole runs ----------

  // The successful Recvs of worker w before its first failed one.
  function PromptRecvs(es: seq<Event>, w: nat): nat {
    if es == [] then 0
    else
      var init, e := es[..|es| - 1], es[|es| - 1];
      PromptRecvs(init, w)
      + if FailedRecvs(init, w) == 0 && e.Step? && e.w == w && e.a.Recv? && e.a.res.Success? then 1 else 0
  }

  // The replies that worker w has counted.
  function HitsOf(hits: seq<Hit>, w: nat): seq<Frame> {
    if hits == [] then []
    else HitsOf(hits[..|hits| - 1], w) + if hits[|hits| - 1].w == w then [hits[|hits| - 1].resp] else []
  }

  function PendingReply(pc: PC): seq<Frame> {
    if pc.Matched? then [pc.resp] else []
  }

  // Counted, or about to be: the echoes of the worker's first n requests.
  predicate CountsFirst(mine: seq<Frame>, wk: Worker, n: nat) {
    n <= |wk.ses.sent| && mine + PendingReply(wk.pc) == Amf.Echoes(wk.ses.sent[..n])
  }

  lemma OtherStepCounts(c: Config, w: nat, id: nat, wk: Worker, a: Action, mine: seq<Frame>, n: nat)
    requires Ready(wk, a) && !a.Recv? && (a.Number? ==> id < TWO_64) && CountsFirst(mine, wk, n)
    ensures CountsFirst(if a.CountRx? then mine + [wk.pc.resp] else mine,
                        Worker(NextPC(c, w, id, wk, a), NextSession(wk, a)), n)
  {
    assert NextSession(wk, a).sent[..n] == wk.ses.sent[..n];
  }

  lemma NextEcho(sent: seq<Frame>, n: nat)
    requires n < |sent|
    ensures Amf.Echoes(sent[..n + 1]) == Amf.Echoes(sent[..n]) + [Amf.Echo(sent[n])]
  {
  }

  lemma RecvCounts(c: Config, w: nat, id: nat, wk: Worker, a: Action, mine: seq<Frame>, n: nat, prompt: bool)
    requires Ready(wk, a) && a.Recv? && CountsFirst(mine, wk, n) && (prompt ==> n == wk.ses.recvd)
    requires a.res.Success? ==>
      wk.ses.recvd < |wk.ses.sent| &&
      NextPC(c, w, 0, wk, a) == if prompt then Matched(Amf.Echo(wk.ses.sent[wk.ses.recvd])) else Dropping(Mismatch)
    ensures CountsFirst(mine, Worker(NextPC(c, w, id, wk, a), NextSession(wk, a)),
                        n + if prompt && a.res.Success? then 1 else 0)
  {
    if a.res.Success? && prompt {
      NextEcho(wk.ses.sent, n);
    }
  }

  lemma HitsOfStep(c: Config, s: State, v: nat, a: Action, w: nat)
    requires Possible(s, Step(v, a))
    ensures HitsOf(Apply(c, s, Step(v, a)).hits, w)
         == if a.CountRx? && v == w then HitsOf(s.hits, w) + [s.workers[w].pc.resp] else HitsOf(s.hits, w)
  {
    if a.CountRx? {
      assert Apply(c, s, Step(v, a)).hits[..|s.hits|] == s.hits;
    }
  }

  // Of the run so far: the worker's failed Recvs, and the n successful ones before the first of them.
  predicate Counting(s: State, w: nat, failed: nat, n: nat) {
    w < |s.workers| && CountsFirst(HitsOf(s.hits, w), s.workers[w], n) && (failed == 0 ==> n == s.workers[w].ses.recvd)
  }

  lemma RecvStepCounts(c: Config, es: seq<Event>, w: nat, a: Action)
    requires Run(c, es).Some? && LosslessRun(c, es) && a.Recv? && Possible(Run(c, es).value, Step(w, a))
    requires Allowed(c.transport, Run(c, es).value.workers[w], a)
    requires Counting(Run(c, es).value, w, FailedRecvs(es, w), PromptRecvs(es, w))
    ensures Counting(Apply(c, Run(c, es).value, Step(w, a)), w, FailedRecvs(es, w) + (if a.res.Failure? then 1 else 0),
                     PromptRecvs(es, w) + if FailedRecvs(es, w) == 0 && a.res.Success? then 1 else 0)
  {
    var s := Run(c, es).value;
    if a.res.Success? {
      ReplyPosition(c, es, w, a.after, a.res.value);
    }
    RecvCounts(c, w, s.seqNo + 1, s.workers[w], a, HitsOf(s.hits, w), PromptRecvs(es, w), FailedRecvs(es, w) == 0);
  }

  lemma OtherStepCounting(c: Config, s: State, v: nat, a: Action, w: nat, failed: nat, n: nat)
    requires Possible(s, Step(v, a)) && !(v == w && a.Recv?) && Counting(s, w, failed, n)
    ensures Counting(Apply(c, s, Step(v, a)), w, failed, n)
  {
    HitsOfStep(c, s, v, a, w);
    if v == w {
      OtherStepCounts(c, w, s.seqNo + 1, s.workers[w], a, HitsOf(s.hits, w), n);
    }
  }

  // In every lossless run a worker counts exactly the replies that its Recvs returned before the first failed
  // one: the echoes of its first requests, in order. Nothing after that is ever counted.
  lemma {:induction false} CountsPromptReplies(c: Config, es: seq<Event>, w: nat)
    requires Run(c, es).Some? && LosslessRun(c, es) && w < c.workers
    ensures Counting(Run(c, es).value, w, FailedRecvs(es, w), PromptRecvs(es, w))
    decreases |es|
  {
    if es == [] {
      assert Amf.Echoes([]) == [];
    } else {
      var init, e := es[..|es| - 1], es[|es| - 1];
      LosslessInv(c, es);
      CountsPromptReplies(c, init, w);
      if e.Step? {
        if e.w == w && e.a.Recv? {
          RecvStepCounts(c, init, w, e.a);
        } else {
          OtherStepCounting(c, Run(c, init).value, e.w, e.a, w, FailedRecvs(init, w), PromptRecvs(init, w));
        }
      }
    }
  }
}
