/**
 Attribution: in a run whose failed channel calls move nothing, every reply a worker counts is the
 echo of that worker's own current request, with the timestamp that was stamped on it.
 */
module Attribution {
  import opened Bytes
  import opened Wire
  import opened Framing
  import opened Pipes
  import opened Protocol
  import Amf
  import Metrics

  // ---------- Clean runs ----------

  // A channel call that fails has neither put anything into a pipe nor taken anything from it.
  predicate Clean(ses: Session, a: Action) {
    match a
    case Send(after, err) => err.Some? ==> after == ses.c2s
    case Recv(after, res) => res.Failure? ==> after == ses.s2c
    case AmfSend(after, err) => err.Some? ==> after == ses.s2c
    case _ => true
  }

  // The calls of a run that failed and moved something all the same.
  function Unclean(c: Config, es: seq<Event>): seq<Action>
    requires Run(c, es).Some?
  {
    if es == [] then []
    else
      var init, e := es[..|es| - 1], es[|es| - 1];
      Unclean(c, init) + if e.Step? && !Clean(Run(c, init).value.workers[e.w].ses, e.a) then [e.a] else []
  }

  predicate CleanRun(c: Config, es: seq<Event>)
    requires Run(c, es).Some?
  {
    Unclean(c, es) == []
  }

  // Over plain SCTP every faithful run is clean.
  lemma {:induction false} SctpRunsAreClean(c: Config, es: seq<Event>)
    requires Run(c, es).Some? && Faithful(c, es) && c.transport.Sctp?
    ensures CleanRun(c, es)
    decreases |es|
  {
    if es != [] {
      SctpRunsAreClean(c, es[..|es| - 1]);
    }
  }

  // ---------- What a worker asks, whatever the channels do ----------

  predicate Own(c: Config, w: nat, req: Frame, issued: seq<Issue>) {
    1 <= req.seqID <= |issued| && issued[req.seqID - 1] == Issue(w, Some(req.sendTSNS))
    && req == Request(c, w, req.seqID, req.sendTSNS)
  }

  predicate Increasing(sent: seq<Frame>) {
    forall i, j :: 0 <= i < j < |sent| ==> sent[i].seqID < sent[j].seqID
  }

  predicate SentOk(c: Config, w: nat, sent: seq<Frame>, issued: seq<Issue>) {
    (forall i :: 0 <= i < |sent| ==> Own(c, w, sent[i], issued)) && Increasing(sent)
  }

  predicate AskOk(c: Config, w: nat, pc: PC, sent: seq<Frame>, issued: seq<Issue>) {
    match pc
    case Drawn(id) =>
      1 <= id <= |issued| && issued[id - 1] == Issue(w, None) && forall i :: 0 <= i < |sent| ==> sent[i].seqID < id
    case Numbered(req) => Own(c, w, req, issued) && forall i :: 0 <= i < |sent| ==> sent[i].seqID < req.seqID
    case Delivered(req) => sent != [] && req == sent[|sent| - 1]
    case Awaiting(req) => sent != [] && req == sent[|sent| - 1]
    case _ => true
  }

  predicate AsksOwn(c: Config, w: nat, wk: Worker, issued: seq<Issue>) {
    SentOk(c, w, wk.ses.sent, issued) && AskOk(c, w, wk.pc, wk.ses.sent, issued)
  }

  // Another worker's step adds a number or stamps one of its own.
  predicate Grown(w: nat, was: seq<Issue>, now: seq<Issue>) {
    |was| <= |now| && forall i :: 0 <= i < |was| ==> now[i] == was[i] || was[i] == Issue(w, None)
  }

  lemma NotedGrows(c: Config, w: nat, wk: Worker, a: Action, issued: seq<Issue>)
    requires Ready(wk, a) && AsksOwn(c, w, wk, issued)
    ensures Grown(w, issued, Noted(issued, w, wk.pc, a))
  {
  }

  lemma SentGrows(c: Config, v: nat, sent: seq<Frame>, w: nat, was: seq<Issue>, now: seq<Issue>)
    requires SentOk(c, v, sent, was) && Grown(w, was, now)
    ensures SentOk(c, v, sent, now)
  {
    forall i | 0 <= i < |sent|
      ensures Own(c, v, sent[i], now)
    {
      assert Own(c, v, sent[i], was);
    }
  }

  lemma AsksGrow(c: Config, v: nat, vk: Worker, w: nat, was: seq<Issue>, now: seq<Issue>)
    requires AsksOwn(c, v, vk, was) && Grown(w, was, now) && v != w
    ensures AsksOwn(c, v, vk, now)
  {
    SentGrows(c, v, vk.ses.sent, w, was, now);
  }

  lemma SentAppend(c: Config, w: nat, sent: seq<Frame>, req: Frame, issued: seq<Issue>)
    requires SentOk(c, w, sent, issued) && AskOk(c, w, Numbered(req), sent, issued)
    ensures SentOk(c, w, sent + [req], issued)
  {
    var now := sent + [req];
    forall i | 0 <= i < |now|
      ensures Own(c, w, now[i], issued)
    {
      assert i < |sent| ==> now[i] == sent[i] && Own(c, w, sent[i], issued);
    }
  }

  lemma NumberAsks(c: Config, w: nat, wk: Worker, a: Action, issued: seq<Issue>)
    requires (a.Number? || a.Stamp?) && Ready(wk, a) && AsksOwn(c, w, wk, issued)
    requires a.Number? ==> |issued| + 1 < TWO_64
    ensures AsksOwn(c, w, Worker(NextPC(c, w, |issued| + 1, wk, a), NextSession(wk, a)), Noted(issued, w, wk.pc, a))
  {
    var now := Noted(issued, w, wk.pc, a);
    NotedGrows(c, w, wk, a, issued);
    SentGrows(c, w, wk.ses.sent, w, issued, now);
    forall i | 0 <= i < |wk.ses.sent| && a.Number?
      ensures wk.ses.sent[i].seqID < |issued| + 1
    {
      assert Own(c, w, wk.ses.sent[i], issued);
    }
  }

  lemma OtherAsks(c: Config, w: nat, id: nat, wk: Worker, a: Action, issued: seq<Issue>)
    requires !a.Number? && !a.Stamp? && Ready(wk, a) && AsksOwn(c, w, wk, issued)
    ensures AsksOwn(c, w, Worker(NextPC(c, w, id, wk, a), NextSession(wk, a)), issued)
  {
    match a {
      case Send(_, _) => SentAppend(c, w, wk.ses.sent, wk.pc.req, issued);
      case Recv(_, res) =>
      case _ =>
    }
  }

  lemma WorkerAsks(c: Config, w: nat, wk: Worker, a: Action, issued: seq<Issue>)
    requires Ready(wk, a) && AsksOwn(c, w, wk, issued) && (a.Number? ==> |issued| + 1 < TWO_64)
    ensures AsksOwn(c, w, Worker(NextPC(c, w, |issued| + 1, wk, a), NextSession(wk, a)), Noted(issued, w, wk.pc, a))
  {
    if a.Number? || a.Stamp? {
      NumberAsks(c, w, wk, a, issued);
    } else {
      OtherAsks(c, w, |issued| + 1, wk, a, issued);
    }
  }

  // ---------- Pipes of whole frames ----------

  // The replies to the requests at the given positions.
  function Pick(sent: seq<Frame>, at: seq<nat>): (fs: seq<Frame>)
    requires forall i :: 0 <= i < |at| ==> at[i] < |sent|
    ensures |fs| == |at| && forall i :: 0 <= i < |at| ==> fs[i] == Amf.Echo(sent[at[i]])
  {
    seq(|at|, i requires 0 <= i < |at| => Amf.Echo(sent[at[i]]))
  }

  // One pipe is the requests not yet handled, the other the replies not yet received.
  predicate PipesOk(t: Transport, ses: Session) {
    && ses.handled <= |ses.sent| && ses.recvd <= |ses.echoed|
    && (forall i :: 0 <= i < |ses.echoed| ==> ses.echoed[i] < |ses.sent|)
    && ses.c2s == Content(t, ses.sent[ses.handled..])
    && ses.s2c == Content(t, Pick(ses.sent, ses.echoed[ses.recvd..]))
    && (ses.amf.Replying? ==>
      ses.amf.of < |ses.sent| && ses.amf.buf == Encoded(Amf.Echo(ses.sent[ses.amf.of])))
  }

  predicate AllCarried(t: Transport, fs: seq<Frame>) {
    forall f :: f in fs ==> Carried(t, f)
  }

  lemma OwnAreCarried(c: Config, w: nat, sent: seq<Frame>, issued: seq<Issue>)
    requires SentOk(c, w, sent, issued) && |c.payload| <= MaxPayload(c.transport)
    ensures AllCarried(c.transport, sent)
  {
    forall f | f in sent
      ensures Carried(c.transport, f)
    {
      var i :| 0 <= i < |sent| && f == sent[i];
      assert Own(c, w, sent[i], issued);
    }
  }

  lemma SendKeepsPipes(t: Transport, ses: Session, req: Frame, after: Pipe)
    requires PipesOk(t, ses) && Encodable(req) && Puts(t, ses.c2s, after, Encoded(req), None)
    ensures PipesOk(t, ses.(c2s := after, sent := ses.sent + [req]))
  {
    var sent := ses.sent + [req];
    PutWhole(t, ses.sent[ses.handled..], req, after);
    assert sent[ses.handled..] == ses.sent[ses.handled..] + [req];
    assert Pick(sent, ses.echoed[ses.recvd..]) == Pick(ses.sent, ses.echoed[ses.recvd..]);
  }

  // The handler reads the oldest request it has not read yet.
  lemma HandlerReads(t: Transport, ses: Session, after: Pipe, raw: seq<byte>)
    requires PipesOk(t, ses) && AllCarried(t, ses.sent) && Takes(t, ses.c2s, after, Success(raw))
    ensures ses.handled < |ses.sent| && raw == Encoded(ses.sent[ses.handled])
    ensures after == Content(t, ses.sent[ses.handled + 1..])
  {
    var fs := ses.sent[ses.handled..];
    TakeFirst(t, fs, after, raw);
    assert fs[1..] == ses.sent[ses.handled + 1..];
  }

  lemma CarriedIsEncodable(t: Transport, f: Frame)
    requires Carried(t, f)
    ensures Encodable(f)
  {
  }

  lemma HandledKeepsPipes(t: Transport, ses: Session, after: Pipe, amf: Handler)
    requires PipesOk(t, ses) && ses.handled < |ses.sent| && after == Content(t, ses.sent[ses.handled + 1..])
    requires amf.Replying? ==> amf.of == ses.handled && amf.buf == Encoded(Amf.Echo(ses.sent[ses.handled]))
    ensures PipesOk(t, ses.(c2s := after, handled := ses.handled + 1, amf := amf))
  {
  }

  lemma AmfRecvKeepsPipes(t: Transport, wk: Worker, after: Pipe, raw: seq<byte>)
    requires PipesOk(t, wk.ses) && AllCarried(t, wk.ses.sent) && wk.ses.amf.Listening?
    requires Takes(t, wk.ses.c2s, after, Success(raw))
    ensures PipesOk(t, NextSession(wk, AmfRecv(after, raw)))
  {
    HandlerReads(t, wk.ses, after, raw);
    var f := wk.ses.sent[wk.ses.handled];
    CarriedIsEncodable(t, f);
    Amf.ReactToFrame(f);
    HandledKeepsPipes(t, wk.ses, after, NextSession(wk, AmfRecv(after, raw)).amf);
  }

  lemma PickAppend(sent: seq<Frame>, echoed: seq<nat>, of: nat, k: nat)
    requires (forall i :: 0 <= i < |echoed| ==> echoed[i] < |sent|) && of < |sent| && k <= |echoed|
    ensures Pick(sent, (echoed + [of])[k..]) == Pick(sent, echoed[k..]) + [Amf.Echo(sent[of])]
  {
  }

  lemma AmfSendKeepsPipes(t: Transport, ses: Session, after: Pipe)
    requires PipesOk(t, ses) && AllCarried(t, ses.sent) && ses.amf.Replying?
    requires Puts(t, ses.s2c, after, ses.amf.buf, None)
    ensures PipesOk(t, ses.(s2c := after, amf := Listening, echoed := ses.echoed + [ses.amf.of]))
  {
    CarriedIsEncodable(t, ses.sent[ses.amf.of]);
    PutWhole(t, Pick(ses.sent, ses.echoed[ses.recvd..]), Amf.Echo(ses.sent[ses.amf.of]), after);
    PickAppend(ses.sent, ses.echoed, ses.amf.of, ses.recvd);
  }

  lemma PickCarried(t: Transport, sent: seq<Frame>, at: seq<nat>)
    requires (forall i :: 0 <= i < |at| ==> at[i] < |sent|) && AllCarried(t, sent)
    ensures AllCarried(t, Pick(sent, at))
  {
    forall f | f in Pick(sent, at)
      ensures Carried(t, f)
    {
      var i :| 0 <= i < |at| && f == Pick(sent, at)[i];
      assert sent[at[i]] in sent;
    }
  }

  lemma PickRest(sent: seq<Frame>, echoed: seq<nat>, k: nat)
    requires (forall i :: 0 <= i < |echoed| ==> echoed[i] < |sent|) && k < |echoed|
    ensures Pick(sent, echoed[k..])[0] == Amf.Echo(sent[echoed[k]])
    ensures Pick(sent, echoed[k..])[1..] == Pick(sent, echoed[k + 1..])
  {
    assert echoed[k..][1..] == echoed[k + 1..];
  }

  lemma TakesReply(t: Transport, sent: seq<Frame>, echoed: seq<nat>, k: nat, after: Pipe, raw: seq<byte>)
    requires (forall i :: 0 <= i < |echoed| ==> echoed[i] < |sent|) && k <= |echoed| && AllCarried(t, sent)
    requires Takes(t, Content(t, Pick(sent, echoed[k..])), after, Success(raw))
    ensures k < |echoed| && raw == Encoded(Amf.Echo(sent[echoed[k]]))
    ensures after == Content(t, Pick(sent, echoed[k + 1..]))
  {
    PickCarried(t, sent, echoed[k..]);
    TakeFirst(t, Pick(sent, echoed[k..]), after, raw);
    PickRest(sent, echoed, k);
  }

  // A successful Recv returns the oldest reply not yet received.
  lemma RecvReads(t: Transport, ses: Session, after: Pipe, raw: seq<byte>)
    requires PipesOk(t, ses) && AllCarried(t, ses.sent) && Takes(t, ses.s2c, after, Success(raw))
    ensures ses.recvd < |ses.echoed| && raw == Encoded(Amf.Echo(ses.sent[ses.echoed[ses.recvd]]))
    ensures after == Content(t, Pick(ses.sent, ses.echoed[ses.recvd + 1..]))
  {
    TakesReply(t, ses.sent, ses.echoed, ses.recvd, after, raw);
  }

  lemma RecvKeepsPipes(t: Transport, ses: Session, after: Pipe, raw: seq<byte>)
    requires PipesOk(t, ses) && AllCarried(t, ses.sent) && Takes(t, ses.s2c, after, Success(raw))
    ensures PipesOk(t, ses.(s2c := after, recvd := ses.recvd + 1))
  {
    RecvReads(t, ses, after, raw);
  }

  // A Send that failed and left the stream as it was changes nothing.
  lemma SendStepKeepsPipes(t: Transport, wk: Worker, after: Pipe, err: Option<ChannelError>)
    requires wk.pc.Numbered? && Puts(t, wk.ses.c2s, after, EncodeDiscardingError(wk.pc.req), err)
    requires PipesOk(t, wk.ses) && Carried(t, wk.pc.req) && (err.None? || after == wk.ses.c2s)
    ensures PipesOk(t, NextSession(wk, Send(after, err)))
  {
    if err.None? {
      CarriedIsEncodable(t, wk.pc.req);
      SendKeepsPipes(t, wk.ses, wk.pc.req, after);
    } else {
      assert NextSession(wk, Send(after, err)) == wk.ses;
    }
  }

  lemma RecvStepKeepsPipes(t: Transport, wk: Worker, after: Pipe, res: Result<seq<byte>, ChannelError>)
    requires wk.pc.Awaiting? && Takes(t, wk.ses.s2c, after, res)
    requires PipesOk(t, wk.ses) && AllCarried(t, wk.ses.sent) && (res.Success? || after == wk.ses.s2c)
    ensures PipesOk(t, NextSession(wk, Recv(after, res)))
  {
    if res.Success? {
      RecvKeepsPipes(t, wk.ses, after, res.value);
    } else {
      assert NextSession(wk, Recv(after, res)) == wk.ses;
    }
  }

  lemma AmfSendStepKeepsPipes(t: Transport, wk: Worker, after: Pipe, err: Option<ChannelError>)
    requires wk.ses.amf.Replying? && Puts(t, wk.ses.s2c, after, wk.ses.amf.buf, err)
    requires PipesOk(t, wk.ses) && AllCarried(t, wk.ses.sent) && (err.None? || after == wk.ses.s2c)
    ensures PipesOk(t, NextSession(wk, AmfSend(after, err)))
  {
    if err.None? {
      AmfSendKeepsPipes(t, wk.ses, after);
    } else {
      assert NextSession(wk, AmfSend(after, err)) == wk.ses.(amf := Listening);
    }
  }

  lemma StepKeepsPipes(t: Transport, wk: Worker, a: Action)
    requires Ready(wk, a) && Allowed(t, wk, a) && Clean(wk.ses, a)
    requires PipesOk(t, wk.ses) && AllCarried(t, wk.ses.sent) && (wk.pc.Numbered? ==> Carried(t, wk.pc.req))
    ensures PipesOk(t, NextSession(wk, a))
  {
    match a {
      case Send(after, err) => SendStepKeepsPipes(t, wk, after, err);
      case Recv(after, res) => RecvStepKeepsPipes(t, wk, after, res);
      case AmfRecv(after, raw) => AmfRecvKeepsPipes(t, wk, after, raw);
      case AmfSend(after, err) => AmfSendStepKeepsPipes(t, wk, after, err);
      case _ => assert NextSession(wk, a) == if a.AmfStop? then wk.ses.(amf := Stopped) else wk.ses;
    }
  }

  // ---------- Judging replies ----------

  // A received reply is judged by whether it answers the current request.
  lemma JudgeReply(sent: seq<Frame>, k: nat)
    requires k < |sent| && Encodable(sent[k]) && Increasing(sent)
    ensures Judge(Encoded(Amf.Echo(sent[k])), sent[|sent| - 1].seqID)
         == if k == |sent| - 1 then Matched(Amf.Echo(sent[k])) else Dropping(Mismatch)
  {
    var f := Amf.Echo(sent[k]);
    DecodeEncode(f, []);
    assert Encoded(f) + [] == Encoded(f);
  }

  // A worker counts only the reply to the request it has just sent.
  predicate ReplyOk(pc: PC, sent: seq<Frame>) {
    match pc
    case Matched(resp) => sent != [] && resp == Amf.Echo(sent[|sent| - 1])
    case Counted(resp) => sent != [] && resp == Amf.Echo(sent[|sent| - 1])
    case Timed(resp, _) => sent != [] && resp == Amf.Echo(sent[|sent| - 1])
    case _ => true
  }

  predicate OwnOk(c: Config, w: nat, wk: Worker, issued: seq<Issue>) {
    AsksOwn(c, w, wk, issued) && ReplyOk(wk.pc, wk.ses.sent)
  }

  predicate WorkerOk(c: Config, w: nat, wk: Worker, issued: seq<Issue>) {
    OwnOk(c, w, wk, issued) && PipesOk(c.transport, wk.ses)
  }

  // A reply to the worker's k-th delivered request counts exactly when that is the newest one.
  lemma JudgedByPosition(c: Config, w: nat, wk: Worker, a: Action, k: nat)
    requires a.Recv? && a.res.Success? && Ready(wk, a) && Increasing(wk.ses.sent)
    requires k < |wk.ses.sent| && Encodable(wk.ses.sent[k]) && a.res.value == Encoded(Amf.Echo(wk.ses.sent[k]))
    requires wk.pc.req == wk.ses.sent[|wk.ses.sent| - 1]
    ensures NextPC(c, w, 0, wk, a) == if k == |wk.ses.sent| - 1
      then Matched(Amf.Echo(wk.ses.sent[|wk.ses.sent| - 1])) else Dropping(Mismatch)
  {
    JudgeReply(wk.ses.sent, k);
  }

  lemma RecvReply(c: Config, w: nat, wk: Worker, a: Action, issued: seq<Issue>)
    requires a.Recv? && a.res.Success? && Ready(wk, a) && Allowed(c.transport, wk, a)
    requires WorkerOk(c, w, wk, issued) && AllCarried(c.transport, wk.ses.sent)
    ensures var ses := wk.ses;
      ses.recvd < |ses.echoed| && a.res.value == Encoded(Amf.Echo(ses.sent[ses.echoed[ses.recvd]])) &&
      NextPC(c, w, 0, wk, a) == if ses.echoed[ses.recvd] == |ses.sent| - 1
        then Matched(Amf.Echo(ses.sent[|ses.sent| - 1])) else Dropping(Mismatch)
  {
    var ses := wk.ses;
    RecvReads(c.transport, ses, a.after, a.res.value);
    CarriedIsEncodable(c.transport, ses.sent[ses.echoed[ses.recvd]]);
    JudgedByPosition(c, w, wk, a, ses.echoed[ses.recvd]);
  }

  lemma StepKeepsReply(c: Config, w: nat, id: nat, wk: Worker, a: Action, issued: seq<Issue>)
    requires Ready(wk, a) && Allowed(c.transport, wk, a) && (a.Number? ==> id < TWO_64)
    requires WorkerOk(c, w, wk, issued) && AllCarried(c.transport, wk.ses.sent)
    ensures ReplyOk(NextPC(c, w, id, wk, a), NextSession(wk, a).sent)
  {
    match a {
      case Recv(_, res) =>
        if res.Success? {
          RecvReply(c, w, wk, a, issued);
        }
      case _ =>
    }
  }

  lemma WorkerStep(c: Config, w: nat, wk: Worker, a: Action, issued: seq<Issue>)
    requires |c.payload| <= MaxPayload(c.transport) && Ready(wk, a) && Allowed(c.transport, wk, a) && Clean(wk.ses, a)
    requires WorkerOk(c, w, wk, issued) && (a.Number? ==> |issued| + 1 < TWO_64)
    ensures WorkerOk(c, w, Worker(NextPC(c, w, |issued| + 1, wk, a), NextSession(wk, a)), Noted(issued, w, wk.pc, a))
  {
    OwnAreCarried(c, w, wk.ses.sent, issued);
    WorkerAsks(c, w, wk, a, issued);
    StepKeepsPipes(c.transport, wk, a);
    StepKeepsReply(c, w, |issued| + 1, wk, a, issued);
  }

  lemma WorkerGrows(c: Config, v: nat, vk: Worker, w: nat, was: seq<Issue>, now: seq<Issue>)
    requires WorkerOk(c, v, vk, was) && Grown(w, was, now) && v != w
    ensures WorkerOk(c, v, vk, now)
  {
    AsksGrow(c, v, vk, w, was, now);
  }

  // ---------- The whole state ----------

  predicate IssuedOk(c: Config, s: State) {
    |s.workers| == c.workers && |s.issued| == s.seqNo
  }

  predicate WorkersOk(c: Config, s: State) {
    forall w :: 0 <= w < |s.workers| ==> WorkerOk(c, w, s.workers[w], s.issued)
  }

  // The reply answers a request numbered by that very worker: same number, timestamp, channel and payload.
  predicate Answers(c: Config, w: nat, resp: Frame, issued: seq<Issue>) {
    1 <= resp.seqID <= |issued| && issued[resp.seqID - 1] == Issue(w, Some(resp.sendTSNS))
    && resp == Amf.Echo(Request(c, w, resp.seqID, resp.sendTSNS))
  }

  function PendingId(pc: PC): Option<uint64> {
    match pc
    case Drawn(id) => Some(id)
    case Numbered(req) => Some(req.seqID)
    case Delivered(req) => Some(req.seqID)
    case Awaiting(req) => Some(req.seqID)
    case Matched(resp) => Some(resp.seqID)
    case _ => None
  }

  // Every counted reply answers a request of the worker that counted it, and no request is answered twice.
  predicate HitList(c: Config, hits: seq<Hit>, issued: seq<Issue>) {
    && (forall i :: 0 <= i < |hits| ==> Answers(c, hits[i].w, hits[i].resp, issued))
    && (forall i, j :: 0 <= i < j < |hits| ==> hits[i].resp.seqID != hits[j].resp.seqID)
  }

  // The request the worker is busy with has not been answered yet.
  predicate Unanswered(hits: seq<Hit>, pc: PC) {
    PendingId(pc).Some? ==> forall i :: 0 <= i < |hits| ==> hits[i].resp.seqID != PendingId(pc).value
  }

  predicate HitsOk(c: Config, s: State) {
    && |s.hits| == s.tally.rx && HitList(c, s.hits, s.issued)
    && (forall w :: 0 <= w < |s.workers| ==> Unanswered(s.hits, s.workers[w].pc))
  }

  // Each latency sample is the time since the timestamp of a counted reply, and no reply is sampled twice.
  predicate SampleList(sampled: seq<Sampled>, latencyUS: seq<int>, hits: seq<Hit>) {
    && |sampled| == |latencyUS|
    && (forall i :: 0 <= i < |sampled| ==>
      var it := sampled[i];
      Hit(it.w, it.resp) in hits &&
      latencyUS[i] == Metrics.Microseconds(Since(it.now, it.resp.sendTSNS)))
    && (forall i, j :: 0 <= i < j < |sampled| ==> sampled[i].resp.seqID != sampled[j].resp.seqID)
  }

  // A worker between AddRx and AddLatency holds a counted reply that has not been sampled.
  predicate NotSampled(sampled: seq<Sampled>, hits: seq<Hit>, w: nat, pc: PC) {
    pc.Counted? || pc.Timed? ==>
      Hit(w, pc.resp) in hits && forall i :: 0 <= i < |sampled| ==> sampled[i].resp.seqID != pc.resp.seqID
  }

  predicate SamplesOk(s: State) {
    && SampleList(s.sampled, s.tally.latencyUS, s.hits)
    && (forall w :: 0 <= w < |s.workers| ==> NotSampled(s.sampled, s.hits, w, s.workers[w].pc))
  }

  predicate OwnersOk(c: Config, s: State) {
    forall w :: 0 <= w < |s.workers| ==> OwnOk(c, w, s.workers[w], s.issued)
  }

  // The books of answered and sampled requests.
  predicate BooksOk(c: Config, s: State) {
    IssuedOk(c, s) && OwnersOk(c, s) && HitsOk(c, s) && SamplesOk(s)
  }

  predicate Inv(c: Config, s: State) {
    IssuedOk(c, s) && WorkersOk(c, s) && HitsOk(c, s) && SamplesOk(s)
  }

  lemma InvBooks(c: Config, s: State)
    requires Inv(c, s)
    ensures BooksOk(c, s)
  {
  }

  // The request a worker is busy with is its own.
  lemma PendingIsOwn(c: Config, w: nat, wk: Worker, issued: seq<Issue>)
    requires OwnOk(c, w, wk, issued)
    ensures PendingId(wk.pc).Some? ==>
      1 <= PendingId(wk.pc).value <= |issued| && issued[PendingId(wk.pc).value - 1].w == w
    ensures wk.pc.Matched? || wk.pc.Counted? || wk.pc.Timed? ==> Answers(c, w, wk.pc.resp, issued)
  {
    if wk.ses.sent != [] {
      assert Own(c, w, wk.ses.sent[|wk.ses.sent| - 1], issued);
    }
  }

  lemma StepKeepsIssued(c: Config, s: State, w: nat, a: Action)
    requires IssuedOk(c, s) && Possible(s, Step(w, a))
    ensures IssuedOk(c, Apply(c, s, Step(w, a)))
    ensures a.Number? ==> |s.issued| + 1 < TWO_64
  {
  }

  lemma StepKeepsWorkers(c: Config, s: State, w: nat, a: Action)
    requires IssuedOk(c, s) && WorkersOk(c, s) && Possible(s, Step(w, a)) && |c.payload| <= MaxPayload(c.transport)
    requires Allowed(c.transport, s.workers[w], a) && Clean(s.workers[w].ses, a)
    ensures WorkersOk(c, Apply(c, s, Step(w, a)))
  {
    var s' := Apply(c, s, Step(w, a));
    StepKeepsIssued(c, s, w, a);
    WorkerStep(c, w, s.workers[w], a, s.issued);
    NotedGrows(c, w, s.workers[w], a, s.issued);
    forall v | 0 <= v < |s.workers| && v != w
      ensures WorkerOk(c, v, s'.workers[v], s'.issued)
    {
      WorkerGrows(c, v, s.workers[v], w, s.issued, s'.issued);
    }
  }

  // A step's pending number is the one the worker had, or a new one.
  lemma PendingStep(c: Config, w: nat, id: nat, wk: Worker, a: Action)
    requires Ready(wk, a) && (a.Number? ==> id < TWO_64)
    ensures var p := PendingId(NextPC(c, w, id, wk, a));
      p.None? || p == PendingId(wk.pc) || (a.Number? && p == Some(id))
    ensures a.CountRx? ==> PendingId(NextPC(c, w, id, wk, a)).None?
  {
  }

  lemma HitListGrows(c: Config, hits: seq<Hit>, w: nat, was: seq<Issue>, now: seq<Issue>)
    requires HitList(c, hits, was) && Grown(w, was, now)
    ensures HitList(c, hits, now)
  {
    forall i | 0 <= i < |hits|
      ensures Answers(c, hits[i].w, hits[i].resp, now)
    {
      assert Answers(c, hits[i].w, hits[i].resp, was);
    }
  }

  lemma RxCountsHits(c: Config, s: State, w: nat, a: Action)
    requires Possible(s, Step(w, a)) && |s.hits| == s.tally.rx
    ensures var s' := Apply(c, s, Step(w, a)); |s'.hits| == s'.tally.rx
  {
  }

  lemma StepKeepsHitList(c: Config, s: State, w: nat, a: Action)
    requires BooksOk(c, s) && Possible(s, Step(w, a))
    ensures var s' := Apply(c, s, Step(w, a)); HitList(c, s'.hits, s'.issued)
  {
    var wk := s.workers[w];
    NotedGrows(c, w, wk, a, s.issued);
    HitListGrows(c, s.hits, w, s.issued, Noted(s.issued, w, wk.pc, a));
    if a.CountRx? {
      PendingIsOwn(c, w, wk, s.issued);
      assert Unanswered(s.hits, wk.pc);
    }
  }

  lemma NewIsUnanswered(c: Config, hits: seq<Hit>, issued: seq<Issue>, pc: PC)
    requires HitList(c, hits, issued) && (PendingId(pc).Some? ==> PendingId(pc).value > |issued|)
    ensures Unanswered(hits, pc)
  {
    assert forall i :: 0 <= i < |hits| ==> Answers(c, hits[i].w, hits[i].resp, issued);
  }

  lemma OtherStaysUnanswered(c: Config, hits: seq<Hit>, issued: seq<Issue>, w: nat, wk: Worker, v: nat, vk: Worker)
    requires Unanswered(hits, vk.pc) && v != w && wk.pc.Matched?
    requires OwnOk(c, v, vk, issued) && OwnOk(c, w, wk, issued)
    ensures Unanswered(hits + [Hit(w, wk.pc.resp)], vk.pc)
  {
    PendingIsOwn(c, v, vk, issued);
    PendingIsOwn(c, w, wk, issued);
  }

  lemma StepKeepsUnanswered(c: Config, s: State, w: nat, a: Action, v: nat)
    requires BooksOk(c, s) && Possible(s, Step(w, a)) && v < |s.workers|
    ensures var s' := Apply(c, s, Step(w, a)); Unanswered(s'.hits, s'.workers[v].pc)
  {
    var wk := s.workers[w];
    assert Unanswered(s.hits, s.workers[v].pc);
    if v == w {
      var pc := NextPC(c, w, s.seqNo + 1, wk, a);
      PendingStep(c, w, s.seqNo + 1, wk, a);
      if a.Number? {
        NewIsUnanswered(c, s.hits, s.issued, pc);
      }
    } else if a.CountRx? {
      OtherStaysUnanswered(c, s.hits, s.issued, w, wk, v, s.workers[v]);
    }
  }

  lemma StepKeepsHits(c: Config, s: State, w: nat, a: Action)
    requires BooksOk(c, s) && Possible(s, Step(w, a))
    ensures HitsOk(c, Apply(c, s, Step(w, a)))
  {
    var s' := Apply(c, s, Step(w, a));
    RxCountsHits(c, s, w, a);
    StepKeepsHitList(c, s, w, a);
    forall v | 0 <= v < |s'.workers|
      ensures Unanswered(s'.hits, s'.workers[v].pc)
    {
      StepKeepsUnanswered(c, s, w, a, v);
    }
  }

  lemma OnlySampleSamples(c: Config, s: State, w: nat, a: Action)
    requires Possible(s, Step(w, a)) && !a.Sample?
    ensures var s' := Apply(c, s, Step(w, a));
      s'.sampled == s.sampled && s'.tally.latencyUS == s.tally.latencyUS && s.hits <= s'.hits
  {
  }

  // Which steps lead between AddRx and AddLatency.
  lemma SamplePlaces(c: Config, w: nat, id: nat, wk: Worker, a: Action)
    requires Ready(wk, a) && (a.Number? ==> id < TWO_64)
    ensures var pc := NextPC(c, w, id, wk, a);
      (pc.Counted? && pc != wk.pc ==> a.CountRx? && pc == Counted(wk.pc.resp))
      && (pc.Timed? && pc != wk.pc ==> a.Measure? && pc == Timed(wk.pc.resp, a.now))
  {
    match a {
      case Recv(_, res) =>
      case _ =>
    }
  }

  lemma SampleListGrows(sampled: seq<Sampled>, latencyUS: seq<int>, hits: seq<Hit>, hits': seq<Hit>)
    requires SampleList(sampled, latencyUS, hits) && hits <= hits'
    ensures SampleList(sampled, latencyUS, hits')
  {
  }

  lemma SampleAdds(sampled: seq<Sampled>, latencyUS: seq<int>, hits: seq<Hit>, w: nat, pc: PC)
    requires SampleList(sampled, latencyUS, hits) && NotSampled(sampled, hits, w, pc) && pc.Timed?
    ensures SampleList(sampled + [Sampled(w, pc.resp, pc.now)],
                       latencyUS + [Metrics.Microseconds(Since(pc.now, pc.resp.sendTSNS))], hits)
  {
  }

  lemma StepKeepsSampleList(c: Config, s: State, w: nat, a: Action)
    requires BooksOk(c, s) && Possible(s, Step(w, a))
    ensures var s' := Apply(c, s, Step(w, a)); SampleList(s'.sampled, s'.tally.latencyUS, s'.hits)
  {
    var s', wk := Apply(c, s, Step(w, a)), s.workers[w];
    if a.Sample? {
      assert NotSampled(s.sampled, s.hits, w, wk.pc);
      SampleAdds(s.sampled, s.tally.latencyUS, s.hits, w, wk.pc);
    } else {
      OnlySampleSamples(c, s, w, a);
      SampleListGrows(s.sampled, s.tally.latencyUS, s.hits, s'.hits);
    }
  }

  lemma CountedNotSampled(sampled: seq<Sampled>, latencyUS: seq<int>, hits: seq<Hit>, w: nat, resp: Frame)
    requires SampleList(sampled, latencyUS, hits) && Unanswered(hits, Matched(resp))
    ensures NotSampled(sampled, hits + [Hit(w, resp)], w, Counted(resp))
  {
    assert (hits + [Hit(w, resp)])[|hits|] == Hit(w, resp);
    forall i | 0 <= i < |sampled|
      ensures sampled[i].resp.seqID != resp.seqID
    {
      var k :| 0 <= k < |hits| && hits[k] == Hit(sampled[i].w, sampled[i].resp);
    }
  }

  // The step of a worker's own.
  lemma StepKeepsOwnNotSampled(c: Config, s: State, w: nat, a: Action)
    requires BooksOk(c, s) && Possible(s, Step(w, a))
    ensures var s' := Apply(c, s, Step(w, a)); NotSampled(s'.sampled, s'.hits, w, s'.workers[w].pc)
  {
    var wk := s.workers[w];
    assert NotSampled(s.sampled, s.hits, w, wk.pc);
    SamplePlaces(c, w, s.seqNo + 1, wk, a);
    if a.CountRx? {
      assert Unanswered(s.hits, wk.pc);
      CountedNotSampled(s.sampled, s.tally.latencyUS, s.hits, w, wk.pc.resp);
    }
  }

  lemma StepKeepsNotSampled(c: Config, s: State, w: nat, a: Action, v: nat)
    requires BooksOk(c, s) && Possible(s, Step(w, a)) && v < |s.workers|
    ensures var s' := Apply(c, s, Step(w, a)); NotSampled(s'.sampled, s'.hits, v, s'.workers[v].pc)
  {
    assert NotSampled(s.sampled, s.hits, v, s.workers[v].pc);
    if v == w {
      StepKeepsOwnNotSampled(c, s, w, a);
    } else if a.Sample? {
      PendingIsOwn(c, v, s.workers[v], s.issued);
      PendingIsOwn(c, w, s.workers[w], s.issued);
    } else {
      OnlySampleSamples(c, s, w, a);
    }
  }

  lemma StepKeepsSamples(c: Config, s: State, w: nat, a: Action)
    requires BooksOk(c, s) && Possible(s, Step(w, a))
    ensures SamplesOk(Apply(c, s, Step(w, a)))
  {
    var s' := Apply(c, s, Step(w, a));
    StepKeepsSampleList(c, s, w, a);
    forall v | 0 <= v < |s'.workers|
      ensures NotSampled(s'.sampled, s'.hits, v, s'.workers[v].pc)
    {
      StepKeepsNotSampled(c, s, w, a, v);
    }
  }

  lemma StepKeepsInv(c: Config, s: State, w: nat, a: Action)
    requires Inv(c, s) && Possible(s, Step(w, a)) && |c.payload| <= MaxPayload(c.transport)
    requires Allowed(c.transport, s.workers[w], a) && Clean(s.workers[w].ses, a)
    ensures Inv(c, Apply(c, s, Step(w, a)))
  {
    InvBooks(c, s);
    StepKeepsIssued(c, s, w, a);
    StepKeepsWorkers(c, s, w, a);
    StepKeepsHits(c, s, w, a);
    StepKeepsSamples(c, s, w, a);
  }

  lemma InitInv(c: Config)
    ensures Inv(c, Init(c))
  {
    var s := Init(c);
    assert forall w :: 0 <= w < |s.workers| ==> s.workers[w] == Fresh(c.transport);
    assert Pick([], []) == [];
  }

  lemma {:induction false} CleanRunKeepsInv(c: Config, es: seq<Event>)
    requires Run(c, es).Some? && Faithful(c, es) && CleanRun(c, es) && |c.payload| <= MaxPayload(c.transport)
    ensures Inv(c, Run(c, es).value)
    decreases |es|
  {
    if es == [] {
      InitInv(c);
    } else {
      var init, e := es[..|es| - 1], es[|es| - 1];
      CleanRunKeepsInv(c, init);
      if e.Step? {
        StepKeepsInv(c, Run(c, init).value, e.w, e.a);
      }
    }
  }

  // ---------- Times ----------

  // The time a worker has read for its sample is not before the one on the reply.
  predicate TimedOk(pc: PC, clock: int64) {
    pc.Timed? ==> pc.resp.sendTSNS <= pc.now <= clock
  }

  predicate TimesOk(s: State) {
    && (forall i :: 0 <= i < |s.issued| && s.issued[i].stamp.Some? ==> s.issued[i].stamp.value <= s.clock)
    && (forall w :: 0 <= w < |s.workers| ==> TimedOk(s.workers[w].pc, s.clock))
    && (forall i :: 0 <= i < |s.sampled| ==> s.sampled[i].resp.sendTSNS <= s.sampled[i].now)
  }

  lemma StepKeepsTimed(c: Config, s: State, w: nat, a: Action, v: nat)
    requires BooksOk(c, s) && TimesOk(s) && Possible(s, Step(w, a)) && Timely(s.clock, a) && v < |s.workers|
    ensures var s' := Apply(c, s, Step(w, a)); TimedOk(s'.workers[v].pc, s'.clock)
  {
    assert TimedOk(s.workers[v].pc, s.clock);
    SamplePlaces(c, w, s.seqNo + 1, s.workers[w], a);
    if v == w && a.Measure? {
      PendingIsOwn(c, w, s.workers[w], s.issued);
    }
  }

  lemma StepKeepsTimes(c: Config, s: State, w: nat, a: Action)
    requires BooksOk(c, s) && TimesOk(s) && Possible(s, Step(w, a)) && Timely(s.clock, a)
    ensures TimesOk(Apply(c, s, Step(w, a)))
  {
    var s' := Apply(c, s, Step(w, a));
    assert TimedOk(s.workers[w].pc, s.clock);
    forall v | 0 <= v < |s'.workers|
      ensures TimedOk(s'.workers[v].pc, s'.clock)
    {
      StepKeepsTimed(c, s, w, a, v);
    }
  }

  lemma {:induction false} SteadyRunKeepsTimes(c: Config, es: seq<Event>)
    requires Run(c, es).Some? && Faithful(c, es) && CleanRun(c, es) && |c.payload| <= MaxPayload(c.transport)
    requires Steady(c, es)
    ensures TimesOk(Run(c, es).value)
    decreases |es|
  {
    if es != [] {
      var init, e := es[..|es| - 1], es[|es| - 1];
      SteadyRunKeepsTimes(c, init);
      CleanRunKeepsInv(c, init);
      InvBooks(c, Run(c, init).value);
      if e.Step? {
        StepKeepsTimes(c, Run(c, init).value, e.w, e.a);
      }
    }
  }
}
