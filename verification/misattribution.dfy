/**
 Runs of one session in which the worker counts a reply that echoes nothing it ever asked: over a byte stream
 a single call that fails inside a frame is enough.
 */
module Misattribution {
  import opened Bytes
  import opened Wire
  import opened Stream
  import opened Framing
  import opened Pipes
  import opened Protocol
  import opened Attribution
  import opened Numbering
  import opened EndToEnd
  import opened Composite
  import opened Solo
  import opened Witnesses
  import Amf

  // The run counts a reply that echoes nothing that the worker ever handed to Send, and bad is the only call
  // of the run that failed and moved something; the clock is never set back.
  predicate Misattributes(c: Config, es: seq<Event>, w: nat, bad: Action, resp: Frame) {
    Run(c, es).Some? && Faithful(c, es) && Steady(c, es) && Unclean(c, es) == [bad]
    && Hit(w, resp) in Run(c, es).value.hits && !EchoesOne(resp, Handed(c, es, w))
  }

  // The frame that carries a number is the only one that does.
  lemma NotHanded(c: Config, es: seq<Event>, w: nat, f: Frame, resp: Frame)
    requires Run(c, es).Some? && w < c.workers && f in Handed(c, es, w)
    requires resp.seqID == f.seqID && resp != Amf.Echo(f)
    ensures !EchoesOne(resp, Handed(c, es, w))
  {
    var fs := Handed(c, es, w);
    var i :| 0 <= i < |fs| && fs[i] == f;
    forall k | 0 <= k < |fs|
      ensures resp != Amf.Echo(fs[k])
    {
      if fs[k].seqID == f.seqID {
        HandedOnce(c, es, w, i, w, k);
      }
    }
  }

  lemma Conclude(c: Config, w: nat, steps: seq<Action>, m: Local, bad: Action, resp: Frame, f: Frame)
    returns (es: seq<Event>)
    requires w < c.workers && Leads(c, w, steps, m, [bad]) && m.wk.pc == Matched(resp) && LastSent(m, f)
    requires resp.seqID == f.seqID && resp != Amf.Echo(f)
    ensures Misattributes(c, es, w, bad, resp)
  {
    es := CountedRun(c, w, steps, m, [bad]);
    SentWasHanded(c, es, w);
    assert f in m.wk.ses.sent;
    NotHanded(c, es, w, f, resp);
  }

  // A run of worker w over a byte stream, on a channel of its own.
  function Single(b: Backend, payload: seq<byte>, w: nat): Config {
    Config(Streamed(b), Latency, payload, w + 1, w + 1)
  }

  // A request whose reply is on its way when the worker's Recv takes a part of it and times out.
  lemma PartlyLost(c: Config, w: nat, before: seq<Action>, m: Local, now: int64, after: Pipe)
    returns (steps: seq<Action>, q: Local, bad: Action)
    requires Leads(c, w, before, m, []) && c.mode.Latency? && m.seqNo + 1 < TWO_64 && m.clock <= now
    requires |c.payload| <= MaxPayload(c.transport)
    requires Stands(m, Idle, m.seqNo, m.clock, Content(c.transport, []), Content(c.transport, []))
    requires var left := Content(c.transport, [Amf.Echo(Request(c, w, m.seqNo + 1, now))]);
      after != left && Takes(c.transport, left, after, Failure(TIMED_OUT))
    ensures bad == Recv(after, Failure(TIMED_OUT)) && Leads(c, w, steps, q, [bad])
    ensures Stands(q, Idle, m.seqNo + 1, now, Content(c.transport, []), after)
  {
    var worse;
    steps, q := EchoedRound(c, w, before, m, [], now);
    bad := Recv(after, Failure(TIMED_OUT));
    steps, q, worse := LostRound(c, w, steps, q, [], after);
    assert worse == [bad];
  }

  // ---------- A Recv that times out behind the header ----------

  // A Recv that fails behind the header of a frame leaves the payload.
  lemma PayloadStays(b: Backend, f: Frame)
    requires Encodable(f) && f.payload != []
    ensures Received(b, Wrap(b, Encoded(f)), f.payload, Failure(TIMED_OUT))
    ensures |f.payload| < |Wrap(b, Encoded(f))|
  {
    var x, w := Encoded(f), Wrap(b, Encoded(f));
    EncodedDeliverable(b, f);
    DeliverableIff(b, x);
    assert x[|x| - |f.payload|..] == f.payload == w[|w| - |f.payload|..];
  }

  lemma PayloadLeft(b: Backend, f: Frame, inner: Frame)
    requires Encodable(f) && Encodable(inner) && f.payload == Wrap(b, Encoded(inner))
    ensures Takes(Streamed(b), Content(Streamed(b), [f]), Content(Streamed(b), [inner]), Failure(TIMED_OUT))
    ensures Content(Streamed(b), [f]) != Content(Streamed(b), [inner])
  {
    StreamOne(b, f);
    StreamOne(b, inner);
    PayloadStays(b, f);
  }

  // The worker has lost the first reply and sent its second request; the payload it has lost is inner.
  lemma SecondRequest(b: Backend, inner: Frame) returns (steps: seq<Action>, q: Local, bad: Action)
    requires Encodable(inner) && |Wrap(b, Encoded(inner))| <= MAX_PAYLOAD
    ensures var c := Single(b, Wrap(b, Encoded(inner)), 0);
      Leads(c, 0, steps, q, [bad]) && bad.Recv? && q.wk.pc == Awaiting(Request(c, 0, 2, 0)) && q.wk.ses.amf.Listening?
      && LastSent(q, Request(c, 0, 2, 0)) && q.wk.ses.s2c == Content(c.transport, [inner])
  {
    var c := Single(b, Wrap(b, Encoded(inner)), 0);
    var t, worse := c.transport, [];
    steps := OpenedLeads(c, 0);
    PayloadLeft(b, Amf.Echo(Request(c, 0, 1, 0)), inner);
    steps, q, bad := PartlyLost(c, 0, steps, Opened(t), 0, Content(t, [inner]));
    PutOne(t, Request(c, 0, 2, 0));
    steps, q, worse := SendRound(c, 0, steps, q, [bad], 0, Content(t, [Request(c, 0, 2, 0)]), None);
  }

  // The payload of a reply that was lost behind its header is read as a reply: whatever response to the second
  // request it holds is counted.
  lemma LostHeaderMisattributes(b: Backend, forged: Frame) returns (es: seq<Event>, bad: Action)
    requires forged.msgType == MSG_RESP && forged.seqID == 2 && |Wrap(b, Encoded(forged))| <= MAX_PAYLOAD
    ensures bad.Recv? && Misattributes(Single(b, Wrap(b, Encoded(forged)), 0), es, 0, bad, forged)
  {
    var c := Single(b, Wrap(b, Encoded(forged)), 0);
    var steps, q;
    steps, q, bad := SecondRequest(b, forged);
    TakeOne(c.transport, forged);
    JudgeFrame(forged);
    steps, q := MatchedRound(c, 0, steps, q, [bad], Content(c.transport, []), Encoded(forged), forged);
    es := Conclude(c, 0, steps, q, bad, forged, Request(c, 0, 2, 0));
  }

  // ---------- A Recv that times out inside the header ----------

  // What is on a stream, and one whole frame behind it.
  lemma AppendPut(b: Backend, s: seq<byte>, f: Frame)
    requires Encodable(f)
    ensures Sent(b, s, s + Wrap(b, Encoded(f)), Encoded(f), None)
  {
    assert (s + Wrap(b, Encoded(f)))[|s|..] == Wrap(b, Encoded(f));
  }

  lemma NothingTaken(b: Backend, s: seq<byte>)
    ensures Received(b, s, s, Failure(TIMED_OUT))
  {
  }

  // x is what the frame looks like on the stream; written so that proofs about rounds do not look into it.
  ghost predicate OnStream(b: Backend, f: Frame, x: seq<byte>) {
    forall g: Frame :: g == f ==> x == Wrap(b, Encoded(g))
  }

  // x is what 14 bytes less of it look like.
  ghost predicate CutOnStream(b: Backend, f: Frame, x: seq<byte>) {
    forall g: Frame :: g == f ==> |Wrap(b, Encoded(g))| >= 14 && x == Wrap(b, Encoded(g))[14..]
  }

  // One more frame on the stream.
  lemma Piled(b: Backend, s: seq<byte>, f: Frame) returns (x: seq<byte>)
    requires Encodable(f)
    ensures OnStream(b, f, x) && |x| >= HEADER_LEN && Sent(b, s, s + x, Encoded(f), None)
  {
    x := Wrap(b, Encoded(f));
    AppendPut(b, s, f);
  }

  // A request whose reply is on its way when the worker gives up; nothing is taken.
  lemma StalledRound(c: Config, w: nat, before: seq<Action>, m: Local, bad: seq<Action>, s: seq<byte>)
    returns (steps: seq<Action>, q: Local, x: seq<byte>)
    requires Leads(c, w, before, m, bad) && c.mode.Latency? && m.seqNo + 1 < TWO_64
    requires c.transport.Streamed? && |c.payload| <= MAX_PAYLOAD
    requires Stands(m, Idle, m.seqNo, m.clock, Content(c.transport, []), ByteStream(s))
    ensures OnStream(c.transport.backend, Amf.Echo(Request(c, w, m.seqNo + 1, m.clock)), x) && |x| >= HEADER_LEN
    ensures Leads(c, w, steps, q, bad)
    ensures Stands(q, Idle, m.seqNo + 1, m.clock, Content(c.transport, []), ByteStream(s + x))
  {
    var b, worse := c.transport.backend, [];
    x := Piled(b, s, Amf.Echo(Request(c, w, m.seqNo + 1, m.clock)));
    steps, q, worse := AskRound(c, w, before, m, bad, m.clock, ByteStream(s + x), None);
    NothingTaken(b, s + x);
    steps, q, worse := LostRound(c, w, steps, q, bad, ByteStream(s + x));
  }

  // Any number of them: the replies pile up.
  lemma {:induction false} StalledRounds(c: Config, w: nat, before: seq<Action>, m: Local, bad: seq<Action>,
                                         s: seq<byte>, k: nat)
    returns (steps: seq<Action>, q: Local, now: seq<byte>)
    requires Leads(c, w, before, m, bad) && c.mode.Latency? && m.seqNo + k < TWO_64
    requires c.transport.Streamed? && |c.payload| <= MAX_PAYLOAD
    requires Stands(m, Idle, m.seqNo, m.clock, Content(c.transport, []), ByteStream(s))
    ensures Leads(c, w, steps, q, bad)
    ensures Stands(q, Idle, m.seqNo + k, m.clock, Content(c.transport, []), ByteStream(now))
    ensures |now| >= |s| + HEADER_LEN * k && s <= now
  {
    if k == 0 {
      steps, q, now := before, m, s;
    } else {
      var x;
      steps, q, now := StalledRounds(c, w, before, m, bad, s, k - 1);
      steps, q, x := StalledRound(c, w, steps, q, bad, now);
      now := now + x;
    }
  }

  // At least one reply behind the bytes that are left.
  lemma PiledUp(c: Config, w: nat, before: seq<Action>, m: Local, bad: seq<Action>, left: seq<byte>, k: nat)
    returns (steps: seq<Action>, q: Local, x: seq<byte>, s: seq<byte>)
    requires Leads(c, w, before, m, bad) && c.mode.Latency? && m.seqNo + k < TWO_64 && k > 0
    requires c.transport.Streamed? && |c.payload| <= MAX_PAYLOAD
    requires Stands(m, Idle, m.seqNo, m.clock, Content(c.transport, []), ByteStream(left))
    ensures OnStream(c.transport.backend, Amf.Echo(Request(c, w, m.seqNo + 1, m.clock)), x)
    ensures Leads(c, w, steps, q, bad) && left + x <= s && |s| >= HEADER_LEN * k
    ensures Stands(q, Idle, m.seqNo + k, m.clock, Content(c.transport, []), ByteStream(s))
  {
    steps, q, x := StalledRound(c, w, before, m, bad, left);
    steps, q, s := StalledRounds(c, w, steps, q, bad, left + x, k - 1);
  }

  // A Recv that fails after 14 bytes.
  lemma HeadTaken(b: Backend, f: Frame) returns (left: seq<byte>)
    requires Encodable(f)
    ensures CutOnStream(b, f, left) && Content(Streamed(b), [f]) != ByteStream(left)
    ensures Takes(Streamed(b), Content(Streamed(b), [f]), ByteStream(left), Failure(TIMED_OUT))
  {
    left := Wrap(b, Encoded(f))[14..];
    EncodedDeliverable(b, f);
    DeliverableIff(b, Encoded(f));
    StreamOne(b, f);
  }

  // The worker's Recv takes 14 bytes of reply j and times out.
  lemma CutRound(c: Config, w: nat, before: seq<Action>, m: Local, j: uint64, now: int64)
    returns (steps: seq<Action>, q: Local, bad: Action, left: seq<byte>)
    requires Leads(c, w, before, m, []) && c.mode.Latency? && m.seqNo + 1 == j && m.clock <= now
    requires c.transport.Streamed? && |c.payload| <= MAX_PAYLOAD
    requires Stands(m, Idle, m.seqNo, m.clock, Content(c.transport, []), Content(c.transport, []))
    ensures CutOnStream(c.transport.backend, Amf.Echo(Request(c, w, j, now)), left)
    ensures Leads(c, w, steps, q, [bad]) && bad.Recv? && bad.res == Failure(TIMED_OUT)
    ensures Stands(q, Idle, j, now, Content(c.transport, []), ByteStream(left))
  {
    left := HeadTaken(c.transport.backend, Amf.Echo(Request(c, w, j, now)));
    steps, q, bad := PartlyLost(c, w, before, m, now, ByteStream(left));
  }

  // The rounds up to it.
  lemma CutStream(c: Config, w: nat, j: uint64) returns (steps: seq<Action>, q: Local, bad: Action, left: seq<byte>)
    requires c.transport.Streamed? && c.mode.Latency? && |c.payload| <= MAX_PAYLOAD && 0 < j
    ensures CutOnStream(c.transport.backend, Amf.Echo(Request(c, w, j, FORGING_TIME)), left)
    ensures Leads(c, w, steps, q, [bad]) && bad.Recv? && bad.res == Failure(TIMED_OUT)
    ensures Stands(q, Idle, j, FORGING_TIME, Content(c.transport, []), ByteStream(left))
  {
    steps, q := NormalRounds(c, w, j - 1, FORGING_TIME);
    steps, q, bad, left := CutRound(c, w, steps, q, j, FORGING_TIME);
  }

  lemma SingleReply(b: Backend, payload: seq<byte>, w: uint16, n: uint64, now: int64)
    requires |payload| <= MAX_PAYLOAD
    ensures var f := Amf.Echo(Request(Single(b, payload, w), w, n, now));
      f.seqID == n && f.sendTSNS == now && f.payload == payload && f.channelID == w && Encodable(f)
  {
  }

  // Behind the first 14 bytes of the reply that is cut, and enough replies behind it, the stream forges one.
  lemma PileForges(c: Config, b: Backend, payload: seq<byte>, j: uint64, left: seq<byte>, x: seq<byte>,
                   s: seq<byte>)
    requires |payload| <= MAX_PAYLOAD && j == CutNumber(b, payload)
    requires c == Single(b, payload, ForgingWorker(b, payload))
    requires j + 1 < TWO_64 && |s| >= HEADER_LEN * (ForgedNumber(b, ForgingWorker(b, payload), payload) - 1 - j)
    requires CutOnStream(b, Amf.Echo(Request(c, ForgingWorker(b, payload), j, FORGING_TIME)), left)
    requires OnStream(b, Amf.Echo(Request(c, ForgingWorker(b, payload), j + 1, FORGING_TIME)), x) && left + x <= s
    ensures Forges(b, ForgingWorker(b, payload), payload, s)
  {
    var w := ForgingWorker(b, payload);
    EnoughReplies(b, payload);
    SingleReply(b, payload, w, j, FORGING_TIME);
    SingleReply(b, payload, w, j + 1, FORGING_TIME);
    var f, next := Amf.Echo(Request(c, w, j, FORGING_TIME)), Amf.Echo(Request(c, w, j + 1, FORGING_TIME));
    assert left == Wrap(b, Encoded(f))[14..] && x == Wrap(b, Encoded(next));
    ForgedRead(b, f, next, s);
  }

  // Up to the request whose number the forged reply carries: the stream forges that reply.
  lemma ForgedStream(c: Config, b: Backend, payload: seq<byte>)
    returns (steps: seq<Action>, q: Local, bad: Action, s: seq<byte>)
    requires |payload| <= MAX_PAYLOAD && c == Single(b, payload, ForgingWorker(b, payload))
    ensures var w := ForgingWorker(b, payload);
      Leads(c, w, steps, q, [bad]) && bad.Recv? && bad.res == Failure(TIMED_OUT) && Forges(b, w, payload, s)
      && 0 < ForgedNumber(b, w, payload) < 0x2_0000_0000
      && Stands(q, Idle, ForgedNumber(b, w, payload) - 1, FORGING_TIME, Content(c.transport, []), ByteStream(s))
  {
    EnoughReplies(b, payload);
    var w, j: uint64 := ForgingWorker(b, payload), CutNumber(b, payload);
    var n, left, x := ForgedNumber(b, w, payload), [], [];
    steps, q, bad, left := CutStream(c, w, j);
    steps, q, x, s := PiledUp(c, w, steps, q, [bad], left, n - 1 - j);
    PileForges(c, b, payload, j, left, x, s);
  }

  // The message at the head stays there when more arrives.
  lemma ReadForged(b: Backend, s: seq<byte>, more: seq<byte>)
    requires HeadOf(b, s).Message?
    ensures Received(b, s + more, (s + more)[HeadOf(b, s).len..], Success(HeadOf(b, s).msg))
  {
    HeadStable(b, s, more);
  }

  // A Recv that times out inside the header of a reply: with every payload there are numbers and times at which
  // the rest of that reply and the next ones are read as a reply to the request of that moment.
  lemma RecvTimeoutMisattributes(b: Backend, payload: seq<byte>) returns (es: seq<Event>, bad: Action, resp: Frame)
    requires |payload| <= MAX_PAYLOAD
    ensures bad.Recv? && bad.res == Failure(TIMED_OUT)
    ensures var w := ForgingWorker(b, payload); Misattributes(Single(b, payload, w), es, w, bad, resp)
  {
    var w: nat := ForgingWorker(b, payload);
    var c := Single(b, payload, w);
    var steps, q, s;
    steps, q, bad, s := ForgedStream(c, b, payload);
    resp := Decode(HeadOf(b, s).msg).value;
    var now: int64 := if resp.sendTSNS == FORGING_TIME then FORGING_TIME + 1 else FORGING_TIME;
    steps, q := ForgedMatched(c, w, b, steps, q, bad, s, now);
    es := Conclude(c, w, steps, q, bad, resp, Request(c, w, resp.seqID, now));
  }

  lemma ForgedMatched(c: Config, w: nat, b: Backend, before: seq<Action>, m: Local, bad: Action, s: seq<byte>,
                      now: int64)
    returns (steps: seq<Action>, q: Local)
    requires Leads(c, w, before, m, [bad]) && c.mode.Latency? && m.seqNo + 1 < TWO_64 && m.clock <= now
    requires c.transport == Streamed(b) && |c.payload| <= MAX_PAYLOAD
    requires Stands(m, Idle, m.seqNo, m.clock, Content(c.transport, []), ByteStream(s))
    requires HeadOf(b, s).Message? && Judge(HeadOf(b, s).msg, m.seqNo + 1).Matched?
    ensures Leads(c, w, steps, q, [bad]) && q.wk.pc == Judge(HeadOf(b, s).msg, m.seqNo + 1)
    ensures LastSent(q, Request(c, w, m.seqNo + 1, now))
  {
    var req, worse := Request(c, w, m.seqNo + 1, now), [];
    var reply := Wrap(b, Encoded(Amf.Echo(req)));
    AppendPut(b, s, Amf.Echo(req));
    steps, q, worse := AskRound(c, w, before, m, [bad], now, ByteStream(s + reply), None);
    var h := HeadOf(b, s);
    var after := ByteStream((s + reply)[h.len..]);
    ReadForged(b, s, reply);
    steps, q := MatchedRound(c, w, steps, q, [bad], after, h.msg, Judge(h.msg, req.seqID).resp);
  }

  // ---------- A Send that fails inside a frame ----------

  const BROKEN: ChannelError := StreamError(Broken)

  // What a Send that fails may leave of the first frame, and a whole second one behind it.
  lemma CutAlone(b: Backend, f: Frame)
    requires Encodable(f)
    ensures var cut := Wrap(b, Encoded(f))[..CutAt(b)]; cut != [] && Sent(b, [], cut, Encoded(f), Some(BROKEN))
  {
    var cut := Wrap(b, Encoded(f))[..CutAt(b)];
    assert cut[0..] == cut;
  }

  lemma SpliceSent(b: Backend, first: Frame, second: Frame)
    requires Encodable(first) && Encodable(second)
    ensures Sent(b, Wrap(b, Encoded(first))[..CutAt(b)], Spliced(b, first, second), Encoded(second), None)
  {
    var cut := Wrap(b, Encoded(first))[..CutAt(b)];
    assert Spliced(b, first, second)[|cut|..] == Wrap(b, Encoded(second));
  }

  lemma BrokenSend(c: Config, b: Backend, before: seq<Action>, m: Local, f1: Frame)
    returns (steps: seq<Action>, q: Local, bad: Action)
    requires c.transport == Streamed(b) && c.mode.Latency? && Encodable(f1)
    requires Leads(c, 0, before, m, []) && m.seqNo + 1 < TWO_64 && f1 == Request(c, 0, m.seqNo + 1, m.clock)
    requires Stands(m, Idle, m.seqNo, m.clock, ByteStream([]), m.wk.ses.s2c)
    ensures Leads(c, 0, steps, q, [bad]) && bad.Send? && bad.err == Some(BROKEN)
    ensures Stands(q, Idle, m.seqNo + 1, m.clock, ByteStream(Wrap(b, Encoded(f1))[..CutAt(b)]), m.wk.ses.s2c)
  {
    var worse;
    CutAlone(b, f1);
    var cut := ByteStream(Wrap(b, Encoded(f1))[..CutAt(b)]);
    bad := Send(cut, Some(BROKEN));
    steps, q, worse := SendRound(c, 0, before, m, [], m.clock, cut, Some(BROKEN));
    assert worse == [bad];
  }

  lemma SplicingSend(c: Config, b: Backend, before: seq<Action>, m: Local, bad: seq<Action>, f1: Frame, f2: Frame)
    returns (steps: seq<Action>, q: Local)
    requires c.transport == Streamed(b) && c.mode.Latency? && Encodable(f1) && Encodable(f2)
    requires Leads(c, 0, before, m, bad) && m.seqNo + 1 < TWO_64 && f2 == Request(c, 0, m.seqNo + 1, m.clock)
    requires Stands(m, Idle, m.seqNo, m.clock, ByteStream(Wrap(b, Encoded(f1))[..CutAt(b)]), m.wk.ses.s2c)
    ensures Leads(c, 0, steps, q, bad) && LastSent(q, f2)
    ensures Stands(q, Awaiting(f2), m.seqNo + 1, m.clock, ByteStream(Spliced(b, f1, f2)), m.wk.ses.s2c)
  {
    var worse;
    SpliceSent(b, f1, f2);
    steps, q, worse := SendRound(c, 0, before, m, bad, m.clock, ByteStream(Spliced(b, f1, f2)), None);
  }

  // Up to the two requests whose numbers the splice needs.
  lemma BeforeVictim(c: Config, b: Backend) returns (steps: seq<Action>, q: Local, f1: Frame, f2: Frame)
    requires c.transport == Streamed(b) && c.mode.Latency? && |c.payload| <= MAX_PAYLOAD
    ensures Leads(c, 0, steps, q, []) && q.seqNo + 2 < TWO_64
    ensures Stands(q, Idle, q.seqNo, q.clock, ByteStream([]), ByteStream([]))
    ensures Content(c.transport, []) == ByteStream([])
    ensures f1 == Request(c, 0, q.seqNo + 1, q.clock) && f2 == Request(c, 0, q.seqNo + 2, q.clock)
    ensures Consecutive(b, f1, f2) && Consecutive(b, Amf.Echo(f1), Amf.Echo(f2))
    ensures f2.msgType == MSG_REQ && f2.sendTSNS <= 0
  {
    var n := VictimNumber(b, c.payload);
    steps, q := NormalRounds(c, 0, n - 2, 0);
    f1, f2 := Request(c, 0, n - 1, q.clock), Request(c, 0, n, q.clock);
    assert Content(c.transport, []) == ByteStream([]);
  }

  // The first request is cut off, the second sent whole.
  lemma SplicedRequests(c: Config, b: Backend, before: seq<Action>, m: Local, f1: Frame, f2: Frame)
    returns (steps: seq<Action>, q: Local, bad: Action)
    requires c.transport == Streamed(b) && c.mode.Latency? && Encodable(f1) && Encodable(f2)
    requires Leads(c, 0, before, m, []) && m.seqNo + 2 < TWO_64
    requires Stands(m, Idle, m.seqNo, m.clock, ByteStream([]), Content(c.transport, []))
    requires f1 == Request(c, 0, m.seqNo + 1, m.clock) && f2 == Request(c, 0, m.seqNo + 2, m.clock)
    ensures Leads(c, 0, steps, q, [bad]) && bad.Send? && bad.err == Some(BROKEN) && LastSent(q, f2)
    ensures Stands(q, Awaiting(f2), m.seqNo + 2, m.clock, ByteStream(Spliced(b, f1, f2)), Content(c.transport, []))
  {
    steps, q, bad := BrokenSend(c, b, before, m, f1);
    steps, q := SplicingSend(c, b, steps, q, [bad], f1, f2);
  }

  // The handler answers what the worker's Sends have left, and the worker accepts the answer.
  lemma EchoMatched(c: Config, before: seq<Action>, m: Local, bad: Action, rest: Pipe, raw: seq<byte>, resp: Frame)
    returns (steps: seq<Action>, q: Local)
    requires Leads(c, 0, before, m, [bad]) && m.wk.pc.Awaiting? && m.wk.ses.amf.Listening?
    requires Takes(c.transport, m.wk.ses.c2s, rest, Success(raw)) && m.wk.ses.s2c == Content(c.transport, [])
    requires Amf.React(raw) == Some(Encoded(resp)) && Carried(c.transport, resp) && Encodable(resp)
    requires resp.msgType == MSG_RESP && resp.seqID == m.wk.pc.req.seqID
    ensures Leads(c, 0, steps, q, [bad]) && q.wk.pc == Matched(resp) && q.wk.ses.sent == m.wk.ses.sent
  {
    var t, worse := c.transport, [];
    PutOne(t, resp);
    TakeOne(t, resp);
    JudgeFrame(resp);
    steps, q, worse := EchoRound(c, 0, before, m, [bad], rest, raw, Encoded(resp), Content(t, [resp]), None);
    steps, q := MatchedRound(c, 0, steps, q, [bad], Content(t, []), Encoded(resp), resp);
  }

  lemma SplicedEcho(c: Config, b: Backend, before: seq<Action>, m: Local, bad: Action, f1: Frame, f2: Frame)
    returns (resp: Frame, steps: seq<Action>, q: Local)
    requires c.transport == Streamed(b) && Consecutive(b, f1, f2) && f2.msgType == MSG_REQ
    requires Leads(c, 0, before, m, [bad])
    requires Stands(m, Awaiting(f2), m.seqNo, m.clock, ByteStream(Spliced(b, f1, f2)), Content(c.transport, []))
    ensures Leads(c, 0, steps, q, [bad]) && q.wk.pc == Matched(resp) && q.wk.ses.sent == m.wk.ses.sent
    ensures resp.seqID == f2.seqID && resp.sendTSNS > 0
  {
    var raw, rest := SpliceReads(b, f1, f2);
    EncodeDecode(raw);
    resp := Amf.Echo(Decode(raw).value);
    steps, q := EchoMatched(c, before, m, bad, ByteStream(rest), raw, resp);
  }

  // A Send that breaks off inside a request, on a stream that then works again: with every payload there is a
  // number at which the cut request and the next one are read as one, whose echo the worker counts.
  lemma SendFailureMisattributes(b: Backend, payload: seq<byte>) returns (es: seq<Event>, bad: Action, resp: Frame)
    requires |payload| <= MAX_PAYLOAD
    ensures bad.Send? && bad.err == Some(BROKEN) && Misattributes(Single(b, payload, 0), es, 0, bad, resp)
  {
    var c := Single(b, payload, 0);
    var steps, q, f1, f2 := BeforeVictim(c, b);
    steps, q, bad := SplicedRequests(c, b, steps, q, f1, f2);
    resp, steps, q := SplicedEcho(c, b, steps, q, bad, f1, f2);
    es := Conclude(c, 0, steps, q, bad, resp, f2);
  }

  // The first reply is cut off and lost.
  lemma BrokenReply(c: Config, b: Backend, before: seq<Action>, m: Local, f1: Frame)
    returns (steps: seq<Action>, q: Local, bad: Action)
    requires c.transport == Streamed(b) && c.mode.Latency? && |c.payload| <= MAX_PAYLOAD
    requires Leads(c, 0, before, m, []) && m.seqNo + 1 < TWO_64 && f1 == Request(c, 0, m.seqNo + 1, m.clock)
    requires Stands(m, Idle, m.seqNo, m.clock, Content(c.transport, []), ByteStream([]))
    ensures var cut := Wrap(b, Encoded(Amf.Echo(f1)))[..CutAt(b)];
      Leads(c, 0, steps, q, [bad]) && bad.AmfSend? && bad.err == Some(BROKEN)
      && Stands(q, Idle, m.seqNo + 1, m.clock, Content(c.transport, []), ByteStream(cut))
  {
    var cut, worse := Wrap(b, Encoded(Amf.Echo(f1)))[..CutAt(b)], [];
    CutAlone(b, Amf.Echo(f1));
    bad := AmfSend(ByteStream(cut), Some(BROKEN));
    steps, q, worse := AskRound(c, 0, before, m, [], m.clock, ByteStream(cut), Some(BROKEN));
    assert worse == [bad];
    NothingTaken(b, cut);
    steps, q, worse := LostRound(c, 0, steps, q, [bad], ByteStream(cut));
  }

  // The second is sent whole.
  lemma SplicingReply(c: Config, b: Backend, before: seq<Action>, m: Local, bad: seq<Action>, f1: Frame, f2: Frame)
    returns (steps: seq<Action>, q: Local)
    requires c.transport == Streamed(b) && c.mode.Latency? && |c.payload| <= MAX_PAYLOAD && Encodable(f1)
    requires Leads(c, 0, before, m, bad) && m.seqNo + 1 < TWO_64 && f2 == Request(c, 0, m.seqNo + 1, m.clock)
    requires Stands(m, Idle, m.seqNo, m.clock, Content(c.transport, []),
                    ByteStream(Wrap(b, Encoded(Amf.Echo(f1)))[..CutAt(b)]))
    ensures Leads(c, 0, steps, q, bad) && LastSent(q, f2)
    ensures Stands(q, Awaiting(f2), m.seqNo + 1, m.clock, Content(c.transport, []),
                   ByteStream(Spliced(b, Amf.Echo(f1), Amf.Echo(f2))))
  {
    var worse, after := [], ByteStream(Spliced(b, Amf.Echo(f1), Amf.Echo(f2)));
    SpliceSent(b, Amf.Echo(f1), Amf.Echo(f2));
    steps, q, worse := AskRound(c, 0, before, m, bad, m.clock, after, None);
  }

  // A Send of the handler that breaks off inside a reply, on a stream that then works again: the cut reply and
  // the next one are read as one.
  lemma ReplyFailureMisattributes(b: Backend, payload: seq<byte>) returns (es: seq<Event>, bad: Action, resp: Frame)
    requires |payload| <= MAX_PAYLOAD
    ensures bad.AmfSend? && bad.err == Some(BROKEN) && Misattributes(Single(b, payload, 0), es, 0, bad, resp)
  {
    var c := Single(b, payload, 0);
    var steps, q, f1, f2 := BeforeVictim(c, b);
    steps, q, bad := BrokenReply(c, b, steps, q, f1);
    steps, q := SplicingReply(c, b, steps, q, [bad], f1, f2);
    var raw, rest := SpliceReads(b, Amf.Echo(f1), Amf.Echo(f2));
    resp := Decode(raw).value;
    steps, q := MatchedRound(c, 0, steps, q, [bad], ByteStream(rest), raw, resp);
    es := Conclude(c, 0, steps, q, bad, resp, f2);
  }

  // ---------- Where attribution needs its hypothesis ----------

  ghost predicate AlwaysAttributed(t: Transport, payload: seq<byte>) {
    forall c: Config, es: seq<Event> ::
      c.transport == t && c.payload == payload && Run(c, es).Some? && Faithful(c, es) ==> OwnEchoes(c, es)
  }

  // The only failed call that has moved something is a Recv that timed out, and the clock is never set back.
  predicate OneTimeout(c: Config, es: seq<Event>)
    requires Run(c, es).Some?
  {
    Steady(c, es) && |Unclean(c, es)| <= 1
    && forall a :: a in Unclean(c, es) ==> a.Recv? && a.res == Failure(TIMED_OUT)
  }

  ghost predicate AttributedDespiteTimeout(t: Transport, payload: seq<byte>) {
    forall c: Config, es: seq<Event> ::
      c.transport == t && c.payload == payload && Run(c, es).Some? && Faithful(c, es) && OneTimeout(c, es) ==>
        OwnEchoes(c, es)
  }

  // Attribution without its hypothesis on failed calls: it holds in every run of the channels exactly over plain
  // SCTP, or for a payload that is too long to be sent at all; and allowing no more than one Recv to time out
  // inside a frame makes no difference to this.
  lemma AlwaysAttributedIff(t: Transport, payload: seq<byte>)
    ensures AlwaysAttributed(t, payload) <==> t.Sctp? || MAX_PAYLOAD < |payload|
    ensures AttributedDespiteTimeout(t, payload) <==> t.Sctp? || MAX_PAYLOAD < |payload|
  {
    if t.Sctp? || MAX_PAYLOAD < |payload| {
      forall c: Config, es: seq<Event> | c.transport == t && c.payload == payload && Run(c, es).Some? && Faithful(c, es)
        ensures OwnEchoes(c, es)
      {
        EveryRxIsOwnEcho(c, es);
      }
    } else {
      var es, bad, resp := RecvTimeoutMisattributes(t.backend, payload);
      var w: nat := ForgingWorker(t.backend, payload);
      var c := Single(t.backend, payload, w);
      assert !OwnEchoes(c, es) && OneTimeout(c, es);
    }
  }
}
