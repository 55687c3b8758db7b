/** What the AMF session handler makes of its messages: a transducer from received messages to replies. */
module Amf {
  import opened Bytes
  import opened Wire
  import opened Framing
  import opened SctpChannel
  import opened Pipes

  function Echo(f: Frame): Frame {
    f.(msgType := MSG_RESP)
  }

  // What the handler sends back for one received message, if anything.
  function React(raw: seq<byte>): Option<seq<byte>> {
    match Decode(raw)
    case Failure(_) => None
    case Success(frm) => if frm.msgType == MSG_REQ then Some(EncodeDiscardingError(Echo(frm))) else None
  }

  function ReplyTo(raw: seq<byte>): seq<seq<byte>> {
    if React(raw).Some? then [React(raw).value] else []
  }

  function Replies(msgs: seq<seq<byte>>): seq<seq<byte>> {
    if msgs == [] then [] else ReplyTo(msgs[0]) + Replies(msgs[1..])
  }

  function Requests(fs: seq<Frame>): seq<Frame> {
    if fs == [] then []
    else if fs[0].msgType == MSG_REQ then [fs[0]] + Requests(fs[1..])
    else Requests(fs[1..])
  }

  function Echoes(fs: seq<Frame>): (es: seq<Frame>)
    ensures |es| == |fs| && forall i :: 0 <= i < |fs| ==> es[i] == Echo(fs[i])
  {
    seq(|fs|, i requires 0 <= i < |fs| => Echo(fs[i]))
  }

  // A reply is sent exactly for a request, and it is the whole encoding of the request's echo:
  // the error the handler drops when it encodes is never set.
  lemma ReactIff(raw: seq<byte>)
    ensures React(raw).Some? <==> exists f, t :: Encodable(f) && f.msgType == MSG_REQ && raw == Encoded(f) + t
    ensures forall f, t | Encodable(f) && f.msgType == MSG_REQ && raw == Encoded(f) + t ::
      React(raw) == Some(Encoded(Frame(MSG_RESP, f.seqID, f.sendTSNS, f.channelID, f.payload)))
    ensures Decode(raw).Success? ==> Encode(Echo(Decode(raw).value)).Success?
  {
    if Decode(raw).Success? {
      EncodeDecode(raw);
      var f, t := Decode(raw).value, raw[HEADER_LEN + |Decode(raw).value.payload|..];
      assert raw == Encoded(f) + t;
      assert React(raw).Some? ==> Encodable(f) && f.msgType == MSG_REQ && raw == Encoded(f) + t;
    }
    forall f, t | Encodable(f) && f.msgType == MSG_REQ && raw == Encoded(f) + t
      ensures React(raw) == Some(Encoded(Frame(MSG_RESP, f.seqID, f.sendTSNS, f.channelID, f.payload)))
    {
      DecodeEncode(f, t);
      assert Echo(f) == Frame(MSG_RESP, f.seqID, f.sendTSNS, f.channelID, f.payload);
    }
  }

  lemma {:induction false} RepliesAppend(msgs: seq<seq<byte>>, m: seq<byte>)
    ensures Replies(msgs + [m]) == Replies(msgs) + ReplyTo(m)
    decreases |msgs|
  {
    if msgs == [] {
      assert msgs + [m] == [m];
    } else {
      RepliesAppend(msgs[1..], m);
      assert (msgs + [m])[0] == msgs[0] && (msgs + [m])[1..] == msgs[1..] + [m];
      Associative(ReplyTo(msgs[0]), Replies(msgs[1..]), ReplyTo(m));
    }
  }

  lemma ReactToFrame(f: Frame)
    requires Encodable(f)
    ensures React(Encoded(f)) == if f.msgType == MSG_REQ then Some(Encoded(Echo(f))) else None
  {
    DecodeEncode(f, []);
    assert Encoded(f) + [] == Encoded(f);
  }

  lemma {:induction false} EncodeAllConcat(fs: seq<Frame>, gs: seq<Frame>)
    ensures EncodeAll(fs + gs) == EncodeAll(fs) + EncodeAll(gs)
    ensures Echoes(fs + gs) == Echoes(fs) + Echoes(gs)
  {
  }

  lemma RequestsCons(fs: seq<Frame>, gs: seq<Frame>)
    requires |fs| <= 1
    ensures Requests(fs + gs) == Requests(fs) + Requests(gs)
  {
    if fs == [] {
      assert fs + gs == gs;
    } else {
      assert (fs + gs)[1..] == gs && fs[1..] == [];
    }
  }

  lemma ReplyToOne(raw: seq<byte>)
    ensures ReplyTo(raw) == EncodeAll(Echoes(Requests(Decodables([raw]))))
  {
    DecodableAlone(raw);
    if Decode(raw).Success? {
      var f := Decode(raw).value;
      EncodeDecode(raw);
      assert [f][1..] == [] && Requests([]) == [];
      assert Requests([f]) == if f.msgType == MSG_REQ then [f] else [];
      assert Echoes([f]) == [Echo(f)] && EncodeAll([Echo(f)]) == [Encoded(Echo(f))];
    }
    assert EncodeAll([]) == [] && Echoes([]) == [];
  }

  // On every list of messages, malformed ones and trailing bytes included, the transducer is "echo every
  // decodable request, in order, and nothing else".
  lemma {:induction false} RepliesToMessages(msgs: seq<seq<byte>>)
    ensures Replies(msgs) == EncodeAll(Echoes(Requests(Decodables(msgs))))
    decreases |msgs|
  {
    if msgs == [] {
      assert EncodeAll([]) == [] && Echoes([]) == [];
    } else {
      var m, rest := msgs[0], msgs[1..];
      RepliesToMessages(rest);
      ReplyToOne(m);
      assert msgs == [m] + rest;
      DecodablesCons(m, rest);
      DecodableAlone(m);
      RequestsCons(Decodables([m]), Decodables(rest));
      EncodeAllConcat(Echoes(Requests(Decodables([m]))), Echoes(Requests(Decodables(rest))));
      EncodeAllConcat(Requests(Decodables([m])), Requests(Decodables(rest)));
    }
  }

  lemma {:induction false} RequestsEncodable(fs: seq<Frame>)
    requires forall f :: f in fs ==> Encodable(f)
    ensures forall f :: f in Requests(fs) ==> Encodable(f)
    decreases |fs|
  {
    if fs != [] {
      RequestsEncodable(fs[1..]);
    }
  }

  lemma EchoesReadBack(b: Backend, fs: seq<Frame>, any: Frame)
    requires (forall f :: f in fs ==> Encodable(f)) && Encodable(any)
    ensures ParseAll(b, WrapAll(b, EncodeAll(Echoes(fs)))) == EncodeAll(Echoes(fs))
  {
    var es := Echoes(fs);
    forall e | e in es
      ensures Encodable(e)
    {
      var i :| 0 <= i < |es| && e == es[i];
      assert fs[i] in fs;
    }
    FramesRoundTrip(b, es, any, 0);
    assert WrapAll(b, EncodeAll(es)) + Wrap(b, Encoded(any))[..0] == WrapAll(b, EncodeAll(es));
  }

  // End to end on either backend: the stream of a client's frames (the last one perhaps cut short)
  // becomes a stream from which the client reads the echo of every request, in order.
  lemma EchoPipeline(b: Backend, fs: seq<Frame>, last: Frame, n: nat)
    requires (forall f :: f in fs ==> Encodable(f)) && Encodable(last) && n < |Wrap(b, Encoded(last))|
    ensures var received := ParseAll(b, WrapAll(b, EncodeAll(fs)) + Wrap(b, Encoded(last))[..n]);
      ParseAll(b, WrapAll(b, Replies(received))) == EncodeAll(Echoes(Requests(fs)))
  {
    FramesRoundTrip(b, fs, last, n);
    RepliesToMessages(EncodeAll(fs));
    DecodablesOfFrames(fs);
    RequestsEncodable(fs);
    EchoesReadBack(b, Requests(fs), last);
  }

  // ---------- What the handler puts ----------

  // One message's effect on the pipe to the client: its reply is put, or nothing happens.
  predicate Answered(t: Transport, before: Pipe, after: Pipe, raw: seq<byte>, err: Option<ChannelError>) {
    match React(raw)
    case Some(reply) => Puts(t, before, after, reply, err)
    case None => after == before && err.None?
  }

  // One message that the handler has read, what was left behind it, and what became of the reply: where the
  // pipe to the client was afterwards, and what the Send returned.
  datatype Turn = Turn(raw: seq<byte>, rest: Pipe, after: Pipe, err: Option<ChannelError>)

  function Raws(turns: seq<Turn>): (msgs: seq<seq<byte>>)
    ensures |msgs| == |turns|
  {
    seq(|turns|, i requires 0 <= i < |turns| => turns[i].raw)
  }

  // The pipe to the client after the first k messages.
  function OutOf(start: Pipe, turns: seq<Turn>, k: nat): Pipe
    requires k <= |turns|
  {
    if k == 0 then start else turns[k - 1].after
  }

  predicate TurnOk(t: Transport, start: Pipe, turns: seq<Turn>, i: nat)
    requires i < |turns|
  {
    Answered(t, OutOf(start, turns, i), turns[i].after, turns[i].raw, turns[i].err)
  }

  // Every message was answered, one after the other.
  predicate AllAnswered(t: Transport, start: Pipe, turns: seq<Turn>) {
    forall i: nat :: i < |turns| ==> TurnOk(t, start, turns, i)
  }

  predicate NoSendFailed(turns: seq<Turn>) {
    forall turn :: turn in turns ==> turn.err.None?
  }

  // p with whole messages added.
  function PutAll(t: Transport, p: Pipe, msgs: seq<seq<byte>>): Pipe
    requires Fit(t, p)
  {
    match t
    case Streamed(b) => ByteStream(p.unread + WrapAll(b, msgs))
    case Sctp => Packets(p.queue + msgs)
  }

  lemma AnsweredWhole(t: Transport, before: Pipe, after: Pipe, raw: seq<byte>)
    requires Fit(t, before) && Answered(t, before, after, raw, None)
    ensures after == PutAll(t, before, ReplyTo(raw))
  {
    if Decode(raw).Success? {
      EncodeDecode(raw);
    }
    match t {
      case Streamed(b) =>
        if React(raw).Some? {
          SentWhole(b, before.unread, after.unread, Echo(Decode(raw).value));
          assert WrapAll(b, [React(raw).value]) == Wrap(b, React(raw).value) + WrapAll(b, []);
        }
      case Sctp =>
    }
  }

  lemma PutAllAppend(t: Transport, p: Pipe, ms: seq<seq<byte>>, ns: seq<seq<byte>>)
    requires Fit(t, p)
    ensures PutAll(t, PutAll(t, p, ms), ns) == PutAll(t, p, ms + ns)
  {
    match t {
      case Streamed(b) =>
        WrapAllAppend(b, ms, ns);
        Associative(p.unread, WrapAll(b, ms), WrapAll(b, ns));
      case Sctp => Associative(p.queue, ms, ns);
    }
  }

  lemma OneMoreAnswered(t: Transport, start: Pipe, turns: seq<Turn>, turn: Turn)
    requires AllAnswered(t, start, turns)
    requires Answered(t, OutOf(start, turns, |turns|), turn.after, turn.raw, turn.err)
    ensures AllAnswered(t, start, turns + [turn])
    ensures OutOf(start, turns + [turn], |turns| + 1) == turn.after
  {
    var now := turns + [turn];
    forall i: nat | i < |now|
      ensures TurnOk(t, start, now, i)
    {
      FrontAnswered(t, start, turns, turn, i);
    }
  }

  lemma FrontAnswered(t: Transport, start: Pipe, turns: seq<Turn>, turn: Turn, i: nat)
    requires i <= |turns| && (i < |turns| ==> TurnOk(t, start, turns, i))
    requires Answered(t, OutOf(start, turns, |turns|), turn.after, turn.raw, turn.err)
    ensures TurnOk(t, start, turns + [turn], i)
  {
    assert OutOf(start, turns + [turn], i) == OutOf(start, turns, i);
  }

  lemma OneMoreReply(t: Transport, start: Pipe, before: Pipe, after: Pipe, msgs: seq<seq<byte>>, raw: seq<byte>)
    requires Fit(t, start) && before == PutAll(t, start, Replies(msgs)) && Answered(t, before, after, raw, None)
    ensures after == PutAll(t, start, Replies(msgs + [raw]))
  {
    AnsweredWhole(t, before, after, raw);
    PutAllAppend(t, start, Replies(msgs), ReplyTo(raw));
    RepliesAppend(msgs, raw);
  }

  lemma NothingPut(t: Transport, p: Pipe)
    requires Fit(t, p)
    ensures PutAll(t, p, Replies([])) == p
  {
  }

  // When no Send failed, the client is sent exactly the replies to the messages read.
  lemma {:induction false} LosslessSession(t: Transport, start: Pipe, turns: seq<Turn>, k: nat)
    requires AllAnswered(t, start, turns) && NoSendFailed(turns) && Fit(t, start) && k <= |turns|
    ensures OutOf(start, turns, k) == PutAll(t, start, Replies(Raws(turns)[..k]))
  {
    if k == 0 {
      NothingPut(t, start);
    } else {
      var msgs, turn := Raws(turns), turns[k - 1];
      LosslessSession(t, start, turns, k - 1);
      assert msgs[..k] == msgs[..k - 1] + [turn.raw];
      assert turn in turns && TurnOk(t, start, turns, k - 1);
      OneMoreReply(t, start, OutOf(start, turns, k - 1), turn.after, msgs[..k - 1], turn.raw);
    }
  }

  lemma LosslessHolds(t: Transport, start: Pipe, turns: seq<Turn>)
    requires AllAnswered(t, start, turns) && Fit(t, start)
    ensures NoSendFailed(turns) ==>
      OutOf(start, turns, |turns|) == PutAll(t, start, EncodeAll(Echoes(Requests(Decodables(Raws(turns))))))
  {
    RepliesToMessages(Raws(turns));
    if NoSendFailed(turns) {
      LosslessSession(t, start, turns, |turns|);
      assert Raws(turns)[..|turns|] == Raws(turns);
    }
  }

  // What a client hears, over any transport: of the frames it sent, the handler reads a front of those the
  // transport carries, and the replies are the echoes of the requests among them, in order.
  lemma HandlerHears(t: Transport, fs: seq<Frame>, all: Pipe, msgs: seq<seq<byte>>, rest: Pipe)
    requires forall f :: f in fs ==> Encodable(f)
    requires Grew(all, Content(t, fs)) && PipeReads(t, all, msgs, rest)
    ensures exists k: nat ::
      k <= |CarriedOf(t, fs)| && Replies(msgs) == EncodeAll(Echoes(Requests(CarriedOf(t, fs)[..k])))
    ensures all == Content(t, fs) && rest == Content(t, []) ==>
      Replies(msgs) == EncodeAll(Echoes(Requests(CarriedOf(t, fs))))
  {
    SessionReads(t, fs, all, msgs, rest);
    RepliesToMessages(msgs);
    var k := |Decodables(msgs)|;
    assert CarriedOf(t, fs)[..k] == Decodables(msgs);
  }
}
