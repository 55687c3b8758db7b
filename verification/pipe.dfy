/**
 The three transports as one kind of pipe: a byte stream with framed messages (kernel SCTP and QUIC), or
 a queue of messages (SCTP without TLS). Puts and Takes are the effects that every Send and Recv has.
 */
module Pipes {
  import opened Bytes
  import opened Wire
  import opened Framing
  import opened SctpChannel

  datatype Transport = Streamed(backend: Backend) | Sctp

  // One direction of a session: what has been put and not yet been taken.
  datatype Pipe = ByteStream(unread: seq<byte>) | Packets(queue: seq<seq<byte>>)

  predicate Fit(t: Transport, p: Pipe) {
    t.Streamed? <==> p.ByteStream?
  }

  // The effect of one Send.
  predicate Puts(t: Transport, before: Pipe, after: Pipe, msg: seq<byte>, err: Option<ChannelError>) {
    Fit(t, before) && Fit(t, after) &&
    match t
    case Streamed(b) => Sent(b, before.unread, after.unread, msg, err)
    case Sctp => PacketSent(before.queue, after.queue, msg, err)
  }

  // The effect of one Recv.
  predicate Takes(t: Transport, before: Pipe, after: Pipe, res: Result<seq<byte>, ChannelError>) {
    Fit(t, before) && Fit(t, after) &&
    match t
    case Streamed(b) => Received(b, before.unread, after.unread, res)
    case Sctp => PacketReceived(before.queue, after.queue, res)
  }

  // More has arrived.
  predicate Grew(was: Pipe, now: Pipe) {
    match was
    case ByteStream(unread) => now.ByteStream? && unread <= now.unread
    case Packets(queue) => now.Packets? && queue <= now.queue
  }

  // all with what now has more than was.
  function Extend(all: Pipe, was: Pipe, now: Pipe): Pipe
    requires Grew(was, now)
  {
    if all.ByteStream? && was.ByteStream? then ByteStream(all.unread + now.unread[|was.unread|..])
    else if all.Packets? && was.Packets? then Packets(all.queue + now.queue[|was.queue|..])
    else all
  }

  // ---------- Pipes of whole frames ----------

  function Content(t: Transport, fs: seq<Frame>): (p: Pipe)
    ensures Fit(t, p)
  {
    match t
    case Streamed(b) => ByteStream(WrapAll(b, EncodeAll(fs)))
    case Sctp => Packets(EncodeAll(fs))
  }

  function MaxPayload(t: Transport): nat {
    if t.Sctp? then MAX_SCTP_PAYLOAD else MAX_PAYLOAD
  }

  // The frames that are encoded and come out of Recv whole.
  predicate Carried(t: Transport, f: Frame) {
    |f.payload| <= MaxPayload(t)
  }

  function CarriedOf(t: Transport, fs: seq<Frame>): seq<Frame> {
    if t.Sctp? then Short(fs) else fs
  }

  lemma EncodeAllAppend(fs: seq<Frame>, f: Frame)
    ensures EncodeAll(fs + [f]) == EncodeAll(fs) + [Encoded(f)]
  {
  }

  lemma ContentAppend(b: Backend, fs: seq<Frame>, f: Frame)
    ensures WrapAll(b, EncodeAll(fs + [f])) == WrapAll(b, EncodeAll(fs)) + Wrap(b, Encoded(f))
  {
    EncodeAllAppend(fs, f);
    WrapAllAppend(b, EncodeAll(fs), [Encoded(f)]);
    assert WrapAll(b, [Encoded(f)]) == Wrap(b, Encoded(f)) + WrapAll(b, []);
  }

  lemma SentWhole(b: Backend, before: seq<byte>, after: seq<byte>, f: Frame)
    requires Encodable(f) && Sent(b, before, after, Encoded(f), None)
    ensures after == before + Wrap(b, Encoded(f))
  {
    assert after == before + after[|before|..];
  }

  // A successful Send of a frame adds that frame.
  lemma PutWhole(t: Transport, fs: seq<Frame>, f: Frame, after: Pipe)
    requires Encodable(f) && Puts(t, Content(t, fs), after, Encoded(f), None)
    ensures after == Content(t, fs + [f])
  {
    match t {
      case Streamed(b) =>
        SentWhole(b, WrapAll(b, EncodeAll(fs)), after.unread, f);
        ContentAppend(b, fs, f);
      case Sctp => EncodeAllAppend(fs, f);
    }
  }

  lemma StreamFirst(b: Backend, fs: seq<Frame>, after: seq<byte>, raw: seq<byte>)
    requires forall f :: f in fs ==> Encodable(f)
    requires Received(b, WrapAll(b, EncodeAll(fs)), after, Success(raw))
    ensures fs != [] && raw == Encoded(fs[0]) && after == WrapAll(b, EncodeAll(fs[1..]))
  {
    assert fs != [];
    EncodedDeliverable(b, fs[0]);
    assert EncodeAll(fs)[1..] == EncodeAll(fs[1..]);
    DeliverableHead(b, Encoded(fs[0]), WrapAll(b, EncodeAll(fs[1..])));
  }

  // A successful Recv takes the first frame, whole, and leaves the others.
  lemma TakeFirst(t: Transport, fs: seq<Frame>, after: Pipe, raw: seq<byte>)
    requires forall f :: f in fs ==> Carried(t, f)
    requires Takes(t, Content(t, fs), after, Success(raw))
    ensures fs != [] && raw == Encoded(fs[0]) && after == Content(t, fs[1..])
  {
    match t {
      case Streamed(b) =>
        assert forall f :: f in fs ==> Carried(t, f) && Encodable(f);
        StreamFirst(b, fs, after.unread, raw);
      case Sctp =>
        assert EncodeAll(fs) == [Encoded(fs[0])] + EncodeAll(fs[1..]);
        assert Carried(t, fs[0]);
        SurvivesBufferIff(fs[0], EncodeAll(fs[1..]), after.queue, raw);
    }
  }

  // ---------- Reading on ----------

  // Reading msgs one by one off p leaves rest.
  predicate PipeReads(t: Transport, p: Pipe, msgs: seq<seq<byte>>, rest: Pipe) {
    Fit(t, p) && Fit(t, rest) &&
    match t
    case Streamed(b) => Reads(b, p.unread, msgs, rest.unread)
    case Sctp => PacketReads(p.queue, msgs, rest.queue)
  }

  lemma StreamReadsRecv(b: Backend, all: seq<byte>, msgs: seq<seq<byte>>, was: seq<byte>, more: seq<byte>,
                        after: seq<byte>, res: Result<seq<byte>, ChannelError>)
    requires Reads(b, all, msgs, was) && Received(b, was + more, after, res)
    ensures Reads(b, all + more, msgs, was + more)
    ensures res.Success? ==> Reads(b, all + more, msgs + [res.value], after)
  {
    ReadsStable(b, all, msgs, was, more);
    if res.Success? {
      ReadsOneMore(b, all + more, msgs, was + more);
    }
  }

  // One more Recv on a pipe that keeps growing.
  lemma PipeReadsRecv(t: Transport, all: Pipe, msgs: seq<seq<byte>>, was: Pipe, before: Pipe, after: Pipe,
                      res: Result<seq<byte>, ChannelError>)
    requires PipeReads(t, all, msgs, was) && Grew(was, before) && Takes(t, before, after, res)
    ensures PipeReads(t, Extend(all, was, before), msgs, before)
    ensures res.Success? ==> PipeReads(t, Extend(all, was, before), msgs + [res.value], after)
  {
    match t {
      case Streamed(b) =>
        var more := before.unread[|was.unread|..];
        assert before.unread == was.unread + more;
        StreamReadsRecv(b, all.unread, msgs, was.unread, more, after.unread, res);
      case Sctp =>
        var more := before.queue[|was.queue|..];
        assert before.queue == was.queue + more;
        PacketReadsStable(all.queue, msgs, was.queue, more);
        if res.Success? {
          PacketReadsRecv(all.queue + more, msgs, before.queue, after.queue, res.value);
        }
    }
  }

  // ---------- Sessions ----------

  lemma {:induction false} DecodablesOfFrames(fs: seq<Frame>)
    requires forall f :: f in fs ==> Encodable(f)
    ensures Decodables(EncodeAll(fs)) == fs
    decreases |fs|
  {
    if fs == [] {
      assert Decodables([]) == [];
    } else {
      DecodablesOfFrames(fs[1..]);
      assert fs == [fs[0]] + fs[1..];
      EncodeAllCons(fs[0], fs[1..]);
      DecodablesCons(Encoded(fs[0]), EncodeAll(fs[1..]));
      DecodableAlone(Encoded(fs[0]));
      DecodeEncode(fs[0], []);
      assert Encoded(fs[0]) + [] == Encoded(fs[0]);
    }
  }

  lemma StreamSession(b: Backend, fs: seq<Frame>, s: seq<byte>, got: seq<seq<byte>>, rest: seq<byte>)
    requires forall f :: f in fs ==> Encodable(f)
    requires s <= WrapAll(b, EncodeAll(fs)) && Reads(b, s, got, rest)
    ensures Decodables(got) <= fs
    ensures s == WrapAll(b, EncodeAll(fs)) && rest == [] ==> Decodables(got) == fs
  {
    EncodeAllDeliverable(b, fs);
    ReadsAreFifo(b, EncodeAll(fs), s, got, rest);
    var k := |got|;
    assert got == EncodeAll(fs[..k]);
    DecodablesOfFrames(fs[..k]);
    if s == WrapAll(b, EncodeAll(fs)) && rest == [] {
      ReadsParse(b, s, got, rest);
      ParseWrapped(b, EncodeAll(fs), []);
      assert s + [] == s && ParseAll(b, []) == [];
      assert k == |fs|;
      assert fs[..k] == fs;
    }
  }

  // The session theorem of all three transports: of any encodable frames that were sent, however little of
  // the pipe has arrived, what successive Recvs return decodes to the front of the frames the transport
  // carries, and to all of them once everything has been read.
  lemma SessionReads(t: Transport, fs: seq<Frame>, p: Pipe, got: seq<seq<byte>>, rest: Pipe)
    requires forall f :: f in fs ==> Encodable(f)
    requires Grew(p, Content(t, fs)) && PipeReads(t, p, got, rest)
    ensures Decodables(got) <= CarriedOf(t, fs)
    ensures p == Content(t, fs) && rest == Content(t, []) ==> Decodables(got) == CarriedOf(t, fs)
  {
    assert EncodeAll([]) == [];
    match t {
      case Streamed(b) => StreamSession(b, fs, p.unread, got, rest.unread);
      case Sctp => SessionDelivers(fs, p.queue, got, rest.queue);
    }
  }
}
