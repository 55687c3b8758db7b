/**
 The message-oriented SCTP channel: one Read into a 64 KiB buffer per Recv, on a session that
 preserves message boundaries. What is left of a message longer than the buffer is either kept
 for the next Read or lost, as the session chooses.
 */
module SctpChannel {
  import opened Bytes
  import opened Wire
  import opened Stream
  import opened Framing

  const BUFFER: nat := 64 * 1024

  // The largest payload whose frame fits the buffer.
  const MAX_SCTP_PAYLOAD: nat := BUFFER - HEADER_LEN

  // How much of a message goes into a buffer of the given size.
  function Cut(msg: seq<byte>, room: nat): (n: nat)
    ensures n <= |msg| && n <= room
  {
    if |msg| < room then |msg| else room
  }

  // after is what is left of the queue once room bytes of its head have been taken.
  predicate Taken(all: seq<seq<byte>>, room: nat, after: seq<seq<byte>>) {
    all != [] && (after == all[1..] || (room < |all[0]| && after == [all[0][room..]] + all[1..]))
  }

  // The effect of one Send on the messages in flight: one message more, or none after an error.
  predicate PacketSent(before: seq<seq<byte>>, after: seq<seq<byte>>, msg: seq<byte>, err: Option<ChannelError>) {
    if err.None? then after == before + [msg] else !err.value.TooLarge? && after == before
  }

  // The effect of one Recv on the unread messages: a success takes the first BUFFER bytes of the message at
  // the head, a failure takes nothing.
  predicate PacketReceived(before: seq<seq<byte>>, after: seq<seq<byte>>, res: Result<seq<byte>, ChannelError>) {
    match res
    case Success(raw) => Taken(before, BUFFER, after) && raw == before[0][..Cut(before[0], BUFFER)]
    case Failure(e) => !e.TooLarge? && after == before
  }

  class MessageConn {
    // Messages delivered and not yet read, and messages accepted for sending.
    var queue: seq<seq<byte>>
    var sent: seq<seq<byte>>

    // What the last Read and the last Write returned.
    ghost var readFailed: Option<IOError>
    ghost var writeFailed: Option<IOError>

    constructor ()
      ensures queue == [] && sent == [] && readFailed == writeFailed == None
    {
      queue, sent, readFailed, writeFailed := [], [], None, None;
    }

    method Write(msg: seq<byte>) returns (err: Option<IOError>)
      modifies this`sent, this`writeFailed
      ensures sent == if err.None? then old(sent) + [msg] else old(sent)
      ensures writeFailed == err
    {
      var ok: bool := *;
      var e: IOError := *;
      if ok {
        sent := sent + [msg];
      }
      err := if ok then None else Some(e);
      writeFailed := err;
    }

    // More messages may arrive before the one at the head is read; all is the queue at that moment.
    method Read(buf: array<byte>) returns (n: nat, err: Option<IOError>, ghost all: seq<seq<byte>>)
      modifies this`queue, this`readFailed, buf
      ensures old(queue) <= all && readFailed == err
      ensures err.Some? ==> n == 0 && queue == all
      ensures err.None? ==> Taken(all, buf.Length, queue) && n == Cut(all[0], buf.Length)
      ensures err.None? ==> buf[..] == Filled(old(buf[..]), 0, all[0][..n])
    {
      var more: seq<seq<byte>> := *;
      var now := queue + more;
      all := now;
      var ok, keep: bool := *, *;
      if now == [] || !ok {
        var e: IOError := *;
        queue, readFailed := now, Some(e);
        return 0, Some(e), all;
      }
      readFailed := None;
      n := Cut(now[0], buf.Length);
      Fill(buf, 0, now[0][..n]);
      queue := if n < |now[0]| && keep then [now[0][n..]] + now[1..] else now[1..];
      return n, None, all;
    }
  }

  method Send(c: MessageConn, msg: seq<byte>) returns (err: Option<ChannelError>)
    modifies c`sent, c`writeFailed
    ensures PacketSent(old(c.sent), c.sent, msg, err)
    ensures err == if c.writeFailed.Some? then Some(StreamError(c.writeFailed.value)) else None
  {
    var e := c.Write(msg);
    return if e.Some? then Some(StreamError(e.value)) else None;
  }

  // all is the queue at the moment of the read.
  method Recv(c: MessageConn) returns (res: Result<seq<byte>, ChannelError>, ghost all: seq<seq<byte>>)
    modifies c`queue, c`readFailed
    ensures old(c.queue) <= all && PacketReceived(all, c.queue, res)
    ensures res.Failure? <==> c.readFailed.Some?
    ensures res.Failure? ==> res.error == StreamError(c.readFailed.value)
  {
    var buf := new byte[BUFFER](_ => 0);
    var n, err;
    n, err, all := c.Read(buf);
    if err.Some? {
      return Failure(StreamError(err.value)), all;
    }
    var out := buf[..n];
    assert out == all[0][..n];
    return Success(out), all;
  }

  // ---------- Sessions ----------

  // The frame at the head of the queue comes out of Recv and Decode exactly when its payload has at most
  // 65510 bytes, and then nothing behind it is touched. A longer one is cut, fails to decode, and leaves at
  // most a piece that is too short to decode.
  lemma SurvivesBufferIff(f: Frame, rest: seq<seq<byte>>, after: seq<seq<byte>>, raw: seq<byte>)
    requires Encodable(f) && PacketReceived([Encoded(f)] + rest, after, Success(raw))
    ensures Decode(raw) == Success(f) <==> |f.payload| <= MAX_SCTP_PAYLOAD
    ensures |f.payload| <= MAX_SCTP_PAYLOAD ==> raw == Encoded(f) && after == rest
    ensures |f.payload| > MAX_SCTP_PAYLOAD ==>
      Decode(raw) == Failure(TruncatedPayload) &&
      (after == rest || (after != [] && |after[0]| < HEADER_LEN && after[1..] == rest))
  {
    var x := Encoded(f);
    assert ([x] + rest)[0] == x && ([x] + rest)[1..] == rest;
    DecodeEncode(f, []);
    assert x + [] == x;
    if |f.payload| > MAX_SCTP_PAYLOAD {
      assert raw == x[..BUFFER];
      assert raw[0..4] == x[0..4] && raw[24..26] == x[24..26];
    } else {
      assert raw == x;
    }
  }

  // Reading msgs one by one off q leaves rest.
  predicate PacketReads(q: seq<seq<byte>>, msgs: seq<seq<byte>>, rest: seq<seq<byte>>)
    decreases |msgs|
  {
    if msgs == [] then rest == q
    else
      q != [] && msgs[0] == q[0][..Cut(q[0], BUFFER)] &&
      (PacketReads(q[1..], msgs[1..], rest)
       || (BUFFER < |q[0]| && PacketReads([q[0][BUFFER..]] + q[1..], msgs[1..], rest)))
  }

  lemma {:induction false} PacketReadsStable(q: seq<seq<byte>>, msgs: seq<seq<byte>>, rest: seq<seq<byte>>,
                                             more: seq<seq<byte>>)
    requires PacketReads(q, msgs, rest)
    ensures PacketReads(q + more, msgs, rest + more)
    decreases |msgs|
  {
    if msgs != [] {
      assert (q + more)[1..] == q[1..] + more;
      if PacketReads(q[1..], msgs[1..], rest) {
        PacketReadsStable(q[1..], msgs[1..], rest, more);
      } else {
        var piece := [q[0][BUFFER..]];
        PacketReadsStable(piece + q[1..], msgs[1..], rest, more);
        Associative(piece, q[1..], more);
      }
    }
  }

  // Reading on: one more Recv on a queue that keeps growing.
  lemma {:induction false} PacketReadsRecv(q: seq<seq<byte>>, msgs: seq<seq<byte>>, rest: seq<seq<byte>>,
                                           after: seq<seq<byte>>, raw: seq<byte>)
    requires PacketReads(q, msgs, rest) && PacketReceived(rest, after, Success(raw))
    ensures PacketReads(q, msgs + [raw], after)
    decreases |msgs|
  {
    if msgs == [] {
      assert msgs + [raw] == [raw];
      assert PacketReads(after, [], after);
    } else {
      assert (msgs + [raw])[1..] == msgs[1..] + [raw];
      if PacketReads(q[1..], msgs[1..], rest) {
        PacketReadsRecv(q[1..], msgs[1..], rest, after, raw);
      } else {
        PacketReadsRecv([q[0][BUFFER..]] + q[1..], msgs[1..], rest, after, raw);
      }
    }
  }

  // The frames a Recv can return whole.
  function Short(fs: seq<Frame>): seq<Frame> {
    if fs == [] then []
    else (if |fs[0].payload| <= MAX_SCTP_PAYLOAD then [fs[0]] else []) + Short(fs[1..])
  }

  // At most one piece of a cut frame, too short to decode.
  predicate Piece(p: seq<seq<byte>>) {
    |p| <= 1 && forall m :: m in p ==> |m| < HEADER_LEN
  }

  lemma DecodableAlone(raw: seq<byte>)
    ensures Decodables([raw]) == match Decode(raw) case Success(f) => [f] case Failure(_) => []
  {
    assert [raw][1..] == [] && Decodables([]) == [];
  }

  // A Recv of a frame leaves at most a piece of it, and returns it exactly when it is short enough.
  lemma NextFrame(f: Frame, rest: seq<seq<byte>>, after: seq<seq<byte>>, raw: seq<byte>) returns (piece: seq<seq<byte>>)
    requires Encodable(f) && PacketReceived([Encoded(f)] + rest, after, Success(raw))
    ensures Piece(piece) && after == piece + rest
    ensures Decodables([raw]) == if |f.payload| <= MAX_SCTP_PAYLOAD then [f] else []
  {
    SurvivesBufferIff(f, rest, after, raw);
    DecodableAlone(raw);
    if after == rest {
      return [];
    }
    return [after[0]];
  }

  // The next message is a piece of a cut frame, or it comes from the frame at the head of the others.
  lemma NextPacket(piece: seq<seq<byte>>, fs: seq<Frame>, after: seq<seq<byte>>, raw: seq<byte>)
    returns (piece': seq<seq<byte>>, fs': seq<Frame>)
    requires Piece(piece) && (forall f :: f in fs ==> Encodable(f))
    requires PacketReceived(piece + EncodeAll(fs), after, Success(raw))
    ensures Piece(piece') && (forall f :: f in fs' ==> Encodable(f))
    ensures after == piece' + EncodeAll(fs')
    ensures Decodables([raw]) + Short(fs') == Short(fs)
  {
    if piece != [] {
      assert (piece + EncodeAll(fs))[1..] == EncodeAll(fs);
      DecodableAlone(raw);
      return [], fs;
    }
    assert piece + EncodeAll(fs) == [Encoded(fs[0])] + EncodeAll(fs[1..]);
    piece' := NextFrame(fs[0], EncodeAll(fs[1..]), after, raw);
    return piece', fs[1..];
  }

  lemma DecodablesCons(m: seq<byte>, ms: seq<seq<byte>>)
    ensures Decodables([m] + ms) == Decodables([m]) + Decodables(ms)
  {
    assert ([m] + ms)[1..] == ms && [m][1..] == [];
    assert Decodables([]) == [];
  }

  lemma FirstPacket(q: seq<seq<byte>>, msgs: seq<seq<byte>>, rest: seq<seq<byte>>) returns (after: seq<seq<byte>>)
    requires msgs != [] && PacketReads(q, msgs, rest)
    ensures PacketReceived(q, after, Success(msgs[0])) && PacketReads(after, msgs[1..], rest)
  {
    after := if PacketReads(q[1..], msgs[1..], rest) then q[1..] else [q[0][BUFFER..]] + q[1..];
  }

  lemma {:induction false} PacketsBehind(piece: seq<seq<byte>>, fs: seq<Frame>, got: seq<seq<byte>>,
                                         rest: seq<seq<byte>>)
    requires Piece(piece) && (forall f :: f in fs ==> Encodable(f))
    requires PacketReads(piece + EncodeAll(fs), got, rest)
    ensures Decodables(got) <= Short(fs) && (rest == [] ==> Decodables(got) == Short(fs))
    decreases |got|
  {
    if got == [] {
      assert rest == [] ==> fs == [];
    } else {
      var q := piece + EncodeAll(fs);
      var after := FirstPacket(q, got, rest);
      var piece', fs' := NextPacket(piece, fs, after, got[0]);
      PacketsBehind(piece', fs', got[1..], rest);
      assert got == [got[0]] + got[1..];
      DecodablesCons(got[0], got[1..]);
    }
  }

  lemma {:induction false} ShortOfPrefix(fs: seq<Frame>, k: nat)
    requires k <= |fs|
    ensures Short(fs[..k]) <= Short(fs)
  {
    if k != 0 {
      ShortOfPrefix(fs[1..], k - 1);
      assert fs[..k][1..] == fs[1..][..k - 1];
    }
  }

  // A session: of any frames that were sent, however many of them have arrived, what successive Recvs
  // return decodes to the frames of at most 65510 payload bytes, exactly and in order, whatever longer
  // frames surround them; once everything has been read, to all of them.
  lemma SessionDelivers(fs: seq<Frame>, q: seq<seq<byte>>, got: seq<seq<byte>>, rest: seq<seq<byte>>)
    requires forall f :: f in fs ==> Encodable(f)
    requires q <= EncodeAll(fs) && PacketReads(q, got, rest)
    ensures Decodables(got) <= Short(fs)
    ensures q == EncodeAll(fs) && rest == [] ==> Decodables(got) == Short(fs)
  {
    var k := |q|;
    assert q == EncodeAll(fs[..k]) == [] + EncodeAll(fs[..k]);
    PacketsBehind([], fs[..k], got, rest);
    ShortOfPrefix(fs, k);
    assert k == |fs| ==> fs[..k] == fs;
  }
}
