/** Send and Recv of the kernel SCTP channel, whose frames delimit themselves. */
module KernelChannel {
  import opened Bytes
  import opened Wire
  import opened Stream
  import opened Framing

  method Send(w: Writer, msg: seq<byte>) returns (err: Option<ChannelError>)
    modifies w
    ensures Sent(Kernel, old(w.sent), w.sent, msg, err)
    // It fails exactly when its last Write did, with that error.
    ensures if msg == [] then err.None? else err.Some? <==> w.failed.Some?
    ensures err.Some? ==> err.value == StreamError(w.failed.value)
  {
    var payload := msg;
    while |payload| > 0
      invariant |payload| <= |msg| && payload == msg[|msg| - |payload|..]
      invariant w.sent == old(w.sent) + msg[..|msg| - |payload|]
      invariant |payload| < |msg| ==> w.failed == None
    {
      ghost var done := |msg| - |payload|;
      var n, e := w.Write(payload);
      assert msg[..done] + payload[..n] == msg[..done + n];
      if e.Some? {
        return Some(StreamError(e.value));
      }
      payload := payload[n..];
    }
    return None;
  }

  method Recv(r: Reader) returns (res: Result<seq<byte>, ChannelError>)
    requires r.Valid()
    modifies r
    ensures r.Valid() && old(r.arrived) <= r.arrived && old(r.pos) <= r.pos
    ensures Received(Kernel, r.arrived[old(r.pos)..], r.arrived[r.pos..], res)
    // The error is that of the read that failed; where no header or payload has begun, the stream may end.
    ensures res.Failure? ==> r.failed.Some?
    ensures res.Failure? && r.failed != Some(Eof) ==> res.error == StreamError(r.failed.value)
    ensures res.Failure? && r.failed == Some(Eof) ==>
      var taken := r.pos - old(r.pos);
      res.error == StreamError(if taken == 0 || taken == HEADER_LEN then Eof else UnexpectedEof)
  {
    ghost var start := r.pos;
    var header := new byte[HEADER_LEN](_ => 0);
    var n, e := ReadFull(r, header, 0);
    if e.Some? {
      HeaderShort(Kernel, r.arrived, start, r.pos, e.value);
      return Failure(StreamError(e.value));
    }
    ghost var mid, was, h := r.pos, r.arrived, header[..];
    assert h == was[start..mid];
    Widths();
    var payloadLen := GetBE(header[24..26]);
    assert header[24..26] == h[24..26];
    var out := new byte[HEADER_LEN + payloadLen](_ => 0);
    Fill(out, 0, header[..]);
    assert out[..HEADER_LEN] == h;
    if payloadLen == 0 {
      KernelRead(was, was, start, mid, mid, h);
      assert out[..] == h + was[mid..mid];
      return Success(out[..]);
    }
    n, e := ReadFull(r, out, HEADER_LEN);
    KernelRead(was, r.arrived, start, mid, r.pos, h);
    if e.Some? {
      return Failure(StreamError(e.value));
    }
    assert out[..] == h + r.arrived[mid..r.pos];
    return Success(out[..]);
  }
}

/** Send and Recv of the QUIC channel, which puts a 4-byte length before every message. */
module QuicChannel {
  import opened Bytes
  import opened Stream
  import opened Framing

  method WriteAll(w: Writer, buf: seq<byte>) returns (total: nat, err: Option<IOError>)
    modifies w
    ensures total <= |buf| && w.sent == old(w.sent) + buf[..total]
    ensures err.None? ==> total == |buf|
    ensures if buf == [] then err.None? && w.failed == old(w.failed) else err == w.failed
  {
    total := 0;
    while total < |buf|
      invariant total <= |buf| && w.sent == old(w.sent) + buf[..total]
      invariant w.failed == if total == 0 then old(w.failed) else None
    {
      var n, e := w.Write(buf[total..]);
      assert buf[..total] + buf[total..][..n] == buf[..total + n];
      total := total + n;
      if e.Some? {
        return total, e;
      }
    }
    return total, None;
  }

  method Send(w: Writer, msg: seq<byte>) returns (err: Option<ChannelError>)
    modifies w
    ensures Sent(Quic, old(w.sent), w.sent, msg, err)
    ensures |msg| <= MAX_QUIC_FRAME ==> (err.Some? <==> w.failed.Some?)
    ensures |msg| <= MAX_QUIC_FRAME && err.Some? ==> err.value == StreamError(w.failed.value)
  {
    if |msg| > MAX_QUIC_FRAME {
      return Some(TooLarge(|msg|));
    }
    var header := PutBE(|msg|, 4);
    var n, e := WriteAll(w, header);
    assert header[..n] <= Wrap(Quic, msg);
    if e.Some? {
      return Some(StreamError(e.value));
    }
    n, e := WriteAll(w, msg);
    assert old(w.sent) + header[..] + msg[..n] == old(w.sent) + (header + msg)[..4 + n];
    if e.Some? {
      return Some(StreamError(e.value));
    }
    return None;
  }

  method Recv(r: Reader) returns (res: Result<seq<byte>, ChannelError>)
    requires r.Valid()
    modifies r
    ensures r.Valid() && old(r.arrived) <= r.arrived && old(r.pos) <= r.pos
    ensures Received(Quic, r.arrived[old(r.pos)..], r.arrived[r.pos..], res)
    ensures res.Failure? && !res.error.TooLarge? ==> r.failed.Some?
    ensures res.Failure? && !res.error.TooLarge? && r.failed != Some(Eof) ==> res.error == StreamError(r.failed.value)
    ensures res.Failure? && !res.error.TooLarge? && r.failed == Some(Eof) ==>
      var taken := r.pos - old(r.pos);
      res.error == StreamError(if taken == 0 || taken == 4 then Eof else UnexpectedEof)
  {
    ghost var start := r.pos;
    var header := new byte[4](_ => 0);
    var n, e := ReadFull(r, header, 0);
    if e.Some? {
      HeaderShort(Quic, r.arrived, start, r.pos, e.value);
      return Failure(StreamError(e.value));
    }
    ghost var mid, was, h := r.pos, r.arrived, header[..];
    assert h == was[start..mid];
    var size := GetBE(header[..]);
    QuicRead(was, was, start, mid, mid, h);
    if size > MAX_QUIC_FRAME {
      return Failure(TooLarge(size));
    }
    var buf := new byte[size](_ => 0);
    n, e := ReadFull(r, buf, 0);
    QuicRead(was, r.arrived, start, mid, r.pos, h);
    if e.Some? {
      return Failure(StreamError(e.value));
    }
    assert buf[..] == r.arrived[mid..r.pos];
    return Success(buf[..]);
  }
}
