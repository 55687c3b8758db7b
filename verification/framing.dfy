/**
 The framing of the two byte-stream backends as one FIFO of messages: what a Send puts on
 the stream, and what a Recv finds at its head.
 */
module Framing {
  import opened Bytes
  import opened Wire
  import opened Stream

  datatype Backend = Kernel | Quic

  datatype ChannelError = StreamError(cause: IOError) | TooLarge(size: nat)

  const MAX_QUIC_FRAME: nat := 16 * 1024 * 1024

  // What a successful Send(msg) leaves on the stream.
  function Wrap(b: Backend, msg: seq<byte>): seq<byte> {
    match b
    case Kernel => msg
    case Quic => PutBE(|msg|, 4) + msg
  }

  // What Recv sees at the head of the unread bytes: not enough yet, a length it refuses, or a message.
  datatype Head = Incomplete | Refused(size: nat) | Message(msg: seq<byte>, len: nat)

  function KernelLength(s: seq<byte>): (n: nat)
    requires |s| >= HEADER_LEN
    ensures HEADER_LEN <= n <= HEADER_LEN + MAX_PAYLOAD
  {
    Widths();
    HEADER_LEN + GetBE(s[24..26])
  }

  function HeadOf(b: Backend, s: seq<byte>): (h: Head)
    ensures h.Message? ==> 0 < h.len <= |s|
  {
    match b
    case Kernel =>
      if |s| < HEADER_LEN then Incomplete
      else if |s| < KernelLength(s) then Incomplete
      else Message(s[..KernelLength(s)], KernelLength(s))
    case Quic =>
      if |s| < 4 then Incomplete
      else
        var size := GetBE(s[..4]);
        if size > MAX_QUIC_FRAME then Refused(size)
        else if |s| < 4 + size then Incomplete
        else Message(s[4..4 + size], 4 + size)
  }

  // The length is known from the header alone, and the message is the header and what follows it.
  lemma KernelHead(s: seq<byte>, h: seq<byte>)
    requires |s| >= HEADER_LEN && s[..HEADER_LEN] == h
    ensures KernelLength(s) == HEADER_LEN + GetBE(h[24..26])
    ensures forall n | HEADER_LEN <= n <= |s| :: s[..n] == h + s[HEADER_LEN..n]
  {
    assert s[24..26] == h[24..26];
  }

  // The effect of one Recv on the unread bytes: a success takes exactly the message at the head,
  // a failure takes a strict prefix of it (or the whole length prefix it refuses).
  predicate Received(b: Backend, before: seq<byte>, after: seq<byte>, r: Result<seq<byte>, ChannelError>) {
    |after| <= |before| &&
    var k := |before| - |after|;
    after == before[k..] &&
    match r
    case Success(msg) => HeadOf(b, before) == Message(msg, k)
    case Failure(e) =>
      match HeadOf(b, before)
      case Message(_, len) => k < len && !e.TooLarge?
      case Refused(size) => if e.TooLarge? then k == 4 && e.size == size else k < 4
      case Incomplete => !e.TooLarge?
  }

  // The effect of one Send on the stream: all of the wrapped message, or after an error a prefix of it.
  predicate Sent(b: Backend, before: seq<byte>, after: seq<byte>, msg: seq<byte>, err: Option<ChannelError>) {
    before <= after &&
    var added := after[|before|..];
    if b.Quic? && |msg| > MAX_QUIC_FRAME then err == Some(TooLarge(|msg|)) && added == []
    else if err.None? then added == Wrap(b, msg)
    else !err.value.TooLarge? && added <= Wrap(b, msg)
  }

  function WrapAll(b: Backend, msgs: seq<seq<byte>>): seq<byte> {
    if msgs == [] then [] else Wrap(b, msgs[0]) + WrapAll(b, msgs[1..])
  }

  // The messages that successive successful Recv calls return.
  function ParseAll(b: Backend, s: seq<byte>): seq<seq<byte>>
    decreases |s|
  {
    match HeadOf(b, s)
    case Message(msg, len) => [msg] + ParseAll(b, s[len..])
    case _ => []
  }

  // The messages that survive framing: for the kernel backend those whose own length field is right,
  // for QUIC those within the size limit.
  predicate Deliverable(b: Backend, msg: seq<byte>) {
    match b
    case Kernel => |msg| >= HEADER_LEN && |msg| == KernelLength(msg)
    case Quic => |msg| <= MAX_QUIC_FRAME
  }

  lemma DeliverableHead(b: Backend, msg: seq<byte>, tail: seq<byte>)
    requires Deliverable(b, msg)
    ensures Wrap(b, msg) != [] && HeadOf(b, Wrap(b, msg) + tail) == Message(msg, |Wrap(b, msg)|)
    ensures (Wrap(b, msg) + tail)[|Wrap(b, msg)|..] == tail
  {
    var s := Wrap(b, msg) + tail;
    match b {
      case Kernel =>
        assert s[24..26] == msg[24..26];
        assert s[..|msg|] == msg;
      case Quic =>
        Widths();
        GetPut(|msg|, 4);
        assert s[..4] == PutBE(|msg|, 4);
        assert s[4..4 + |msg|] == msg;
    }
  }

  // Deliverable is not just sufficient: no other message is returned whole.
  lemma DeliverableIff(b: Backend, msg: seq<byte>)
    requires |msg| < TWO_32
    ensures Deliverable(b, msg) <==> HeadOf(b, Wrap(b, msg)) == Message(msg, |Wrap(b, msg)|)
  {
    if Deliverable(b, msg) {
      DeliverableHead(b, msg, []);
      assert Wrap(b, msg) + [] == Wrap(b, msg);
    } else if b.Quic? {
      Widths();
      GetPut(|msg|, 4);
      assert Wrap(b, msg)[..4] == PutBE(|msg|, 4);
    }
  }

  lemma EncodedDeliverable(b: Backend, f: Frame)
    requires Encodable(f)
    ensures Deliverable(b, Encoded(f))
    ensures |Encoded(f)| <= 65561
  {
    HeaderLayout(f);
    Widths();
    GetPut(|f.payload|, 2);
    assert Encoded(f)[24..26] == Header(f)[24..26];
  }

  // A wrapped message that is still cut short reads as nothing yet.
  lemma CutShortIsIncomplete(b: Backend, msg: seq<byte>, n: nat)
    requires Deliverable(b, msg) && n < |Wrap(b, msg)|
    ensures HeadOf(b, Wrap(b, msg)[..n]) == Incomplete
  {
    var s := Wrap(b, msg)[..n];
    match b {
      case Kernel =>
        if n >= HEADER_LEN {
          assert s[24..26] == msg[24..26];
        }
      case Quic =>
        Widths();
        GetPut(|msg|, 4);
        if n >= 4 {
          assert s[..4] == PutBE(|msg|, 4);
        }
    }
  }

  lemma ParseCons(b: Backend, msg: seq<byte>, rest: seq<byte>)
    requires Deliverable(b, msg)
    ensures ParseAll(b, Wrap(b, msg) + rest) == [msg] + ParseAll(b, rest)
  {
    DeliverableHead(b, msg, rest);
  }

  // Successive Recv calls return exactly the messages that were sent, in order.
  lemma {:induction false} ParseWrapped(b: Backend, msgs: seq<seq<byte>>, tail: seq<byte>)
    requires forall m :: m in msgs ==> Deliverable(b, m)
    ensures ParseAll(b, WrapAll(b, msgs) + tail) == msgs + ParseAll(b, tail)
    decreases |msgs|
  {
    if msgs == [] {
      assert WrapAll(b, msgs) + tail == tail;
      assert msgs + ParseAll(b, tail) == ParseAll(b, tail);
    } else {
      var first, rest := msgs[0], WrapAll(b, msgs[1..]);
      assert msgs == [first] + msgs[1..];
      Associative(Wrap(b, first), rest, tail);
      ParseCons(b, first, rest + tail);
      ParseWrapped(b, msgs[1..], tail);
      Associative([first], msgs[1..], ParseAll(b, tail));
    }
  }

  lemma WrapAllCons(b: Backend, m: seq<byte>, ms: seq<seq<byte>>)
    ensures WrapAll(b, [m] + ms) == Wrap(b, m) + WrapAll(b, ms)
  {
    assert ([m] + ms)[1..] == ms;
  }

  lemma {:induction false} WrapAllAppend(b: Backend, ms: seq<seq<byte>>, ns: seq<seq<byte>>)
    ensures WrapAll(b, ms + ns) == WrapAll(b, ms) + WrapAll(b, ns)
    decreases |ms|
  {
    if ms == [] {
      assert ms + ns == ns;
    } else {
      var m, rest := ms[0], ms[1..];
      WrapAllAppend(b, rest, ns);
      assert ms == [m] + rest;
      Associative([m], rest, ns);
      WrapAllCons(b, m, rest);
      WrapAllCons(b, m, rest + ns);
      Associative(Wrap(b, m), WrapAll(b, rest), WrapAll(b, ns));
    }
  }

  function EncodeAll(fs: seq<Frame>): (msgs: seq<seq<byte>>)
    ensures |msgs| == |fs| && forall i :: 0 <= i < |fs| ==> msgs[i] == Encoded(fs[i])
  {
    seq(|fs|, i requires 0 <= i < |fs| => Encoded(fs[i]))
  }

  lemma EncodeAllCons(f: Frame, rest: seq<Frame>)
    ensures EncodeAll([f] + rest) == [Encoded(f)] + EncodeAll(rest)
  {
  }

  lemma EncodeAllDeliverable(b: Backend, fs: seq<Frame>)
    requires forall f :: f in fs ==> Encodable(f)
    ensures forall m :: m in EncodeAll(fs) ==> Deliverable(b, m)
  {
    forall m | m in EncodeAll(fs)
      ensures Deliverable(b, m)
    {
      var i :| 0 <= i < |fs| && m == EncodeAll(fs)[i];
      EncodedDeliverable(b, fs[i]);
    }
  }

  // Any list of encodable frames, then a frame of which only n bytes have arrived.
  lemma FramesRoundTrip(b: Backend, fs: seq<Frame>, last: Frame, n: nat)
    requires (forall f :: f in fs ==> Encodable(f)) && Encodable(last) && n < |Wrap(b, Encoded(last))|
    ensures ParseAll(b, WrapAll(b, EncodeAll(fs)) + Wrap(b, Encoded(last))[..n]) == EncodeAll(fs)
  {
    EncodeAllDeliverable(b, fs);
    EncodedDeliverable(b, last);
    CutShortIsIncomplete(b, Encoded(last), n);
    ParseWrapped(b, EncodeAll(fs), Wrap(b, Encoded(last))[..n]);
  }

  // Both backends hand Decode the same inputs.
  lemma BackendsAgree(fs: seq<Frame>)
    requires forall f :: f in fs ==> Encodable(f)
    ensures ParseAll(Kernel, WrapAll(Kernel, EncodeAll(fs))) == EncodeAll(fs)
    ensures ParseAll(Quic, WrapAll(Quic, EncodeAll(fs))) == EncodeAll(fs)
  {
    var cut := Frame(MSG_REQ, 0, 0, 0, []);
    FramesRoundTrip(Kernel, fs, cut, 0);
    FramesRoundTrip(Quic, fs, cut, 0);
    assert forall b :: WrapAll(b, EncodeAll(fs)) + Wrap(b, Encoded(cut))[..0] == WrapAll(b, EncodeAll(fs));
  }

  // A Recv that has the header and n of the payload bytes it announces has the message when n is all of them,
  // and a strict prefix of it before that.
  lemma KernelBody(s: seq<byte>, h: seq<byte>, n: nat)
    requires HEADER_LEN + n <= |s| && s[..HEADER_LEN] == h && n <= GetBE(h[24..26])
    ensures n < GetBE(h[24..26]) ==>
      forall e :: Received(Kernel, s, s[HEADER_LEN + n..], Failure(StreamError(e)))
    ensures n == GetBE(h[24..26]) ==>
      Received(Kernel, s, s[HEADER_LEN + n..], Success(h + s[HEADER_LEN..HEADER_LEN + n]))
  {
    KernelHead(s, h);
  }

  // Two reads in a row, with bytes arriving between them, are one read of the final stream.
  lemma TwoReads(was: seq<byte>, now: seq<byte>, start: nat, mid: nat, end: nat)
    requires was <= now && start <= mid <= |was| && mid <= end <= |now|
    ensures now[start..][..mid - start] == was[start..mid]
    ensures now[start..][mid - start..end - start] == now[mid..end]
    ensures now[start..][end - start..] == now[end..]
  {
  }

  // A Recv that ends inside what tells the length.
  lemma HeaderShort(b: Backend, s: seq<byte>, start: nat, end: nat, e: IOError)
    requires start <= end <= |s| && end - start < if b.Kernel? then HEADER_LEN else 4
    ensures Received(b, s[start..], s[end..], Failure(StreamError(e)))
  {
    TwoReads(s, s, start, end, end);
  }

  // A Recv that has read the header h and then what was left of the stream up to end.
  lemma KernelRead(was: seq<byte>, now: seq<byte>, start: nat, mid: nat, end: nat, h: seq<byte>)
    requires was <= now && mid == start + HEADER_LEN <= |was| && h == was[start..mid]
    requires mid <= end <= |now| && end - mid <= GetBE(h[24..26])
    ensures end - mid < GetBE(h[24..26]) ==>
      forall e :: Received(Kernel, now[start..], now[end..], Failure(StreamError(e)))
    ensures end - mid == GetBE(h[24..26]) ==> Received(Kernel, now[start..], now[end..], Success(h + now[mid..end]))
  {
    TwoReads(was, now, start, mid, end);
    KernelBody(now[start..], h, end - mid);
  }

  // The same behind a length prefix.
  lemma QuicRead(was: seq<byte>, now: seq<byte>, start: nat, mid: nat, end: nat, h: seq<byte>)
    requires was <= now && mid == start + 4 <= |was| && h == was[start..mid] && mid <= end <= |now|
    ensures GetBE(h) > MAX_QUIC_FRAME && end == mid ==>
      Received(Quic, now[start..], now[end..], Failure(TooLarge(GetBE(h))))
    ensures end - mid < GetBE(h) <= MAX_QUIC_FRAME ==>
      forall e :: Received(Quic, now[start..], now[end..], Failure(StreamError(e)))
    ensures end - mid == GetBE(h) <= MAX_QUIC_FRAME ==>
      Received(Quic, now[start..], now[end..], Success(now[mid..end]))
  {
    TwoReads(was, now, start, mid, end);
  }

  // More bytes arriving behind a complete message do not change it.
  lemma HeadStable(b: Backend, s: seq<byte>, more: seq<byte>)
    requires HeadOf(b, s).Message?
    ensures HeadOf(b, s + more) == HeadOf(b, s)
  {
    var len := HeadOf(b, s).len;
    assert (s + more)[..len] == s[..len];
    match b {
      case Kernel => assert (s + more)[24..26] == s[24..26];
      case Quic =>
        assert (s + more)[..4] == s[..4];
        assert (s + more)[4..len] == s[4..len];
    }
  }

  // Reading msgs one by one off s leaves rest.
  predicate Reads(b: Backend, s: seq<byte>, msgs: seq<seq<byte>>, rest: seq<byte>)
    decreases |msgs|
  {
    if msgs == [] then rest == s
    else
      var h := HeadOf(b, s);
      h.Message? && h.msg == msgs[0] && Reads(b, s[h.len..], msgs[1..], rest)
  }

  lemma {:induction false} ReadsParse(b: Backend, s: seq<byte>, msgs: seq<seq<byte>>, rest: seq<byte>)
    requires Reads(b, s, msgs, rest)
    ensures ParseAll(b, s) == msgs + ParseAll(b, rest)
    decreases |msgs|
  {
    if msgs != [] {
      ReadsParse(b, s[HeadOf(b, s).len..], msgs[1..], rest);
      assert msgs == [msgs[0]] + msgs[1..];
    }
  }

  // Reading on: bytes that arrive later, and then one more message.
  lemma {:induction false} ReadsStable(b: Backend, s: seq<byte>, msgs: seq<seq<byte>>, rest: seq<byte>, more: seq<byte>)
    requires Reads(b, s, msgs, rest)
    ensures Reads(b, s + more, msgs, rest + more)
    decreases |msgs|
  {
    if msgs != [] {
      var len := HeadOf(b, s).len;
      HeadStable(b, s, more);
      ReadsStable(b, s[len..], msgs[1..], rest, more);
      assert (s + more)[len..] == s[len..] + more;
    }
  }

  lemma {:induction false} ReadsOneMore(b: Backend, s: seq<byte>, msgs: seq<seq<byte>>, rest: seq<byte>)
    requires Reads(b, s, msgs, rest) && HeadOf(b, rest).Message?
    ensures var h := HeadOf(b, rest); Reads(b, s, msgs + [h.msg], rest[h.len..])
    decreases |msgs|
  {
    var m := HeadOf(b, rest).msg;
    if msgs == [] {
      assert msgs + [m] == [m];
    } else {
      ReadsOneMore(b, s[HeadOf(b, s).len..], msgs[1..], rest);
      assert (msgs + [m])[1..] == msgs[1..] + [m];
    }
  }

  lemma HeadIsWrapped(b: Backend, s: seq<byte>)
    requires HeadOf(b, s).Message?
    ensures Wrap(b, HeadOf(b, s).msg) == s[..HeadOf(b, s).len]
  {
    if b.Quic? {
      PutGet(s[..4]);
    }
  }

  lemma PrefixBehind<T>(h: seq<T>, p: seq<T>, t: seq<T>)
    requires p <= t
    ensures h + p <= h + t
  {
  }

  // What is read off a stream was at its front.
  lemma {:induction false} ParseIsPrefix(b: Backend, s: seq<byte>)
    ensures WrapAll(b, ParseAll(b, s)) <= s
    decreases |s|
  {
    var h := HeadOf(b, s);
    if h.Message? {
      var first, rest := s[..h.len], s[h.len..];
      ParseIsPrefix(b, rest);
      HeadIsWrapped(b, s);
      var ms := ParseAll(b, rest);
      assert ParseAll(b, s) == [h.msg] + ms;
      WrapAllCons(b, h.msg, ms);
      PrefixBehind(first, WrapAll(b, ms), rest);
      assert s == first + rest;
    }
  }

  // A Recv that fails leaves the pending messages readable exactly when it took no byte.
  lemma FailureHarmlessIff(b: Backend, msgs: seq<seq<byte>>, after: seq<byte>, e: ChannelError)
    requires forall m :: m in msgs ==> Deliverable(b, m)
    requires Received(b, WrapAll(b, msgs), after, Failure(e))
    ensures ParseAll(b, after) == msgs <==> after == WrapAll(b, msgs)
  {
    ParseWrapped(b, msgs, []);
    assert WrapAll(b, msgs) + [] == WrapAll(b, msgs);
    assert msgs + ParseAll(b, []) == msgs;
    ParseIsPrefix(b, after);
  }

  predicate EndsWith<T(==)>(s: seq<T>, t: seq<T>) {
    |t| <= |s| && s[|s| - |t|..] == t
  }

  // Behind p every list of frames that is sent is read whole and in order, after whatever p reads as.
  ghost predicate LaterReadable(b: Backend, p: seq<byte>) {
    forall fs: seq<Frame> | (forall f :: f in fs ==> Encodable(f)) ::
      EndsWith(ParseAll(b, p + WrapAll(b, EncodeAll(fs))), EncodeAll(fs))
  }

  // Two strings that agree before d and stay in front when p is put before them agree at d as well.
  lemma ShiftedAgree(p: seq<byte>, u: seq<byte>, v: seq<byte>, d: nat)
    requires p != [] && d < |u| && d < |v| && u[..d] == v[..d]
    requires u <= p + u && v <= p + v
    ensures u[d] == v[d]
  {
    assert u[d] == (p + u)[d] && v[d] == (p + v)[d];
    if d >= |p| {
      assert u[..d][d - |p|] == v[..d][d - |p|];
    }
  }

  // A frame behind the cut one can only be read whole if it is read from the very beginning.
  lemma ReadableBehindCut(b: Backend, msg: seq<byte>, n: nat, y: Frame)
    requires Deliverable(b, msg) && n < |Wrap(b, msg)| && Encodable(y)
    requires LaterReadable(b, Wrap(b, msg)[..n])
    ensures Wrap(b, Encoded(y)) <= Wrap(b, msg)[..n] + Wrap(b, Encoded(y))
  {
    var p, w := Wrap(b, msg)[..n], Wrap(b, Encoded(y));
    var s := p + w;
    assert s[..n] == p;
    assert EncodeAll([y]) == [Encoded(y)] && WrapAll(b, [Encoded(y)]) == w + WrapAll(b, []) == w;
    assert EndsWith(ParseAll(b, s), [Encoded(y)]);
    CutShortIsIncomplete(b, msg, n);
    var h := HeadOf(b, s);
    assert h.Message?;
    ParseIsPrefix(b, s);
    var rest := ParseAll(b, s[h.len..]);
    assert ParseAll(b, s) == [h.msg] + rest;
    HeadIsWrapped(b, s);
    if rest == [] {
      assert h.msg == Encoded(y);
    } else {
      LastIsInRest(b, h.msg, rest, Encoded(y));
      WrapAllCons(b, h.msg, rest);
      assert h.len <= n;
      HeadWithin(b, s, n);
      assert false;
    }
  }

  lemma LastIsInRest(b: Backend, m: seq<byte>, rest: seq<seq<byte>>, last: seq<byte>)
    requires rest != [] && EndsWith([m] + rest, [last])
    ensures |WrapAll(b, rest)| >= |Wrap(b, last)|
  {
    var init := rest[..|rest| - 1];
    assert ([m] + rest)[|rest|] == rest[|rest| - 1];
    assert ([m] + rest)[|rest|..] == [last];
    assert rest == init + [last];
    WrapAllAppend(b, init, [last]);
    assert WrapAll(b, [last]) == Wrap(b, last) + WrapAll(b, []);
  }

  // A message at the head that ends within the first n bytes is a message of those bytes.
  lemma HeadWithin(b: Backend, s: seq<byte>, n: nat)
    requires HeadOf(b, s).Message? && HeadOf(b, s).len <= n <= |s|
    ensures HeadOf(b, s[..n]).Message?
  {
    match b {
      case Kernel => assert s[..n][24..26] == s[24..26];
      case Quic => assert s[..n][..4] == s[..4];
    }
  }

  function Probe(number: byte): Frame {
    Frame(MSG_REQ, number, 0, 0, [])
  }

  // The last byte of the number, and what comes before it.
  lemma NumberLast(f: Frame)
    ensures Encoded(f)[..13] == PutBE(MAGIC, 4) + [VERSION, f.msgType] + PutBE(f.seqID / 256, 7)
    ensures Encoded(f)[13] == f.seqID % 256
  {
    var x := Encoded(f);
    HeaderLayout(f);
    assert PutBE(f.seqID, 8) == PutBE(f.seqID / 256, 7) + [f.seqID % 256];
    assert x[..6] == PutBE(MAGIC, 4) + [VERSION, f.msgType] && x[6..14] == PutBE(f.seqID, 8);
    assert x[..13] == x[..6] + x[6..14][..7] && x[13] == x[6..14][7];
  }

  lemma ProbePair(j: byte, k: byte)
    ensures var x, y := Encoded(Probe(j)), Encoded(Probe(k)); x[..13] == y[..13] && x[13] == j && y[13] == k
  {
    NumberLast(Probe(j));
    NumberLast(Probe(k));
  }

  lemma ShiftedBehind(p: seq<byte>, h: seq<byte>, x: seq<byte>, y: seq<byte>, d: nat)
    requires p != [] && d < |x| && d < |y| && x[..d] == y[..d]
    requires h + x <= p + (h + x) && h + y <= p + (h + y)
    ensures x[d] == y[d]
  {
    var u, v := h + x, h + y;
    assert u[..|h| + d] == h + x[..d] && v[..|h| + d] == h + y[..d];
    ShiftedAgree(p, u, v, |h| + d);
  }

  // At most one probe stays in front when the same bytes are put before it.
  lemma ProbesAgree(b: Backend, p: seq<byte>, j: byte, k: byte)
    requires p != []
    requires Wrap(b, Encoded(Probe(j))) <= p + Wrap(b, Encoded(Probe(j)))
    requires Wrap(b, Encoded(Probe(k))) <= p + Wrap(b, Encoded(Probe(k)))
    ensures j == k
  {
    var x, y := Encoded(Probe(j)), Encoded(Probe(k));
    ProbePair(j, k);
    match b {
      case Kernel => ShiftedAgree(p, x, y, 13);
      case Quic => ShiftedBehind(p, PutBE(|x|, 4), x, y, 13);
    }
  }

  lemma ReadableAfterWhole(b: Backend, msg: seq<byte>, none: bool, msgs: seq<seq<byte>>)
    requires Deliverable(b, msg) && forall m :: m in msgs ==> Deliverable(b, m)
    ensures EndsWith(ParseAll(b, (if none then [] else Wrap(b, msg)) + WrapAll(b, msgs)), msgs)
  {
    ParseWrapped(b, msgs, []);
    assert WrapAll(b, msgs) + [] == WrapAll(b, msgs);
    assert [] + WrapAll(b, msgs) == WrapAll(b, msgs);
    assert msgs + ParseAll(b, []) == msgs;
    ParseCons(b, msg, WrapAll(b, msgs));
  }

  lemma CutMakesUnreadable(b: Backend, msg: seq<byte>, n: nat)
    requires Deliverable(b, msg) && 0 < n < |Wrap(b, msg)|
    ensures !LaterReadable(b, Wrap(b, msg)[..n])
  {
    if LaterReadable(b, Wrap(b, msg)[..n]) {
      ReadableBehindCut(b, msg, n, Probe(0));
      ReadableBehindCut(b, msg, n, Probe(1));
      ProbesAgree(b, Wrap(b, msg)[..n], 0, 1);
      assert false;
    }
  }

  // A Send of a frame that fails leaves all later frames readable exactly when it has put nothing or all of
  // the frame on the stream.
  lemma FailedSendHarmlessIff(b: Backend, f: Frame, n: nat)
    requires Encodable(f) && n <= |Wrap(b, Encoded(f))|
    ensures LaterReadable(b, Wrap(b, Encoded(f))[..n]) <==> n == 0 || n == |Wrap(b, Encoded(f))|
  {
    var w := Wrap(b, Encoded(f));
    EncodedDeliverable(b, f);
    if n == 0 || n == |w| {
      assert w[..0] == [] && w[..|w|] == w;
      forall fs: seq<Frame> | (forall f :: f in fs ==> Encodable(f))
        ensures EndsWith(ParseAll(b, w[..n] + WrapAll(b, EncodeAll(fs))), EncodeAll(fs))
      {
        EncodeAllDeliverable(b, fs);
        ReadableAfterWhole(b, Encoded(f), n == 0, EncodeAll(fs));
      }
    } else {
      CutMakesUnreadable(b, Encoded(f), n);
    }
  }

  // The stream is a FIFO of messages: however it is chunked and however little of it has arrived, what has
  // been read is the first messages that were sent, in order, and what is unread is the front of the others.
  lemma {:induction false} ReadsAreFifo(b: Backend, msgs: seq<seq<byte>>, s: seq<byte>, got: seq<seq<byte>>,
                                        rest: seq<byte>)
    requires forall m :: m in msgs ==> Deliverable(b, m)
    requires s <= WrapAll(b, msgs) && Reads(b, s, got, rest)
    ensures got <= msgs && rest <= WrapAll(b, msgs[|got|..])
    decreases |got|
  {
    if got != [] {
      var len := FirstOfFront(b, msgs, s);
      ReadsAreFifo(b, msgs[1..], s[len..], got[1..], rest);
      assert msgs[1..][|got| - 1..] == msgs[|got|..];
    }
  }

  // A message at the head of the front of a stream is the first one that was sent.
  lemma FirstOfFront(b: Backend, msgs: seq<seq<byte>>, s: seq<byte>) returns (len: nat)
    requires forall m :: m in msgs ==> Deliverable(b, m)
    requires s <= WrapAll(b, msgs) && HeadOf(b, s).Message?
    ensures msgs != [] && HeadOf(b, s) == Message(msgs[0], len) && s[len..] <= WrapAll(b, msgs[1..])
  {
    var all := WrapAll(b, msgs);
    len := HeadOf(b, s).len;
    assert s + all[|s|..] == all;
    HeadStable(b, s, all[|s|..]);
    assert msgs != [];
    DeliverableHead(b, msgs[0], WrapAll(b, msgs[1..]));
    assert s[len..] <= all[len..];
  }
}
