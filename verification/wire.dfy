/** The 26-byte header frame codec. */
module Wire {
  import opened Bytes

  const MAGIC: nat := 0x4D354747
  const VERSION: byte := 1
  const MSG_REQ: byte := 1
  const MSG_RESP: byte := 2
  const MSG_FLOOD: byte := 3
  const HEADER_LEN: nat := 26
  const MAX_PAYLOAD: nat := 0xFFFF

  datatype Frame = Frame(
    msgType: byte, seqID: uint64, sendTSNS: int64, channelID: uint16, payload: seq<byte>)

  datatype EncodeError = PayloadTooLarge(n: nat)
  datatype DecodeError = FrameTooShort(n: nat) | BadMagic(magic: nat) | BadVersion(version: byte) | TruncatedPayload

  function Header(f: Frame): (h: seq<byte>)
    ensures |h| == HEADER_LEN
  {
    PutBE(MAGIC, 4) + [VERSION, f.msgType] + PutBE(f.seqID, 8)
    + PutBE(ToUint64(f.sendTSNS), 8) + PutBE(f.channelID, 2) + PutBE(|f.payload|, 2)
  }

  predicate Encodable(f: Frame) {
    |f.payload| <= MAX_PAYLOAD
  }

  function Encoded(f: Frame): (s: seq<byte>)
    ensures |s| == HEADER_LEN + |f.payload|
  {
    Header(f) + f.payload
  }

  function Encode(f: Frame): Result<seq<byte>, EncodeError> {
    if |f.payload| > MAX_PAYLOAD then Failure(PayloadTooLarge(|f.payload|)) else Success(Encoded(f))
  }

  // `buf, _ := f.Encode()`: the error is dropped and a failed Encode leaves an empty slice.
  function EncodeDiscardingError(f: Frame): seq<byte> {
    match Encode(f)
    case Success(buf) => buf
    case Failure(_) => []
  }

  function Decode(input: seq<byte>): Result<Frame, DecodeError> {
    if |input| < HEADER_LEN then Failure(FrameTooShort(|input|))
    else if GetBE(input[0..4]) != MAGIC then Failure(BadMagic(GetBE(input[0..4])))
    else if input[4] != VERSION then Failure(BadVersion(input[4]))
    else
      Widths();
      var plen := GetBE(input[24..26]);
      if |input| < HEADER_LEN + plen then Failure(TruncatedPayload)
      else Success(Frame(
        input[5], GetBE(input[6..14]), ToInt64(GetBE(input[14..22])),
        GetBE(input[22..24]), input[HEADER_LEN..HEADER_LEN + plen]))
  }

  // Where each field sits in the header.
  lemma HeaderLayout(f: Frame)
    ensures var h := Header(f);
      h[0..4] == PutBE(MAGIC, 4) && h[4] == VERSION && h[5] == f.msgType && h[6..14] == PutBE(f.seqID, 8)
      && h[14..22] == PutBE(ToUint64(f.sendTSNS), 8) && h[22..24] == PutBE(f.channelID, 2)
      && h[24..26] == PutBE(|f.payload|, 2)
  {
  }

  lemma HeaderValues(f: Frame)
    requires Encodable(f)
    ensures var h := Header(f);
      GetBE(h[0..4]) == MAGIC && GetBE(h[6..14]) == f.seqID && GetBE(h[14..22]) == ToUint64(f.sendTSNS)
      && GetBE(h[22..24]) == f.channelID && GetBE(h[24..26]) == |f.payload|
  {
    HeaderLayout(f);
    Widths();
    GetPut(MAGIC, 4);
    GetPut(f.seqID, 8);
    GetPut(ToUint64(f.sendTSNS), 8);
    GetPut(f.channelID, 2);
    GetPut(|f.payload|, 2);
  }

  lemma DecodeEncode(f: Frame, tail: seq<byte>)
    requires Encodable(f)
    ensures Decode(Encoded(f) + tail) == Success(f)
  {
    var h, x := Header(f), Encoded(f) + tail;
    HeaderLayout(f);
    HeaderValues(f);
    assert x[0..4] == h[0..4] && x[4] == h[4] && x[5] == h[5] && x[6..14] == h[6..14] && x[14..22] == h[14..22];
    assert x[22..24] == h[22..24] && x[24..26] == h[24..26];
    assert x[HEADER_LEN..HEADER_LEN + |f.payload|] == f.payload;
  }

  // What the workers and the handler send: an encoding that decodes to the frame, or nothing.
  lemma SentBytesIff(f: Frame)
    ensures EncodeDiscardingError(f) == [] <==> |f.payload| > 0xFFFF
    ensures |f.payload| <= 0xFFFF ==>
      EncodeDiscardingError(f) == Encoded(f) && Decode(EncodeDiscardingError(f)) == Success(f)
  {
    if Encodable(f) {
      DecodeEncode(f, []);
      assert Encoded(f) + [] == Encoded(f);
    }
  }

  // The fields that Decode reads, put back, are the bytes they were read from.
  lemma FieldsBack(x: seq<byte>)
    requires Decode(x).Success?
    ensures var f := Decode(x).value;
      PutBE(MAGIC, 4) == x[0..4] && PutBE(f.seqID, 8) == x[6..14] && PutBE(ToUint64(f.sendTSNS), 8) == x[14..22]
      && PutBE(f.channelID, 2) == x[22..24] && PutBE(|f.payload|, 2) == x[24..26]
  {
    Widths();
    PutGet(x[0..4]);
    PutGet(x[6..14]);
    PutGet(x[14..22]);
    PutGet(x[22..24]);
    PutGet(x[24..26]);
  }

  lemma HeaderPieces(x: seq<byte>)
    requires |x| >= HEADER_LEN
    ensures x[..HEADER_LEN] == x[0..4] + [x[4], x[5]] + x[6..14] + x[14..22] + x[22..24] + x[24..26]
  {
    assert x[..14] == x[0..4] + [x[4], x[5]] + x[6..14];
    assert x[..24] == x[..14] + x[14..22] + x[22..24];
  }

  lemma EncodeDecode(x: seq<byte>)
    requires Decode(x).Success?
    ensures var f := Decode(x).value;
      Encodable(f) && HEADER_LEN + |f.payload| <= |x| && Encoded(f) == x[..HEADER_LEN + |f.payload|]
  {
    var f := Decode(x).value;
    Widths();
    FieldsBack(x);
    HeaderPieces(x);
    var n := HEADER_LEN + |f.payload|;
    assert x[..n] == x[..HEADER_LEN] + x[HEADER_LEN..n];
  }

  // Decode accepts exactly the encodings, with anything after them.
  lemma DecodableIff(x: seq<byte>)
    ensures Decode(x).Success? <==> exists f, t :: Encodable(f) && x == Encoded(f) + t
  {
    if Decode(x).Success? {
      EncodeDecode(x);
      var f := Decode(x).value;
      assert x == Encoded(f) + x[HEADER_LEN + |f.payload|..];
    }
    if f, t :| Encodable(f) && x == Encoded(f) + t {
      DecodeEncode(f, t);
    }
  }

  lemma SameHeader(x: seq<byte>, y: seq<byte>)
    requires HEADER_LEN <= |x| && x <= y
    ensures y[0..4] == x[0..4] && y[4] == x[4] && y[24..26] == x[24..26]
  {
  }

  // A cut encoding does not decode, because of its length alone.
  lemma CutIsTruncated(f: Frame, x: seq<byte>)
    requires Encodable(f) && HEADER_LEN <= |x| && x < Encoded(f)
    ensures Decode(x) == Failure(TruncatedPayload)
  {
    DecodeEncode(f, []);
    assert Encoded(f) + [] == Encoded(f);
    SameHeader(x, Encoded(f));
    HeaderValues(f);
    assert Encoded(f)[24..26] == Header(f)[24..26];
  }

  // What is truncated is a cut encoding.
  lemma TruncatedIsCut(x: seq<byte>) returns (f: Frame)
    requires Decode(x) == Failure(TruncatedPayload)
    ensures Encodable(f) && HEADER_LEN <= |x| && x < Encoded(f)
  {
    Widths();
    var n := HEADER_LEN + GetBE(x[24..26]);
    var y := x + seq(n - |x|, _ => 0);
    SameHeader(x, y);
    EncodeDecode(y);
    f := Decode(y).value;
    assert y[..n] == y;
  }

  // Which inputs each error means: fewer bytes than a header; four other bytes than the magic number, which are
  // reported; another version, which is reported; and what is left of an encoding that was cut off.
  lemma DecodeErrorIff(x: seq<byte>)
    ensures Decode(x) == Failure(FrameTooShort(|x|)) <==> |x| < HEADER_LEN
    ensures Decode(x).Failure? && Decode(x).error.FrameTooShort? ==> Decode(x).error.n == |x|
    ensures Decode(x).Failure? && Decode(x).error.BadMagic? <==> |x| >= HEADER_LEN && x[0..4] != PutBE(MAGIC, 4)
    ensures Decode(x).Failure? && Decode(x).error.BadMagic? ==> PutBE(Decode(x).error.magic, 4) == x[0..4]
    ensures Decode(x).Failure? && Decode(x).error.BadVersion? <==>
      |x| >= HEADER_LEN && x[0..4] == PutBE(MAGIC, 4) && x[4] != VERSION
    ensures Decode(x).Failure? && Decode(x).error.BadVersion? ==> Decode(x).error.version == x[4]
    ensures Decode(x) == Failure(TruncatedPayload) <==>
      exists f :: Encodable(f) && HEADER_LEN <= |x| && x < Encoded(f)
  {
    Widths();
    if |x| >= HEADER_LEN {
      GetPut(MAGIC, 4);
      PutGet(x[0..4]);
    }
    if Decode(x) == Failure(TruncatedPayload) {
      var f := TruncatedIsCut(x);
    }
    if f :| Encodable(f) && HEADER_LEN <= |x| && x < Encoded(f) {
      CutIsTruncated(f, x);
    }
  }

  // Encodings are uniquely readable from the left: none is a strict prefix of another.
  lemma UniquelyReadable(f: Frame, g: Frame, t: seq<byte>, u: seq<byte>)
    requires Encodable(f) && Encodable(g)
    requires Encoded(f) + t == Encoded(g) + u
    ensures f == g && t == u
  {
    DecodeEncode(f, t);
    DecodeEncode(g, u);
    assert t == (Encoded(f) + t)[|Encoded(f)|..];
    assert u == (Encoded(g) + u)[|Encoded(g)|..];
  }

  // What Decode makes of a list of received messages: the frames of those it accepts.
  function Decodables(msgs: seq<seq<byte>>): seq<Frame> {
    if msgs == [] then []
    else
      (match Decode(msgs[0]) case Success(f) => [f] case Failure(_) => []) + Decodables(msgs[1..])
  }

  method PutUint(out: array<byte>, at: nat, n: nat, v: nat)
    requires at + n <= out.Length
    modifies out
    ensures out[..] == old(out[..at]) + PutBE(v, n) + old(out[at + n..])
  {
    ghost var b := out[..];
    var i, rest := n, v;
    while i > 0
      invariant 0 <= i <= n && |out[..]| == |b|
      invariant out[..at + i] == b[..at + i] && out[at + n..] == b[at + n..]
      invariant PutBE(v, n) == PutBE(rest, i) + out[at + i..at + n]
    {
      i := i - 1;
      ghost var tail := out[at + i + 1..at + n];
      out[at + i] := rest % 256;
      assert out[at + i..at + n] == [rest % 256] + tail;
      rest := rest / 256;
    }
    assert out[..] == out[..at] + out[at..at + n] + out[at + n..];
  }

  // The header part of Encode.
  method PutHeader(out: array<byte>, f: Frame)
    requires out.Length == HEADER_LEN + |f.payload|
    modifies out
    ensures out[..HEADER_LEN] == Header(f)
  {
    PutUint(out, 0, 4, MAGIC);
    out[4] := VERSION;
    out[5] := f.msgType;
    assert out[..6] == PutBE(MAGIC, 4) + [VERSION, f.msgType];
    PutUint(out, 6, 8, f.seqID);
    PutUint(out, 14, 8, ToUint64(f.sendTSNS));
    PutUint(out, 22, 2, f.channelID);
    PutUint(out, 24, 2, |f.payload|);
  }

  method EncodeBuffer(f: Frame) returns (r: Result<array<byte>, EncodeError>)
    ensures r.Failure? <==> |f.payload| > 0xFFFF
    ensures r.Success? ==> fresh(r.value) && r.value[..] == Encoded(f) && Encode(f) == Success(r.value[..])
    ensures r.Failure? ==> r.error == PayloadTooLarge(|f.payload|) && Encode(f) == Failure(r.error)
  {
    if |f.payload| > MAX_PAYLOAD {
      return Failure(PayloadTooLarge(|f.payload|));
    }
    var out := new byte[HEADER_LEN + |f.payload|](_ => 0);
    PutHeader(out, f);
    forall i | 0 <= i < |f.payload| {
      out[HEADER_LEN + i] := f.payload[i];
    }
    assert out[..HEADER_LEN] == Header(f) && out[HEADER_LEN..] == f.payload;
    assert out[..] == out[..HEADER_LEN] + out[HEADER_LEN..];
    return Success(out);
  }
}
