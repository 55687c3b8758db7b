/**
 What a stream reads as on which one frame was cut off and another one follows: for two frames with
 consecutive numbers there is a cut behind which the receiver reads the second number in a frame that
 nobody sent.
 */
module Composite {
  import opened Bytes
  import opened Wire
  import opened Framing

  lemma {:induction false} ZeroBE(k: nat)
    ensures PutBE(0, k) == seq(k, _ => 0)
  {
    if k != 0 {
      ZeroBE(k - 1);
    }
  }

  // A small value in a wide field has zeros in front.
  lemma {:induction false} ZeroPad(v: nat, n: nat, k: nat)
    requires v < Pow256(n)
    ensures PutBE(v, k + n) == seq(k, _ => 0) + PutBE(v, n)
  {
    if n == 0 {
      ZeroBE(k);
    } else {
      ZeroPad(v / 256, n - 1, k);
      Associative(seq(k, _ => 0), PutBE(v / 256, n - 1), [v % 256]);
    }
  }

  // A 64-bit time whose first byte is between 1 and 127 is positive.
  lemma {:induction false} LeadingByte(s: seq<byte>)
    requires s != []
    ensures s[0] * Pow256(|s| - 1) <= GetBE(s) < (s[0] + 1) * Pow256(|s| - 1)
  {
    if |s| > 1 {
      var lead: int, p := s[0], Pow256(|s| - 2);
      LeadingByte(s[..|s| - 1]);
      Regroup(lead, p);
      Regroup(lead + 1, p);
    }
  }

  lemma Regroup(a: int, p: int)
    ensures a * (256 * p) == 256 * (a * p)
  {
  }

  lemma PositiveTime(s: seq<byte>)
    requires |s| == 8 && 0 < s[0] < 0x80
    ensures GetBE(s) < TWO_64 && ToInt64(GetBE(s)) > 0
  {
    LeadingByte(s);
    assert Pow256(7) == 0x100_0000_0000_0000;
  }

  lemma MagicBytes()
    ensures PutBE(MAGIC, 4) == [0x4D, 0x35, 0x47, 0x47]
  {
    assert PutBE(MAGIC, 4) == PutBE(MAGIC / 256, 3) + [0x47];
    assert PutBE(MAGIC / 256, 3) == PutBE(MAGIC / 256 / 256, 2) + [0x47];
    assert PutBE(MAGIC / 256 / 256, 2) == PutBE(MAGIC / 256 / 256 / 256, 1) + [0x35];
    assert PutBE(0x4D, 1) == PutBE(0, 0) + [0x4D];
  }

  // Where the first frame is cut, and the number of the second.
  function CutAt(b: Backend): nat {
    if b.Kernel? then 13 else 14
  }

  function VictimNumber(b: Backend, payload: seq<byte>): nat {
    if b.Kernel? then 0x4D else HEADER_LEN + |payload|
  }

  // first is cut off, second follows; they are consecutive requests, or consecutive replies.
  predicate Consecutive(b: Backend, first: Frame, second: Frame) {
    Encodable(second) && first.payload == second.payload && first.msgType == second.msgType
    && second.seqID == VictimNumber(b, second.payload) && first.seqID == second.seqID - 1
  }

  function Spliced(b: Backend, first: Frame, second: Frame): seq<byte>
    requires |Wrap(b, Encoded(first))| >= CutAt(b)
  {
    Wrap(b, Encoded(first))[..CutAt(b)] + Wrap(b, Encoded(second))
  }

  // raw begins with a header of the type and number of f, a positive time, and a payload it contains.
  predicate Passes(raw: seq<byte>, f: Frame) {
    Decode(raw).Success? &&
    var g := Decode(raw).value; g.msgType == f.msgType && g.seqID == f.seqID && g.sendTSNS > 0
  }

  lemma HeaderReads(raw: seq<byte>)
    requires |raw| >= HEADER_LEN && raw[0..4] == PutBE(MAGIC, 4) && raw[4] == VERSION
    requires HEADER_LEN + GetBE(raw[24..26]) <= |raw|
    ensures Decode(raw).Success? &&
      var g := Decode(raw).value; g.msgType == raw[5] && g.seqID == GetBE(raw[6..14])
  {
    Widths();
    GetPut(MAGIC, 4);
  }

  lemma HeaderPasses(raw: seq<byte>, f: Frame)
    requires |raw| >= HEADER_LEN && raw[0..4] == PutBE(MAGIC, 4) && raw[4] == VERSION && raw[5] == f.msgType
    requires raw[6..14] == PutBE(f.seqID, 8) && 0 < raw[14] < 0x80
    requires HEADER_LEN + GetBE(raw[24..26]) <= |raw|
    ensures Passes(raw, f)
  {
    HeaderReads(raw);
    Widths();
    GetPut(f.seqID, 8);
    PositiveTime(raw[14..22]);
  }

  // The bytes of an encoding in front of its number, and of a number that fits four bytes.
  lemma FrontOf(f: Frame)
    requires f.seqID < TWO_32
    ensures var x := Encoded(f);
      x[0..4] == PutBE(MAGIC, 4) && x[0] == 0x4D && x[1] == 0x35 && x[4] == VERSION && x[5] == f.msgType
      && x[6..10] == [0, 0, 0, 0] && x[10..14] == PutBE(f.seqID, 4)
  {
    MagicBytes();
    HeaderLayout(f);
    Widths();
    ZeroPad(f.seqID, 4, 4);
    var x := Encoded(f);
    var zeros: seq<byte> := seq(4, _ => 0);
    assert zeros == [0, 0, 0, 0];
    assert x[6..14] == Header(f)[6..14] == zeros + PutBE(f.seqID, 4);
    assert x[0..4] == Header(f)[0..4];
    assert x[0] == x[0..4][0] && x[1] == x[0..4][1];
    assert x[6..10] == x[6..14][..4] && x[10..14] == x[6..14][4..];
  }

  // A small number has zeros in its upper bytes.
  lemma SmallNumber(v: nat)
    requires v < 256
    ensures PutBE(v, 4) == [0, 0, 0, v]
  {
    assert Pow256(1) == 256 * Pow256(0);
    ZeroPad(v, 1, 3);
    assert PutBE(v, 1) == PutBE(0, 0) + [v];
  }

  // The header behind a cut in the last byte of the first number.
  lemma KernelLayout(x: seq<byte>, y: seq<byte>)
    requires |x| >= HEADER_LEN && |y| >= HEADER_LEN
    ensures var s := x[..13] + y;
      s[0..4] == x[0..4] && s[4] == x[4] && s[5] == x[5] && s[6..14] == x[6..10] + x[10..14][..3] + [y[0]]
      && s[14] == y[1] && s[24..26] == y[10..14][1..3]
  {
    var s := x[..13] + y;
    assert x[10..14][..3] == x[10..13];
    assert s[6..13] == x[6..13] && s[13] == y[0];
  }

  lemma KernelSplice(first: Frame, second: Frame)
    requires Consecutive(Kernel, first, second)
    ensures var s := Spliced(Kernel, first, second);
      |s| >= HEADER_LEN && KernelLength(s) == HEADER_LEN && Passes(s[..HEADER_LEN], second)
  {
    var x, y, s := Encoded(first), Encoded(second), Spliced(Kernel, first, second);
    FrontOf(first);
    FrontOf(second);
    SmallNumber(76);
    SmallNumber(77);
    KernelLayout(x, y);
    assert s[24..26] == [0, 0];
    ZeroPad(0, 0, 2);
    GetPut(0, 2);
    ZeroPad(77, 4, 4);
    assert s[6..14] == PutBE(77, 8);
    var raw := s[..HEADER_LEN];
    assert raw[24..26] == s[24..26] && raw[0..4] == s[0..4] && raw[6..14] == s[6..14];
    HeaderPasses(raw, second);
  }

  // The message behind a cut in the middle of the first number, when both messages have the prefix h.
  lemma QuicLayout(h: seq<byte>, x: seq<byte>, y: seq<byte>)
    requires |h| == 4 && |x| == |y| >= HEADER_LEN
    ensures var s := (h + x)[..14] + (h + y);
      |s| >= 4 + |x| && s[..4] == h &&
      var raw := s[4..4 + |x|];
      raw[0..4] == x[0..4] && raw[4] == x[4] && raw[5] == x[5] && raw[6..14] == x[6..10] + h
      && raw[14] == y[0] && raw[24..26] == y[10..14][..2]
  {
    var s := (h + x)[..14] + (h + y);
    assert (h + x)[..14] == h + x[..10];
    var raw := s[4..4 + |x|];
    assert raw == x[..10] + h + y[..|x| - 14];
    assert raw[..10] == x[..10] && raw[10..14] == h && raw[14..] == y[..|x| - 14];
    assert raw[6..10] == raw[..10][6..] && raw[24..26] == raw[14..][10..12];
  }

  lemma UpperHalf(v: nat)
    requires v < 2 * TWO_16
    ensures GetBE(PutBE(v, 4)[..2]) == v / TWO_16
  {
    assert PutBE(v, 4) == PutBE(v / 256, 3) + [v % 256];
    assert PutBE(v / 256, 3) == PutBE(v / 256 / 256, 2) + [v / 256 % 256];
    assert PutBE(v, 4)[..2] == PutBE(v / 256 / 256, 2);
    Widths();
    GetPut(v / 256 / 256, 2);
  }

  lemma QuicSplicePasses(first: Frame, second: Frame)
    requires Consecutive(Quic, first, second)
    ensures var s, size := Spliced(Quic, first, second), |Encoded(second)|;
      |s| >= 4 + size && s[..4] == PutBE(size, 4) && Passes(s[4..4 + size], second)
  {
    var x, y, s := Encoded(first), Encoded(second), Spliced(Quic, first, second);
    var size, h := |y|, PutBE(|y|, 4);
    FrontOf(first);
    FrontOf(second);
    QuicLayout(h, x, y);
    ZeroPad(size, 4, 4);
    UpperHalf(size);
    HeaderPasses(s[4..4 + size], second);
  }

  lemma QuicSplice(first: Frame, second: Frame)
    requires Consecutive(Quic, first, second)
    ensures var s, size := Spliced(Quic, first, second), |Encoded(second)|;
      HeadOf(Quic, s) == Message(s[4..4 + size], 4 + size) && Passes(s[4..4 + size], second)
  {
    QuicSplicePasses(first, second);
    Widths();
    GetPut(|Encoded(second)|, 4);
  }

  // After the cut the receiver reads a message with the type and number of the second frame, and with a
  // positive time that is really a piece of a header.
  lemma SpliceReads(b: Backend, first: Frame, second: Frame) returns (raw: seq<byte>, rest: seq<byte>)
    requires Consecutive(b, first, second)
    ensures Received(b, Spliced(b, first, second), rest, Success(raw)) && Passes(raw, second)
  {
    var s := Spliced(b, first, second);
    match b {
      case Kernel => KernelSplice(first, second);
      case Quic => QuicSplice(first, second);
    }
    var h := HeadOf(b, s);
    return h.msg, s[h.len..];
  }

  // ---------- Replies behind a Recv that timed out in the number or the time ----------

  // The time whose bytes are a magic number, a version, the type of a reply, and two zeros.
  const FORGING_TIME: int64 := 0x4D35_4747_0102_0000

  lemma ForgingBytes()
    ensures PutBE(ToUint64(FORGING_TIME), 8) == PutBE(MAGIC, 4) + [VERSION, MSG_RESP, 0, 0]
  {
    var v: nat := FORGING_TIME;
    assert PutBE(v, 8) == PutBE(v / 256, 7) + [0];
    assert PutBE(v / 256, 7) == PutBE(v / 256 / 256, 6) + [0];
    assert PutBE(v / 256 / 256, 6) == PutBE(v / 256 / 256 / 256, 5) + [MSG_RESP];
    assert PutBE(v / 256 / 256 / 256, 5) == PutBE(MAGIC, 4) + [VERSION];
  }

  lemma {:induction false} GetConcat(x: seq<byte>, y: seq<byte>)
    ensures GetBE(x + y) == GetBE(x) * Pow256(|y|) + GetBE(y)
    decreases |y|
  {
    if y == [] {
      assert x + y == x;
    } else {
      var init, p := y[..|y| - 1], Pow256(|y| - 1);
      GetConcat(x, init);
      assert (x + y)[..|x + y| - 1] == x + init;
      Regroup(GetBE(x), p);
      assert 256 * (GetBE(x) * p + GetBE(init)) == 256 * (GetBE(x) * p) + 256 * GetBE(init);
    }
  }

  // The two bytes behind the length field of a reply: payload, or what the next reply begins with.
  function NextTwo(b: Backend, payload: seq<byte>): (s: seq<byte>)
    ensures |s| == 2
  {
    (payload + (if b.Kernel? then [0x4D, 0x35] else PutBE(HEADER_LEN + |payload|, 4)))[..2]
  }

  // What stands where the number of a reply is read, if the reading begins at the time of the reply before.
  function ForgedNumber(b: Backend, w: uint16, payload: seq<byte>): nat
    requires |payload| <= MAX_PAYLOAD
  {
    GetBE([0, 0] + PutBE(w, 2) + PutBE(|payload|, 2) + NextTwo(b, payload))
  }

  lemma ForgedNumberIs(b: Backend, w: uint16, payload: seq<byte>)
    requires |payload| <= MAX_PAYLOAD
    ensures ForgedNumber(b, w, payload) == w * TWO_32 + |payload| * TWO_16 + GetBE(NextTwo(b, payload))
    ensures GetBE(NextTwo(b, payload)) < TWO_16
  {
    Widths();
    var zeros: seq<byte> := [0, 0];
    GetConcat(zeros + PutBE(w, 2) + PutBE(|payload|, 2), NextTwo(b, payload));
    GetConcat(zeros + PutBE(w, 2), PutBE(|payload|, 2));
    GetConcat(zeros, PutBE(w, 2));
    GetPut(w, 2);
    GetPut(|payload|, 2);
    GetPut(0, 2);
    ZeroBE(2);
    assert zeros == seq(2, _ => 0);
  }

  // The channel, and with it the number, that the forged reply needs.
  function ForgingWorker(b: Backend, payload: seq<byte>): (w: uint16)
    ensures w <= 1
  {
    if b.Quic? && |payload| < 2 then 1 else 0
  }

  const LONGEST: nat := HEADER_LEN + MAX_PAYLOAD

  // The number of the reply that is cut, and that of the reply that is forged.
  function CutNumber(b: Backend, payload: seq<byte>): int
    requires |payload| <= MAX_PAYLOAD
  {
    if b.Kernel? then ForgedNumber(b, ForgingWorker(b, payload), payload) - 3000 else LONGEST
  }

  // Between the two there are enough replies for the longest payload that a forged header can announce.
  lemma EnoughReplies(b: Backend, payload: seq<byte>)
    requires |payload| <= MAX_PAYLOAD
    ensures var n, j := ForgedNumber(b, ForgingWorker(b, payload), payload), CutNumber(b, payload);
      1 <= j < TWO_32 && n < 0x2_0000_0000 && j + 1 < n && HEADER_LEN * (n - 1 - j) >= LONGEST + 4
  {
    ForgedNumberIs(b, ForgingWorker(b, payload), payload);
    if b.Kernel? && payload == [] {
      assert NextTwo(b, payload) == [0x4D, 0x35];
      assert [0x4D, 0x35][..1] == [0x4D] && [0x4D][..0] == [];
      assert GetBE([0x4D]) == 0x4D;
    }
  }

  // What is left of a reply behind its first 14 bytes on the stream: its time, its channel, its length and its
  // payload, and on QUIC the lower half of its number before them.
  lemma LeftOf(b: Backend, f: Frame)
    requires Encodable(f) && f.seqID < TWO_32
    ensures |Wrap(b, Encoded(f))| >= HEADER_LEN
    ensures Wrap(b, Encoded(f))[14..] == (if b.Kernel? then [] else PutBE(f.seqID, 4)) + Behind(f)
  {
    var x := Encoded(f);
    BehindNumber(f);
    match b {
      case Kernel => assert [] + x[14..] == x[14..];
      case Quic =>
        FrontOf(f);
        BehindPrefix(PutBE(|x|, 4), x);
    }
  }

  lemma BehindPrefix(h: seq<byte>, x: seq<byte>)
    requires |h| == 4 && |x| >= 14
    ensures (h + x)[14..] == x[10..14] + x[14..]
  {
  }

  // What an encoding holds behind the number.
  function Behind(f: Frame): seq<byte> {
    PutBE(ToUint64(f.sendTSNS), 8) + (PutBE(f.channelID, 2) + PutBE(|f.payload|, 2)) + f.payload
  }

  lemma BehindNumber(f: Frame)
    ensures Encoded(f)[14..] == Behind(f)
  {
    HeaderLayout(f);
    var x, h := Encoded(f), Header(f);
    assert h[14..] == h[14..22] + (h[22..24] + h[24..26]);
    assert x[14..] == h[14..] + f.payload;
  }

  lemma ForgedLayout(s: seq<byte>, t: seq<byte>, c: seq<byte>, p: seq<byte>)
    requires |t| == 8 && |c| == 4 && |p| >= 2 && t + c + p <= s
    ensures s[0..4] == t[0..4] && s[4] == t[4] && s[5] == t[5] && s[6..14] == t[6..8] + c + p[..2]
  {
    var left := t + c + p;
    assert s[..14] == left[..14] == t + c + p[..2];
    assert s[0..4] == s[..14][0..4] && s[6..14] == s[..14][6..14];
  }

  // A stream that begins where a header should: the time, channel, length and payload of one reply, and then
  // the front of the next one.
  lemma ForgedHeader(b: Backend, f: Frame, s: seq<byte>)
    requires Encodable(f) && f.sendTSNS == FORGING_TIME && |s| >= LONGEST
    requires Behind(f) + (if b.Kernel? then [0x4D, 0x35] else PutBE(HEADER_LEN + |f.payload|, 4)) <= s
    ensures s[0..4] == PutBE(MAGIC, 4) && s[4] == VERSION && s[5] == MSG_RESP
    ensures GetBE(s[6..14]) == ForgedNumber(b, f.channelID, f.payload)
    ensures HEADER_LEN + GetBE(s[24..26]) <= LONGEST
  {
    ForgingBytes();
    Widths();
    var t, c := PutBE(ToUint64(f.sendTSNS), 8), PutBE(f.channelID, 2) + PutBE(|f.payload|, 2);
    var next := if b.Kernel? then [0x4D, 0x35] else PutBE(HEADER_LEN + |f.payload|, 4);
    Associative(t + c, f.payload, next);
    ForgedLayout(s, t, c, f.payload + next);
    Associative([0, 0], PutBE(f.channelID, 2), PutBE(|f.payload|, 2));
    assert t[6..8] == [0, 0] && t[0..4] == PutBE(MAGIC, 4);
  }

  // A front of such a stream that holds the payload its header announces decodes.
  lemma ForgedDecodes(b: Backend, f: Frame, s: seq<byte>, n: nat)
    requires Encodable(f) && f.sendTSNS == FORGING_TIME && |s| >= LONGEST && HEADER_LEN <= n <= |s|
    requires Behind(f) + (if b.Kernel? then [0x4D, 0x35] else PutBE(HEADER_LEN + |f.payload|, 4)) <= s
    requires HEADER_LEN + GetBE(s[24..26]) <= n
    ensures Decode(s[..n]).Success? &&
      var g := Decode(s[..n]).value;
      g.msgType == MSG_RESP && g.seqID == ForgedNumber(b, f.channelID, f.payload)
  {
    ForgedHeader(b, f, s);
    var raw := s[..n];
    assert raw[0..4] == s[0..4] && raw[6..14] == s[6..14] && raw[24..26] == s[24..26];
    HeaderReads(raw);
  }

  lemma NextFront(b: Backend, f: Frame)
    ensures (if b.Kernel? then [0x4D, 0x35] else PutBE(HEADER_LEN + |f.payload|, 4)) <= Wrap(b, Encoded(f))
  {
    if b.Kernel? {
      MagicBytes();
      HeaderLayout(f);
      var x := Encoded(f);
      assert x[0..4] == Header(f)[0..4];
      assert x[0] == x[0..4][0] && x[1] == x[0..4][1];
    }
  }

  lemma PrefixOfPrefix<T>(h: seq<T>, p: seq<T>, t: seq<T>, s: seq<T>)
    requires p <= t && h + t <= s
    ensures h + p <= s
  {
  }

  lemma BehindHead<T>(h: seq<T>, t: seq<T>, s: seq<T>)
    requires h + t <= s
    ensures h <= s && t <= s[|h|..]
  {
    assert s[..|h|] == (h + t)[..|h|] == h;
    assert s[|h|..|h| + |t|] == (h + t)[|h|..] == t;
  }

  // The message at the head of the stream is a reply with the forged number.
  predicate Forges(b: Backend, w: uint16, payload: seq<byte>, s: seq<byte>)
    requires |payload| <= MAX_PAYLOAD
  {
    HeadOf(b, s).Message? && Decode(HeadOf(b, s).msg).Success? &&
    var g := Decode(HeadOf(b, s).msg).value;
    g.msgType == MSG_RESP && g.seqID == ForgedNumber(b, w, payload)
  }

  lemma KernelForges(f: Frame, s: seq<byte>)
    requires Encodable(f) && f.sendTSNS == FORGING_TIME && |s| >= LONGEST && Behind(f) + [0x4D, 0x35] <= s
    ensures Forges(Kernel, f.channelID, f.payload, s)
  {
    ForgedHeader(Kernel, f, s);
    ForgedDecodes(Kernel, f, s, KernelLength(s));
  }

  lemma QuicForges(f: Frame, s: seq<byte>)
    requires Encodable(f) && f.sendTSNS == FORGING_TIME && |s| >= LONGEST + 4
    requires s[..4] == PutBE(LONGEST, 4) && Behind(f) + PutBE(HEADER_LEN + |f.payload|, 4) <= s[4..]
    ensures Forges(Quic, f.channelID, f.payload, s)
  {
    var r := s[4..];
    ForgedHeader(Quic, f, r);
    ForgedDecodes(Quic, f, r, LONGEST);
    Widths();
    GetPut(LONGEST, 4);
    assert s[4..4 + LONGEST] == r[..LONGEST];
  }

  // A Recv that has taken the first 14 bytes of a reply leaves a stream on which the next one reads a reply
  // with the forged number, as soon as enough has arrived.
  lemma ForgedRead(b: Backend, f: Frame, next: Frame, s: seq<byte>)
    requires Encodable(f) && f.sendTSNS == FORGING_TIME && f.seqID < TWO_32 && (b.Quic? ==> f.seqID == LONGEST)
    requires |next.payload| == |f.payload| && |s| >= LONGEST + 4
    requires Wrap(b, Encoded(f))[14..] + Wrap(b, Encoded(next)) <= s
    ensures Forges(b, f.channelID, f.payload, s)
  {
    var front := if b.Kernel? then [0x4D, 0x35] else PutBE(HEADER_LEN + |f.payload|, 4);
    NextFront(b, next);
    LeftOf(b, f);
    PrefixOfPrefix(Wrap(b, Encoded(f))[14..], front, Wrap(b, Encoded(next)), s);
    match b {
      case Kernel =>
        assert [] + Behind(f) == Behind(f);
        KernelForges(f, s);
      case Quic =>
        var h := PutBE(f.seqID, 4);
        Associative(h, Behind(f), front);
        BehindHead(h, Behind(f) + front, s);
        QuicForges(f, s);
    }
  }
}
