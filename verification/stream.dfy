/**
 Ordered byte streams as the channels see them: every chunk size, every error and the
 arrival of more bytes are the stream's own nondeterministic choice.
 */
module Stream {
  import opened Bytes

  datatype IOError = Timeout | Eof | UnexpectedEof | Broken

  // b with data written over it from lo on.
  function Filled(b: seq<byte>, lo: nat, data: seq<byte>): (c: seq<byte>)
    requires lo + |data| <= |b|
    ensures |c| == |b|
  {
    b[..lo] + data + b[lo + |data|..]
  }

  // copy(buf[lo..], data)
  method Fill(buf: array<byte>, lo: nat, data: seq<byte>)
    requires lo + |data| <= buf.Length
    modifies buf
    ensures buf[..] == Filled(old(buf[..]), lo, data)
  {
    forall i | 0 <= i < |data| {
      buf[lo + i] := data[i];
    }
  }

  class Reader {
    // Everything that has arrived so far, and how much of it has been read.
    var arrived: seq<byte>
    var pos: nat

    // What the last Read returned.
    ghost var failed: Option<IOError>

    predicate Valid()
      reads this
    {
      pos <= |arrived|
    }

    constructor ()
      ensures Valid() && arrived == [] && pos == 0 && failed == None
    {
      arrived, pos, failed := [], 0, None;
    }

    // One Read into buf[lo..]: more bytes may arrive, and without an error there is progress.
    method Read(buf: array<byte>, lo: nat) returns (n: nat, err: Option<IOError>)
      requires Valid() && lo <= buf.Length
      modifies this, buf
      ensures Valid() && old(arrived) <= arrived
      ensures n <= buf.Length - lo && pos == old(pos) + n
      ensures buf[..] == Filled(old(buf[..]), lo, arrived[old(pos)..pos])
      ensures err.None? && lo < buf.Length ==> n > 0
      ensures failed == err
    {
      var more: seq<byte> := *;
      arrived := arrived + more;
      var room := if |arrived| - pos < buf.Length - lo then |arrived| - pos else buf.Length - lo;
      n :| 0 <= n <= room;
      var data := arrived[pos..pos + n];
      Fill(buf, lo, data);
      pos := pos + n;
      var ok: bool := *;
      if ok && n > 0 {
        err := None;
      } else {
        var e: IOError := *;
        err := if lo == buf.Length then None else Some(e);
      }
      failed := err;
    }
  }

  // Filling twice in a row, with bytes arriving in between, is filling once.
  lemma FillTwice(b: seq<byte>, lo: nat, was: seq<byte>, now: seq<byte>, start: nat, mid: nat, end: nat)
    requires was <= now && start <= mid <= |was| && mid <= end <= |now| && lo + (end - start) <= |b|
    ensures Filled(Filled(b, lo, was[start..mid]), lo + (mid - start), now[mid..end]) == Filled(b, lo, now[start..end])
  {
    assert now[start..end] == was[start..mid] + now[mid..end];
  }

  // io.ReadFull(r, buf[lo..])
  method ReadFull(r: Reader, buf: array<byte>, lo: nat) returns (n: nat, err: Option<IOError>)
    requires r.Valid() && lo <= buf.Length
    modifies r, buf
    ensures r.Valid() && old(r.arrived) <= r.arrived
    ensures n <= buf.Length - lo && r.pos == old(r.pos) + n
    ensures buf[..] == Filled(old(buf[..]), lo, r.arrived[old(r.pos)..r.pos])
    ensures err.None? <==> n == buf.Length - lo
    // The error is that of the last Read; the end of the stream is unexpected once something has been read.
    ensures err.Some? ==> r.failed.Some? && (r.failed != Some(Eof) || n == 0 ==> err == r.failed)
    ensures err.Some? && r.failed == Some(Eof) && n > 0 ==> err == Some(UnexpectedEof)
  {
    ghost var b, start := buf[..], r.pos;
    n, err := 0, None;
    while n < buf.Length - lo && err.None?
      invariant r.Valid() && old(r.arrived) <= r.arrived
      invariant n <= buf.Length - lo && r.pos == start + n
      invariant buf[..] == Filled(b, lo, r.arrived[start..r.pos])
      invariant err.Some? ==> err == r.failed
      decreases buf.Length - lo - n, err.None?
    {
      var got;
      ghost var from, all := r.pos, r.arrived;
      got, err := r.Read(buf, lo + n);
      FillTwice(b, lo, all, r.arrived, start, from, r.pos);
      n := n + got;
    }
    if n == buf.Length - lo {
      err := None;
    } else if n > 0 && err == Some(Eof) {
      err := Some(UnexpectedEof);
    }
  }

  class Writer {
    // Everything the stream has accepted.
    var sent: seq<byte>

    // What the last Write returned.
    ghost var failed: Option<IOError>

    constructor ()
      ensures sent == [] && failed == None
    {
      sent, failed := [], None;
    }

    // One Write: a prefix is accepted, and without an error there is progress.
    method Write(b: seq<byte>) returns (n: nat, err: Option<IOError>)
      modifies this
      ensures n <= |b| && sent == old(sent) + b[..n]
      ensures err.None? && b != [] ==> n > 0
      ensures failed == err
    {
      n :| 0 <= n <= |b|;
      sent := sent + b[..n];
      var ok: bool := *;
      if ok && n > 0 {
        err := None;
      } else {
        var e: IOError := *;
        err := if b == [] then None else Some(e);
      }
      failed := err;
    }
  }
}
