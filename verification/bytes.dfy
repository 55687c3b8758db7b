/** Bytes, the fixed-width integers of the wire format, and big-endian conversion. */
module Bytes {
  datatype Option<+T> = None | Some(value: T)
  datatype Result<+T, +E> = Success(value: T) | Failure(error: E)

  const TWO_16: int := 0x1_0000
  const TWO_32: int := 0x1_0000_0000
  const TWO_63: int := 0x8000_0000_0000_0000
  const TWO_64: int := 0x1_0000_0000_0000_0000

  type byte = x: int | 0 <= x < 0x100
  type uint16 = x: int | 0 <= x < TWO_16
  type uint64 = x: int | 0 <= x < TWO_64
  type int64 = x: int | -TWO_63 <= x < TWO_63

  // Go's uint64(x) for an int64 x: the same 64 bits.
  function ToUint64(x: int64): (r: uint64)
    ensures r == x || r == x + TWO_64
  {
    if x < 0 then x + TWO_64 else x
  }

  // Go's int64(x) for a uint64 x.
  function ToInt64(x: uint64): (r: int64)
    ensures r == x || r == x - TWO_64
  {
    if x >= TWO_63 then x - TWO_64 else x
  }

  function Pow256(n: nat): (p: nat)
    ensures p > 0
  {
    if n == 0 then 1 else 256 * Pow256(n - 1)
  }

  lemma NoMultiple(k: int, n: int)
    requires -n < k * n < n
    ensures k == 0
  {
  }

  // A number has one quotient and one remainder.
  lemma OneDivision(k: int, r: int, q: int, s: int, n: int)
    requires k * n + r == q * n + s && 0 <= r < n && 0 <= s < n
    ensures k == q && r == s
  {
    assert (k - q) * n == k * n - q * n;
    NoMultiple(k - q, n);
  }

  // The n low-order bytes of v, most significant first.
  function PutBE(v: nat, n: nat): (s: seq<byte>)
    ensures |s| == n
  {
    if n == 0 then [] else PutBE(v / 256, n - 1) + [v % 256]
  }

  // Byte k counts the multiples of 256 to the power of the number of bytes behind it.
  lemma {:induction false} PutBEAt(v: nat, n: nat, k: nat)
    requires k < n
    ensures PutBE(v, n)[k] == v / Pow256(n - 1 - k) % 256
  {
    if k < n - 1 {
      PutBEAt(v / 256, n - 1, k);
      DivTwice(v, Pow256(n - 2 - k));
    }
  }

  lemma DivTwice(v: nat, p: nat)
    requires p > 0
    ensures v / (256 * p) == v / 256 / p
  {
    var q := v / 256;
    var k, r := q / p, 256 * (q % p) + v % 256;
    assert v == 256 * q + v % 256;
    assert q == k * p + q % p;
    assert v == k * (256 * p) + r;
    OneDivision(k, r, v / (256 * p), v % (256 * p), 256 * p);
  }

  function GetBE(s: seq<byte>): (v: nat)
    ensures v < Pow256(|s|)
  {
    if s == [] then 0 else 256 * GetBE(s[..|s| - 1]) + s[|s| - 1]
  }

  // Values of Pow256 that the wire format uses.
  lemma Widths()
    ensures Pow256(2) == TWO_16 && Pow256(4) == TWO_32 && Pow256(8) == TWO_64
  {
  }

  lemma {:induction false} GetPut(v: nat, n: nat)
    requires v < Pow256(n)
    ensures GetBE(PutBE(v, n)) == v
  {
    if n != 0 {
      assert v / 256 < Pow256(n - 1);
      GetPut(v / 256, n - 1);
      var s := PutBE(v, n);
      assert s[..n - 1] == PutBE(v / 256, n - 1);
    }
  }

  lemma {:induction false} PutGet(s: seq<byte>)
    ensures PutBE(GetBE(s), |s|) == s
  {
    if s != [] {
      PutGet(s[..|s| - 1]);
      assert s == s[..|s| - 1] + [s[|s| - 1]];
    }
  }

  lemma Associative<T>(x: seq<T>, y: seq<T>, z: seq<T>)
    ensures (x + y) + z == x + (y + z)
  {
  }
}
