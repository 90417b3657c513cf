/**
 * Byte-level arithmetic the protocol code relies on: Python's
 * `int.from_bytes(..., 'little')` (unsigned and signed), Python slicing of a
 * payload, single-bit tests, the `v & 0xFF` / `(v >> 8) & 0xFF` split of a
 * packed field, and `int()` truncation toward zero.
 */
module Bytes {

  /** One payload byte. */
  type byte = x: int | 0 <= x < 256

  function Pow256(n: nat): (r: int)
    ensures r >= 1
  {
    if n == 0 then 1 else 256 * Pow256(n - 1)
  }

  function Pow2(n: nat): (r: int)
    ensures r >= 1
  {
    if n == 0 then 1 else 2 * Pow2(n - 1)
  }

  /** `int.from_bytes(bs, 'little')`: the first byte is the least significant. */
  function Unsigned(bs: seq<byte>): (r: nat)
    ensures r < Pow256(|bs|)
  {
    if |bs| == 0 then 0 else bs[0] + 256 * Unsigned(bs[1..])
  }

  /**
   * `int.from_bytes(bs, 'little', signed=True)`: two's complement over
   * 8 * |bs| bits; an empty sequence reads as 0.
   */
  function Signed(bs: seq<byte>): (r: int)
    ensures |bs| == 0 ==> r == 0
    ensures |bs| > 0 ==> -Pow256(|bs|) / 2 <= r < Pow256(|bs|) / 2
    ensures r % Pow256(|bs|) == Unsigned(bs)
  {
    var u := Unsigned(bs);
    var p := Pow256(|bs|);
    if |bs| > 0 && u >= p / 2 then
      ModShift(u, p);
      u - p
    else
      ModShift(u, p);
      u
  }

  lemma ModShift(u: int, p: int)
    requires 0 <= u < p
    ensures (u - p) % p == u && u % p == u
  {
  }

  function Min(a: int, b: int): int {
    if a <= b then a else b
  }

  /**
   * Python's `data[lo:hi]` for 0 <= lo <= hi: both bounds are clipped to the
   * payload length, so a short payload gives a short (possibly empty) slice.
   */
  function Slice(d: seq<byte>, lo: nat, hi: nat): (r: seq<byte>)
    requires lo <= hi
    ensures |r| == Min(hi, |d|) - Min(lo, |d|)
    ensures forall i :: 0 <= i < |r| ==> r[i] == d[lo + i]
    ensures hi <= |d| ==> |r| == hi - lo
  {
    d[Min(lo, |d|)..Min(hi, |d|)]
  }

  /** `b & (1 << k)` is non-zero. */
  predicate Bit(b: byte, k: nat) {
    (b / Pow2(k)) % 2 == 1
  }

  /** `v & 0xFF` under Python's infinite two's-complement integers. */
  function Lo(v: int): (r: byte)
    ensures (v - r) % 256 == 0
  {
    v % 256
  }

  /** `(v >> 8) & 0xFF`: Python's `>>` floors, as Dafny's `/` does for a positive divisor. */
  function Hi(v: int): (r: byte)
    ensures (v / 256 - r) % 256 == 0
  {
    (v / 256) % 256
  }

  /**
   * The two bytes of a packed field always join back into the field modulo
   * 2^16: the value itself when it fits, its two's complement when it is
   * negative, and a silent wrap-around when it is too large.
   */
  lemma SplitModulo(v: int)
    ensures Lo(v) + 256 * Hi(v) == v % 65536
    ensures Unsigned([Lo(v), Hi(v)]) == v % 65536
  {
    UnsignedPair(Lo(v), Hi(v));
    var q := v / 65536;
    var r := v % 65536;
    assert v == 65536 * q + r;
    assert v / 256 == 256 * q + r / 256;
    assert Hi(v) == (r / 256) % 256;
    assert Lo(v) == r % 256;
  }

  /** A field that fits in 16 bits is recovered exactly from its two bytes. */
  lemma SplitJoin(v: int)
    requires 0 <= v < 65536
    ensures Lo(v) + 256 * Hi(v) == v
  {
    SplitModulo(v);
  }

  /** Two payload bytes read back as the little-endian value they encode. */
  lemma UnsignedPair(a: byte, b: byte)
    ensures Unsigned([a, b]) == a + 256 * b
  {
    assert [a, b][1..] == [b];
    assert [b][1..] == [];
  }

  /** Python's `int(x / d)` for a positive integer divisor: truncation toward zero. */
  function TruncDiv(x: int, d: int): (r: int)
    requires d > 0
    ensures x >= 0 ==> r >= 0 && r * d <= x < r * d + d
    ensures x < 0 ==> r <= 0 && r * d - d < x <= r * d
  {
    if x >= 0 then x / d else -((-x) / d)
  }
}
