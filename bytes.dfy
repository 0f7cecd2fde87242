/**
 * Bytes and 32-bit words as JavaScript's typed arrays and bitwise operators see them.
 * Integers are unbounded here, so every 32-bit reduction the engine performs is written out.
 */
module Bytes {

  /** One element of a Uint8Array. */
  type byte = x: int | 0 <= x < 0x100

  const TWO32: int := 0x1_0000_0000
  const TWO31: int := 0x8000_0000

  /** JavaScript's ToUint32: the argument reduced modulo 2^32. */
  function ToUint32(x: int): (r: nat)
    ensures r < TWO32
  {
    x % TWO32
  }

  /** JavaScript's ToInt32: the result type of every bitwise operator. */
  function ToInt32(x: int): (r: int)
    ensures -TWO31 <= r < TWO31
    ensures (r - x) % TWO32 == 0
  {
    var m := x % TWO32;
    if m >= TWO31 then m - TWO32 else m
  }

  /** The unsigned value of four bytes, least significant first. */
  function Word(b0: byte, b1: byte, b2: byte, b3: byte): (v: nat)
    ensures v < TWO32
  {
    b0 + 0x100 * b1 + 0x1_0000 * b2 + 0x100_0000 * b3
  }

  /** Element `i` of a Uint8Array; an index outside the array reads `undefined`, which every
      consumer here (a shift, an OR, `setUint8`) converts to 0. */
  function At(s: seq<byte>, i: int): (b: byte)
    ensures 0 <= i < |s| ==> b == s[i]
    ensures !(0 <= i < |s|) ==> b == 0
  {
    if 0 <= i < |s| then s[i] else 0
  }

  /** The four bytes `DataView.setUint32(p, v, true)` stores. */
  function LittleEndian32(v: int): (r: seq<byte>)
    ensures |r| == 4
    ensures Word(r[0], r[1], r[2], r[3]) == ToUint32(v)
  {
    var u := ToUint32(v);
    WordOf(u);
    [u % 0x100, (u / 0x100) % 0x100, (u / 0x1_0000) % 0x100, u / 0x100_0000]
  }

  /** A multiple of `d` strictly between -d and d is zero. */
  lemma ZeroMultiple(a: int, d: int)
    requires d > 0 && -d < a * d < d
    ensures a == 0
  {}

  /** Euclidean division has exactly one quotient and remainder. */
  lemma DivModUnique(x: int, d: int, q: int, r: int)
    requires d > 0 && 0 <= r < d && x == q * d + r
    ensures x / d == q && x % d == r
  {
    var q', r' := x / d, x % d;
    assert (q' - q) * d == r - r';
    ZeroMultiple(q' - q, d);
  }

  /** The bytes of a word are recovered from its value. */
  lemma WordBytes(b0: byte, b1: byte, b2: byte, b3: byte)
    ensures var v := Word(b0, b1, b2, b3);
      && v % 0x100 == b0 && (v / 0x100) % 0x100 == b1
      && (v / 0x1_0000) % 0x100 == b2 && v / 0x100_0000 == b3
  {
    var v := Word(b0, b1, b2, b3);
    DivModUnique(v, 0x100, b1 + 0x100 * b2 + 0x1_0000 * b3, b0);
    DivModUnique(v / 0x100, 0x100, b2 + 0x100 * b3, b1);
    DivModUnique(v, 0x1_0000, b2 + 0x100 * b3, b0 + 0x100 * b1);
    DivModUnique(v / 0x1_0000, 0x100, b3, b2);
    DivModUnique(v, 0x100_0000, b3, b0 + 0x100 * b1 + 0x1_0000 * b2);
  }

  /** Every 32-bit value is the word of its four bytes. */
  lemma WordOf(v: int)
    requires 0 <= v < TWO32
    ensures v == Word(v % 0x100, (v / 0x100) % 0x100, (v / 0x1_0000) % 0x100, v / 0x100_0000)
  {
    assert v == (v / 0x100) * 0x100 + v % 0x100;
    assert v / 0x100 == (v / 0x1_0000) * 0x100 + (v / 0x100) % 0x100;
    assert v / 0x1_0000 == (v / 0x100_0000) * 0x100 + (v / 0x1_0000) % 0x100;
  }

  /** ToUint32 and ToInt32 are two readings of the same 32 bits. */
  lemma Reinterpret(x: int)
    ensures ToUint32(ToInt32(x)) == ToUint32(x)
    ensures ToInt32(ToUint32(x)) == ToInt32(x)
  {
    var m := x % TWO32;
    if m >= TWO31 {
      DivModUnique(m - TWO32, TWO32, -1, m);
    } else {
      DivModUnique(m, TWO32, 0, m);
    }
    DivModUnique(m, TWO32, 0, m);
  }

  /** A value already below 2^32 is its own ToUint32. */
  lemma Uint32Identity(v: int)
    requires 0 <= v < TWO32
    ensures ToUint32(v) == v
  {
    DivModUnique(v, TWO32, 0, v);
  }

  /** Byte `t` of slot `offset` of record `j` in a buffer of `n` records of `stride` bytes. */
  function Pos(j: nat, n: nat, stride: nat, offset: nat, t: nat): (p: nat)
    requires j < n && offset + t < stride
    ensures p / stride == j && p % stride == offset + t && p < n * stride
  {
    DivModUnique(j * stride + offset + t, stride, j, offset + t);
    MulMonotone(j + 1, n, stride);
    j * stride + offset + t
  }

  lemma MulMonotone(a: nat, b: nat, c: nat)
    requires a <= b
    ensures a * c <= b * c
  {}
}
