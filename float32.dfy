/**
 * The IEEE-754 binary32 bytes that `DataView.setFloat32(p, v, true)` stores, for the values the
 * point decoder writes exactly: the non-negative integers below 2^24 (intensities and
 * classifications). The general rounding of reals to binary32 is not modelled.
 */
module Float32 {
  import opened Bytes
  import opened Wrappers

  function Pow2(e: nat): (p: nat)
    ensures p >= 1
  {
    if e == 0 then 1 else 2 * Pow2(e - 1)
  }

  lemma {:induction false} Pow2Add(a: nat, b: nat)
    ensures Pow2(a + b) == Pow2(a) * Pow2(b)
  {
    if a > 0 {
      Pow2Add(a - 1, b);
      assert Pow2(a + b) == 2 * Pow2(a - 1 + b);
    }
  }

  lemma {:induction false} Pow2Monotone(a: nat, b: nat)
    requires a <= b
    ensures Pow2(a) <= Pow2(b)
  {
    if a < b {
      Pow2Monotone(a, b - 1);
    }
  }

  /** The position of the highest set bit of a positive integer. */
  function Log2(n: nat): (e: nat)
    requires n >= 1
    ensures Pow2(e) <= n < 2 * Pow2(e)
  {
    if n == 1 then 0 else 1 + Log2(n / 2)
  }

  lemma Pow2Table()
    ensures Pow2(23) == 0x80_0000 && Pow2(24) == 0x100_0000
  {
    Pow2Add(2, 2);
    Pow2Add(4, 4);
    Pow2Add(8, 8);
    Pow2Add(16, 4);
    Pow2Add(20, 2);
    Pow2Add(22, 1);
    Pow2Add(23, 1);
  }

  /** The largest integer bound below which every integer is a binary32 value. */
  const EXACT_LIMIT: nat := 0x100_0000

  const MANTISSA: nat := 0x80_0000

  /** The arithmetic behind SmallParts, on plain numbers: `p <= n < 2p` and `p * q == 2^23`. */
  lemma PartsArith(n: int, p: int, q: int, fraction: int)
    requires p <= n < 2 * p && q >= 1 && p * q == MANTISSA && fraction == (n - p) * q
    ensures 0 <= fraction < MANTISSA && MANTISSA + fraction == n * q
  {
    assert (n - p) * q >= 0;
    assert (n - p) * q < p * q;
    assert (n - p) * q == n * q - p * q;
  }

  /** The exponent and fraction of a small positive integer: n == (2^23 + fraction) / 2^(23 - e). */
  lemma SmallParts(n: nat)
    requires 1 <= n < EXACT_LIMIT
    ensures Log2(n) <= 23
    ensures 0 <= (n - Pow2(Log2(n))) * Pow2(23 - Log2(n)) < MANTISSA
    ensures MANTISSA + (n - Pow2(Log2(n))) * Pow2(23 - Log2(n)) == n * Pow2(23 - Log2(n))
  {
    var e := Log2(n);
    Pow2Table();
    if e > 23 {
      Pow2Monotone(24, e);
      assert false;
    }
    Pow2Add(e, 23 - e);
    PartsArith(n, Pow2(e), Pow2(23 - e), (n - Pow2(e)) * Pow2(23 - e));
  }

  /** The binary32 bit pattern of a small non-negative integer: biased exponent 127 + e and the
      bits below the leading one, shifted up to fill the 23-bit fraction. */
  function SmallBits(n: nat): (bits: nat)
    requires n < EXACT_LIMIT
    ensures bits < TWO31
  {
    if n == 0 then 0
    else
      var e := Log2(n);
      SmallParts(n);
      var fraction := (n - Pow2(e)) * Pow2(23 - e);
      assert (127 + e) * MANTISSA + fraction < TWO31;
      (127 + e) * MANTISSA + fraction
  }

  /** The four bytes `setFloat32(p, n, true)` writes for a small non-negative integer `n`. */
  function EncodeSmall(n: nat): (r: seq<byte>)
    requires n < EXACT_LIMIT
    ensures |r| == 4
  {
    LittleEndian32(SmallBits(n))
  }

  /** The value a binary32 bit pattern denotes; None for infinities and NaN. */
  function ValueOf(bits: nat): (v: Option<real>)
    requires bits < TWO32
  {
    var sign := bits / TWO31;
    var exponent := (bits / MANTISSA) % 0x100;
    var fraction := bits % MANTISSA;
    if exponent == 0xFF then None
    else
      // A zero exponent field denotes a subnormal number: no implicit leading one, exponent 1.
      var significand := if exponent == 0 then fraction else MANTISSA + fraction;
      var scale := if exponent == 0 then 1 else exponent;
      var magnitude :=
        if scale >= 150 then (significand * Pow2(scale - 150)) as real
        else (significand as real) / (Pow2(150 - scale) as real);
      Some(if sign == 1 then -magnitude else magnitude)
  }

  /** The fields of `(127 + e) * 2^23 + m` on plain numbers. */
  lemma FieldsArith(e: nat, m: nat, bits: nat)
    requires e <= 23 && m < MANTISSA && bits == (127 + e) * MANTISSA + m
    ensures bits / TWO31 == 0 && (bits / MANTISSA) % 0x100 == 127 + e && bits % MANTISSA == m
  {
    DivModUnique(bits, TWO31, 0, bits);
    DivModUnique(bits, MANTISSA, 127 + e, m);
    DivModUnique(127 + e, 0x100, 0, 127 + e);
  }

  /** The sign, exponent and fraction fields of the pattern SmallBits builds. */
  lemma SmallFields(n: nat)
    requires 1 <= n < EXACT_LIMIT
    ensures Log2(n) <= 23
    ensures SmallBits(n) / TWO31 == 0
    ensures (SmallBits(n) / MANTISSA) % 0x100 == 127 + Log2(n)
    ensures SmallBits(n) % MANTISSA == (n - Pow2(Log2(n))) * Pow2(23 - Log2(n))
  {
    SmallParts(n);
    FieldsArith(Log2(n), (n - Pow2(Log2(n))) * Pow2(23 - Log2(n)), SmallBits(n));
  }

  lemma RealCancel(n: nat, p: nat)
    requires p >= 1
    ensures ((n * p) as real) / (p as real) == n as real
  {
    assert ((n * p) as real) == (n as real) * (p as real);
  }

  /** A positive pattern with biased exponent 127 + e, e <= 23, denotes its significand
      `2^23 + fraction` over 2^(23 - e). */
  lemma ValueOfNormal(bits: nat, e: nat, fraction: nat)
    requires bits < TWO32 && e <= 23
    requires bits / TWO31 == 0 && (bits / MANTISSA) % 0x100 == 127 + e && bits % MANTISSA == fraction
    ensures ValueOf(bits) == Some(((MANTISSA + fraction) as real) / (Pow2(23 - e) as real))
  {
    var significand := MANTISSA + fraction;
    if e == 23 {
      assert Pow2(0) == 1 && significand * Pow2(0) == significand;
      assert (significand as real) / (1 as real) == significand as real;
    } else {
      assert 150 - (127 + e) == 23 - e;
    }
  }

  /** Such a pattern whose significand is `n * 2^(23 - e)` denotes n. */
  lemma ValueOfScaled(bits: nat, e: nat, fraction: nat, n: nat, p: nat)
    requires bits < TWO32 && e <= 23 && p == Pow2(23 - e)
    requires bits / TWO31 == 0 && (bits / MANTISSA) % 0x100 == 127 + e && bits % MANTISSA == fraction
    requires MANTISSA + fraction == n * p
    ensures ValueOf(bits) == Some(n as real)
  {
    ValueOfNormal(bits, e, fraction);
    RealCancel(n, p);
  }

  lemma ValueOfSmallBits(n: nat)
    requires n < EXACT_LIMIT
    ensures ValueOf(SmallBits(n)) == Some(n as real)
  {
    if n == 0 {
      DivModUnique(0, MANTISSA, 0, 0);
      DivModUnique(0, TWO31, 0, 0);
    } else {
      SmallFields(n);
      SmallParts(n);
      ValueOfScaled(SmallBits(n), Log2(n), SmallBits(n) % MANTISSA, n, Pow2(23 - Log2(n)));
    }
  }

  /** Reading back the stored bytes of a small integer yields that integer exactly. */
  lemma SmallRoundTrip(n: nat)
    requires n < EXACT_LIMIT
    ensures var b := EncodeSmall(n); ValueOf(Word(b[0], b[1], b[2], b[3])) == Some(n as real)
  {
    Uint32Identity(SmallBits(n));
    ValueOfSmallBits(n);
  }
}
