/**
 * Point attributes of a dataset and their interleaved form.
 *
 * `toInterleavedBufferAttribute` is not part of this model: each point attribute carries the
 * interleaved attribute it converts to (None where the converter returns null).
 */
module PointAttributes {
  import opened Wrappers

  /** The names the decoder dispatches on; every other name is OtherAttribute. */
  datatype AttributeName =
    | PositionCartesian
    | ColorPacked
    | Intensity
    | Classification
    | NormalSphereMapped
    | NormalOct16
    | Normal
    | OtherAttribute(attributeName: string)

  datatype ElementType = FloatType | UnsignedByte | UnsignedShort | UnsignedInt

  /** One attribute inside an interleaved per-point record. */
  datatype InterleavedAttribute = InterleavedAttribute(
    name: string, bytes: nat, numElements: nat, elementType: ElementType, normalized: bool)

  /** One attribute of the dataset's on-disk point record. */
  datatype PointAttribute = PointAttribute(
    name: AttributeName, byteSize: nat, interleaved: Option<InterleavedAttribute>)

  /** The trailing per-point index both loaders and the decoder append. */
  function IndexAttribute(normalized: bool): InterleavedAttribute
  {
    InterleavedAttribute("index", 4, 4, UnsignedByte, normalized)
  }

  /** `attributes.map(toInterleavedBufferAttribute).filter(ia => ia != null)`. */
  function Converted(attrs: seq<PointAttribute>): seq<InterleavedAttribute>
  {
    if attrs == [] then []
    else
      var rest := Converted(attrs[..|attrs| - 1]);
      match attrs[|attrs| - 1].interleaved
      case Some(ia) => rest + [ia]
      case None => rest
  }

  /** The interleaved attribute list: the converted attributes, then `index`. */
  function InterleavedAttributes(attrs: seq<PointAttribute>, indexNormalized: bool): (r: seq<InterleavedAttribute>)
    ensures |r| >= 1 && r[|r| - 1] == IndexAttribute(indexNormalized)
    ensures r[..|r| - 1] == Converted(attrs)
  {
    var r := Converted(attrs) + [IndexAttribute(indexNormalized)];
    assert r[..|r| - 1] == Converted(attrs);
    r
  }

  /** Every attribute has an interleaved form (the decoder dereferences each one). */
  predicate AllConvert(attrs: seq<PointAttribute>)
  {
    forall k | 0 <= k < |attrs| :: attrs[k].interleaved.Some?
  }

  /** When every attribute converts, the converted list is the conversions, position by position. */
  lemma {:induction false} ConvertedWhenAllConvert(attrs: seq<PointAttribute>)
    requires AllConvert(attrs)
    ensures |Converted(attrs)| == |attrs|
    ensures forall k | 0 <= k < |attrs| :: Converted(attrs)[k] == attrs[k].interleaved.value
  {
    if attrs != [] {
      var init := attrs[..|attrs| - 1];
      assert AllConvert(init) by {
        forall k | 0 <= k < |init| ensures init[k].interleaved.Some? {
          assert init[k] == attrs[k];
        }
      }
      ConvertedWhenAllConvert(init);
    }
  }

  /** An interleaved attribute is kept iff some point attribute converts to it. */
  lemma {:induction false} ConvertedMembers(attrs: seq<PointAttribute>, ia: InterleavedAttribute)
    ensures ia in Converted(attrs) <==> exists k | 0 <= k < |attrs| :: attrs[k].interleaved == Some(ia)
  {
    if attrs != [] {
      var init := attrs[..|attrs| - 1];
      ConvertedMembers(init, ia);
      if ia in Converted(init) {
        var k :| 0 <= k < |init| && init[k].interleaved == Some(ia);
        assert attrs[k] == init[k];
      }
      if exists k | 0 <= k < |attrs| :: attrs[k].interleaved == Some(ia) {
        var k :| 0 <= k < |attrs| && attrs[k].interleaved == Some(ia);
        if k < |init| {
          assert init[k] == attrs[k];
        }
      }
    }
  }

  /** `Math.ceil(x / 4) * 4`. */
  function Ceil4(x: nat): (r: nat)
    ensures r % 4 == 0 && x <= r < x + 4
  {
    ((x + 3) / 4) * 4
  }

  /** Ceil4 is the least multiple of 4 not below its argument. */
  lemma Ceil4Least(x: nat, m: nat)
    requires m % 4 == 0 && x <= m
    ensures Ceil4(x) <= m
  {
    assert m == (m / 4) * 4;
    assert Ceil4(x) == ((x + 3) / 4) * 4;
  }

  function SumBytes(ias: seq<InterleavedAttribute>): nat
  {
    if ias == [] then 0 else SumBytes(ias[..|ias| - 1]) + ias[|ias| - 1].bytes
  }

  /** The interleaved record size: the attributes' bytes, including the 4-byte index, rounded up to 4. */
  function Stride(attrs: seq<PointAttribute>): (s: nat)
    ensures s % 4 == 0
    ensures SumBytes(Converted(attrs)) + 4 <= s < SumBytes(Converted(attrs)) + 8
  {
    var ias := InterleavedAttributes(attrs, true);
    assert ias[..|ias| - 1] == Converted(attrs);
    Ceil4(SumBytes(ias))
  }

  /** The byte offset of attribute k in the source record: the sum of the earlier byte sizes. */
  function InOffset(attrs: seq<PointAttribute>, k: nat): nat
    requires k <= |attrs|
  {
    if k == 0 then 0 else InOffset(attrs, k - 1) + attrs[k - 1].byteSize
  }

  /** The byte offset of attribute k in the interleaved record: the earlier attributes' bytes,
      each rounded up to 4. */
  function OutOffset(attrs: seq<PointAttribute>, k: nat): (r: nat)
    requires k <= |attrs|
    requires forall i | 0 <= i < k :: attrs[i].interleaved.Some?
    ensures r % 4 == 0
  {
    if k == 0 then 0 else OutOffset(attrs, k - 1) + Ceil4(attrs[k - 1].interleaved.value.bytes)
  }

  lemma {:induction false} OutOffsetMonotone(attrs: seq<PointAttribute>, a: nat, b: nat)
    requires a <= b <= |attrs| && AllConvert(attrs)
    ensures OutOffset(attrs, a) <= OutOffset(attrs, b)
  {
    if a < b {
      OutOffsetMonotone(attrs, a, b - 1);
    }
  }

  /** With every attribute converted and every byte count a multiple of 4, the per-attribute
      rounding adds nothing, so the index slot ends exactly at the stride. */
  lemma {:induction false} AlignedIndexSlot(attrs: seq<PointAttribute>)
    requires AllConvert(attrs)
    requires forall k | 0 <= k < |attrs| :: attrs[k].interleaved.value.bytes % 4 == 0
    ensures OutOffset(attrs, |attrs|) + 4 == Stride(attrs)
  {
    AlignedSum(attrs);
  }

  lemma {:induction false} AlignedSum(attrs: seq<PointAttribute>)
    requires AllConvert(attrs)
    requires forall k | 0 <= k < |attrs| :: attrs[k].interleaved.value.bytes % 4 == 0
    ensures OutOffset(attrs, |attrs|) == SumBytes(Converted(attrs))
  {
    if attrs != [] {
      var init := attrs[..|attrs| - 1];
      assert forall k | 0 <= k < |init| :: init[k] == attrs[k];
      AlignedSum(init);
      OutOffsetPrefix(attrs, init, |init|);
    }
  }

  /** OutOffset only looks at the attributes before k. */
  lemma {:induction false} OutOffsetPrefix(attrs: seq<PointAttribute>, init: seq<PointAttribute>, k: nat)
    requires k <= |init| <= |attrs| && init == attrs[..|init|]
    requires forall i | 0 <= i < k :: attrs[i].interleaved.Some?
    ensures OutOffset(attrs, k) == OutOffset(init, k)
  {
    if k > 0 {
      OutOffsetPrefix(attrs, init, k - 1);
    }
  }

  /** Rounding each attribute separately never undershoots rounding their total. */
  lemma {:induction false} OutOffsetCoversBytes(attrs: seq<PointAttribute>)
    requires AllConvert(attrs)
    ensures SumBytes(Converted(attrs)) <= OutOffset(attrs, |attrs|)
  {
    if attrs != [] {
      var init := attrs[..|attrs| - 1];
      assert forall k | 0 <= k < |init| :: init[k] == attrs[k];
      OutOffsetCoversBytes(init);
      OutOffsetPrefix(attrs, init, |init|);
    }
  }
}
