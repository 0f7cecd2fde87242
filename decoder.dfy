/**
 * The binary point decoder worker: it turns a node's raw point records into the interleaved
 * buffer the renderer and the profile query read.
 */
module BinaryDecoder {
  import opened Wrappers
  import opened Bytes
  import opened PointAttributes
  import Float32

  // ---------------------------------------------------------------------------------------
  // CustomView: little-endian readers over a Uint8Array
  // ---------------------------------------------------------------------------------------

  function GetUint8(u8: seq<byte>, i: int): byte
  {
    At(u8, i)
  }

  /** `(u8[i + 1] << 8) | u8[i]`; the two operands occupy disjoint bits, so `|` adds them. */
  function GetUint16(u8: seq<byte>, i: int): (r: int)
    ensures r == At(u8, i) + 0x100 * At(u8, i + 1)
    ensures 0 <= r < 0x1_0000
  {
    var high := At(u8, i + 1) * 0x100;
    DivModUnique(high, TWO32, 0, high);
    ToInt32(high) + At(u8, i)
  }

  /** `(u8[i+3] << 24) | (u8[i+2] << 16) | (u8[i+1] << 8) | u8[i]` in JavaScript's signed
      32-bit arithmetic: the top byte's shift can make the result negative. */
  function GetUint32(u8: seq<byte>, i: int): (r: int)
    ensures var v := Word(At(u8, i), At(u8, i + 1), At(u8, i + 2), At(u8, i + 3));
      && r == ToInt32(v)
      && (r == v <==> At(u8, i + 3) < 0x80)
      && (At(u8, i + 3) >= 0x80 ==> r == v - TWO32)
  {
    var top := At(u8, i + 3) * 0x100_0000;
    var low := At(u8, i + 2) * 0x1_0000 + At(u8, i + 1) * 0x100 + At(u8, i);
    var v := top + low;
    DivModUnique(top, TWO32, 0, top);
    DivModUnique(v, TWO32, 0, v);
    ToInt32(top) + low
  }

  // ---------------------------------------------------------------------------------------
  // Layout of the interleaved output
  // ---------------------------------------------------------------------------------------

  /** The number of records in the buffer. */
  function PointCount(byteLength: nat, byteSize: nat): (n: nat)
    requires byteSize > 0 && byteLength % byteSize == 0
    ensures n * byteSize == byteLength
  {
    byteLength / byteSize
  }

  /** How many bytes the decoder writes into an attribute's interleaved slot. */
  function WriteWidth(name: AttributeName): nat
  {
    match name
    case PositionCartesian => 12
    case NormalSphereMapped => 12
    case NormalOct16 => 12
    case Normal => 12
    case ColorPacked => 3
    case Intensity => 4
    case Classification => 4
    case OtherAttribute(_) => 0
  }

  /** Twelve bytes: three binary32 values. */
  type Bytes12 = s: seq<byte> | |s| == 12 witness [0, 0, 0, 0, 0, 0, 0, 0, 0, 0, 0, 0]

  /** What the decoder stores for attribute k of point j. Position and normals are computed in
      floating point (scale and offset, sphere-map and oct16 decoding); their bytes are the
      oracle `floats(k, j)`. */
  function SlotValue(buffer: seq<byte>, attrs: seq<PointAttribute>, byteSize: nat,
                     floats: (nat, nat) -> Bytes12, k: nat, j: nat): (r: seq<byte>)
    requires k < |attrs|
    ensures |r| == WriteWidth(attrs[k].name)
  {
    var p := InOffset(attrs, k) + j * byteSize;
    match attrs[k].name
    case ColorPacked => [GetUint8(buffer, p), GetUint8(buffer, p + 1), GetUint8(buffer, p + 2)]
    case Intensity => Float32.EncodeSmall(GetUint16(buffer, p))
    case Classification => Float32.EncodeSmall(GetUint8(buffer, p))
    case OtherAttribute(_) => []
    case _ => floats(k, j)
  }

  /** Every written slot lies inside the record: the attribute slots, then the index at the
      final output offset. */
  predicate SlotsFit(attrs: seq<PointAttribute>, stride: nat)
    requires AllConvert(attrs)
  {
    && (forall k | 0 <= k < |attrs| :: SlotFits(attrs, stride, k))
    && OutOffset(attrs, |attrs|) + 4 <= stride
  }

  predicate SlotFits(attrs: seq<PointAttribute>, stride: nat, k: nat)
    requires k < |attrs| && forall i | 0 <= i < k :: attrs[i].interleaved.Some?
  {
    OutOffset(attrs, k) + WriteWidth(attrs[k].name) <= stride
  }

  /** Each converted slot is wide enough for what the decoder writes into it. */
  predicate WidthsCovered(attrs: seq<PointAttribute>)
  {
    forall k | 0 <= k < |attrs| ::
      attrs[k].interleaved.Some? ==> WriteWidth(attrs[k].name) <= attrs[k].interleaved.value.bytes
  }

  datatype DecodeError =
    | NullInterleavedAttribute   // `iAttribute.bytes` on a null conversion: TypeError
    | RecordOutOfRange           // a DataView store past the end of the buffer: RangeError

  /** The first exception the handler raises from attribute k on, in the order it visits the
      attributes: a null conversion, or a slot that does not fit (the last record's store then
      falls outside the buffer); after the attributes, the index slot. */
  function Fault(attrs: seq<PointAttribute>, stride: nat, n: nat, k: nat): (e: Option<DecodeError>)
    requires k <= |attrs| && forall i | 0 <= i < k :: attrs[i].interleaved.Some?
    decreases |attrs| - k
  {
    if k == |attrs| then
      if n > 0 && OutOffset(attrs, k) + 4 > stride then Some(RecordOutOfRange) else None
    else if attrs[k].interleaved.None? then Some(NullInterleavedAttribute)
    else if n > 0 && !SlotFits(attrs, stride, k) then Some(RecordOutOfRange)
    else Fault(attrs, stride, n, k + 1)
  }

  /** The handler completes exactly when every attribute converts and, unless there are no
      records, every slot fits the stride. */
  lemma {:induction false} NoFault(attrs: seq<PointAttribute>, stride: nat, n: nat, k: nat)
    requires k <= |attrs| && forall i | 0 <= i < k :: attrs[i].interleaved.Some?
    requires forall i | 0 <= i < k :: n > 0 ==> SlotFits(attrs, stride, i)
    ensures Fault(attrs, stride, n, k) == None <==>
      AllConvert(attrs) && (n == 0 || SlotsFit(attrs, stride))
    decreases |attrs| - k
  {
    if k < |attrs| && attrs[k].interleaved.Some? && (n == 0 || SlotFits(attrs, stride, k)) {
      NoFault(attrs, stride, n, k + 1);
    }
  }

  /** Record j of `data` holds `value` in the slot starting at `offset`. */
  predicate SlotIs(data: seq<byte>, n: nat, stride: nat, offset: nat, j: nat, value: seq<byte>)
  {
    && j < n && offset + |value| <= stride && |data| == n * stride
    && forall t | 0 <= t < |value| :: data[Pos(j, n, stride, offset, t)] == value[t]
  }

  /** Offset `o` within a record lies in the `width` bytes from `offset`. */
  predicate InSlot(offset: nat, width: nat, o: nat)
  {
    offset <= o < offset + width
  }

  /** Offset `o` within a record lies in what the decoder writes of one of the first k slots. */
  predicate InWrittenSlot(attrs: seq<PointAttribute>, k: nat, o: nat)
    requires k <= |attrs| && forall i | 0 <= i < k :: attrs[i].interleaved.Some?
  {
    k > 0 && (InWrittenSlot(attrs, k - 1, o) || InSlot(OutOffset(attrs, k - 1), WriteWidth(attrs[k - 1].name), o))
  }

  /** Offset `o` within a record is written by no attribute and is not the index: rounding
      padding, a slot the decoder leaves alone, or the tail before the stride. */
  predicate Untouched(attrs: seq<PointAttribute>, o: nat)
    requires AllConvert(attrs)
  {
    !InWrittenSlot(attrs, |attrs|, o) && !InSlot(OutOffset(attrs, |attrs|), 4, o)
  }

  datatype Decoded = Decoded(data: seq<byte>, estimatedSpacing: real)

  /** Writes `value(j)` into slot `offset` of every record `j`, leaving all other columns alone. */
  method WriteColumn(out: array<byte>, n: nat, stride: nat, offset: nat, width: nat,
                     value: nat -> seq<byte>)
    requires out.Length == n * stride && offset + width <= stride
    requires forall j: nat | j < n :: |value(j)| == width
    modifies out
    ensures forall j: nat, t: nat | j < n && t < width ::
      out[Pos(j, n, stride, offset, t)] == value(j)[t]
    ensures forall p | 0 <= p < out.Length && !InSlot(offset, width, p % stride) ::
      out[p] == old(out[p])
  {
    for j := 0 to n
      invariant forall j': nat, t: nat | j' < j && t < width ::
        out[Pos(j', n, stride, offset, t)] == value(j')[t]
      invariant forall p | 0 <= p < out.Length && !InSlot(offset, width, p % stride) ::
        out[p] == old(out[p])
    {
      for t := 0 to width
        invariant forall j': nat, t': nat | j' < j && t' < width ::
          out[Pos(j', n, stride, offset, t')] == value(j')[t']
        invariant forall t': nat | t' < t :: out[Pos(j, n, stride, offset, t')] == value(j)[t']
        invariant forall p | 0 <= p < out.Length && !InSlot(offset, width, p % stride) ::
          out[p] == old(out[p])
      {
        out[Pos(j, n, stride, offset, t)] := value(j)[t];
      }
    }
  }

  /** The slots of the first k attributes hold their values in every record. */
  predicate ColumnsWritten(data: seq<byte>, buffer: seq<byte>, attrs: seq<PointAttribute>, byteSize: nat,
                           floats: (nat, nat) -> Bytes12, n: nat, stride: nat, k: nat)
    requires k <= |attrs| && forall i | 0 <= i < k :: attrs[i].interleaved.Some?
  {
    forall i, j: nat | 0 <= i < k && j < n ::
      SlotIs(data, n, stride, OutOffset(attrs, i), j, SlotValue(buffer, attrs, byteSize, floats, i, j))
  }

  /** One pass of the attribute loop: attribute k's slot of every record. */
  method WriteAttribute(out: array<byte>, buffer: seq<byte>, attrs: seq<PointAttribute>, byteSize: nat,
                        floats: (nat, nat) -> Bytes12, n: nat, stride: nat, k: nat)
    requires k < |attrs| && forall i | 0 <= i <= k :: attrs[i].interleaved.Some?
    requires WidthsCovered(attrs) && out.Length == n * stride
    requires n > 0 ==> SlotFits(attrs, stride, k)
    requires ColumnsWritten(out[..], buffer, attrs, byteSize, floats, n, stride, k)
    modifies out
    ensures ColumnsWritten(out[..], buffer, attrs, byteSize, floats, n, stride, k + 1)
    ensures forall p | 0 <= p < out.Length && !InSlot(OutOffset(attrs, k), WriteWidth(attrs[k].name), p % stride) ::
      out[p] == old(out[p])
  {
    var offset, width := OutOffset(attrs, k), WriteWidth(attrs[k].name);
    if n == 0 {
      return;
    }
    EarlierColumns(attrs, k);
    ghost var before := out[..];
    WriteColumn(out, n, stride, offset, width, (j: nat) => SlotValue(buffer, attrs, byteSize, floats, k, j));
    ColumnsKept(before, out[..], buffer, attrs, byteSize, floats, n, stride, k, offset, width);
    ColumnsExtend(out[..], buffer, attrs, byteSize, floats, n, stride, k);
  }

  /** The first k columns and column k written give the first k + 1 columns. */
  lemma ColumnsExtend(data: seq<byte>, buffer: seq<byte>, attrs: seq<PointAttribute>, byteSize: nat,
                      floats: (nat, nat) -> Bytes12, n: nat, stride: nat, k: nat)
    requires k < |attrs| && forall i | 0 <= i <= k :: attrs[i].interleaved.Some?
    requires |data| == n * stride && (n > 0 ==> SlotFits(attrs, stride, k))
    requires ColumnsWritten(data, buffer, attrs, byteSize, floats, n, stride, k)
    requires forall j: nat, t: nat | j < n && t < WriteWidth(attrs[k].name) ::
      data[Pos(j, n, stride, OutOffset(attrs, k), t)] == SlotValue(buffer, attrs, byteSize, floats, k, j)[t]
    ensures ColumnsWritten(data, buffer, attrs, byteSize, floats, n, stride, k + 1)
  {
    forall j: nat | j < n
      ensures SlotIs(data, n, stride, OutOffset(attrs, k), j, SlotValue(buffer, attrs, byteSize, floats, k, j))
    {
    }
  }

  /** Rewriting only the bytes of slot `[offset, offset + width)` keeps the first k columns,
      which end at or before `offset`. */
  lemma ColumnsKept(before: seq<byte>, after: seq<byte>, buffer: seq<byte>, attrs: seq<PointAttribute>,
                    byteSize: nat, floats: (nat, nat) -> Bytes12, n: nat, stride: nat, k: nat,
                    offset: nat, width: nat)
    requires k < |attrs| && forall i | 0 <= i <= k :: attrs[i].interleaved.Some?
    requires WidthsCovered(attrs) && |before| == |after| == n * stride
    requires forall i | 0 <= i < k :: OutOffset(attrs, i) + WriteWidth(attrs[i].name) <= offset
    requires ColumnsWritten(before, buffer, attrs, byteSize, floats, n, stride, k)
    requires forall p | 0 <= p < |after| && !InSlot(offset, width, p % stride) :: after[p] == before[p]
    ensures ColumnsWritten(after, buffer, attrs, byteSize, floats, n, stride, k)
  {
    forall i, j: nat | 0 <= i < k && j < n
      ensures SlotIs(after, n, stride, OutOffset(attrs, i), j, SlotValue(buffer, attrs, byteSize, floats, i, j))
    {
      var v := SlotValue(buffer, attrs, byteSize, floats, i, j);
      assert SlotIs(before, n, stride, OutOffset(attrs, i), j, v);
      forall t | 0 <= t < |v| ensures after[Pos(j, n, stride, OutOffset(attrs, i), t)] == v[t] {
        var p := Pos(j, n, stride, OutOffset(attrs, i), t);
        assert before[p] == v[t];
      }
    }
  }

  /**
   * The worker's message handler: for each point attribute in turn, write its slot of every
   * record, advancing the input offset by the attribute's source size and the output offset by
   * its interleaved size rounded up to 4; then write each record's index. Nothing is posted
   * when the handler throws, so a throw is a Failure here.
   */
  method Decode(buffer: seq<byte>, attrs: seq<PointAttribute>, byteSize: nat, spacing: real,
                hasChildren: bool, floats: (nat, nat) -> Bytes12)
    returns (r: Result<Decoded, DecodeError>)
    requires byteSize > 0 && |buffer| % byteSize == 0
    requires WidthsCovered(attrs)
    ensures var f := Fault(attrs, Stride(attrs), PointCount(|buffer|, byteSize), 0);
      (r.Failure? <==> f.Some?) && (r.Failure? ==> r.error == f.value)
    ensures r.Success? ==> AllConvert(attrs)
    ensures r.Success? ==> r.value.estimatedSpacing == spacing
    ensures r.Success? ==> |r.value.data| == PointCount(|buffer|, byteSize) * Stride(attrs)
    ensures r.Success? ==> ColumnsWritten(r.value.data, buffer, attrs, byteSize, floats,
                                          PointCount(|buffer|, byteSize), Stride(attrs), |attrs|)
    ensures r.Success? ==> forall j: nat | j < PointCount(|buffer|, byteSize) ::
      SlotIs(r.value.data, PointCount(|buffer|, byteSize), Stride(attrs), OutOffset(attrs, |attrs|), j,
             LittleEndian32(j))
    ensures r.Success? ==> forall p | 0 <= p < |r.value.data| && Untouched(attrs, p % Stride(attrs)) ::
      r.value.data[p] == 0
  {
    var n := PointCount(|buffer|, byteSize);
    var stride := Stride(attrs);
    var out := new byte[n * stride](_ => 0);
    var inOffset, outOffset := 0, 0;
    for k := 0 to |attrs|
      invariant forall i | 0 <= i < k :: attrs[i].interleaved.Some?
      invariant inOffset == InOffset(attrs, k) && outOffset == OutOffset(attrs, k)
      invariant Fault(attrs, stride, n, k) == Fault(attrs, stride, n, 0)
      invariant forall i | 0 <= i < k :: n > 0 ==> SlotFits(attrs, stride, i)
      invariant ColumnsWritten(out[..], buffer, attrs, byteSize, floats, n, stride, k)
      invariant forall p | 0 <= p < out.Length && !InWrittenSlot(attrs, k, p % stride) :: out[p] == 0
    {
      if attrs[k].interleaved.None? {
        return Failure(NullInterleavedAttribute);
      }
      if n > 0 && outOffset + WriteWidth(attrs[k].name) > stride {
        return Failure(RecordOutOfRange);
      }
      WriteAttribute(out, buffer, attrs, byteSize, floats, n, stride, k);
      inOffset := inOffset + attrs[k].byteSize;
      outOffset := outOffset + Ceil4(attrs[k].interleaved.value.bytes);
    }
    // The `hasChildren || true` guard always selects the given spacing.
    var estimatedSpacing := spacing;
    if n > 0 && outOffset + 4 > stride {
      return Failure(RecordOutOfRange);
    }
    NoFault(attrs, stride, n, 0);
    WriteIndex(out, buffer, attrs, byteSize, floats, n, stride);
    return Success(Decoded(out[..], estimatedSpacing));
  }

  /** The closing loop: every record's index, after the attribute slots. */
  method WriteIndex(out: array<byte>, buffer: seq<byte>, attrs: seq<PointAttribute>, byteSize: nat,
                    floats: (nat, nat) -> Bytes12, n: nat, stride: nat)
    requires AllConvert(attrs) && WidthsCovered(attrs) && out.Length == n * stride
    requires n > 0 ==> OutOffset(attrs, |attrs|) + 4 <= stride
    requires ColumnsWritten(out[..], buffer, attrs, byteSize, floats, n, stride, |attrs|)
    modifies out
    ensures ColumnsWritten(out[..], buffer, attrs, byteSize, floats, n, stride, |attrs|)
    ensures forall j: nat | j < n :: SlotIs(out[..], n, stride, OutOffset(attrs, |attrs|), j, LittleEndian32(j))
    ensures forall p | 0 <= p < out.Length && !InSlot(OutOffset(attrs, |attrs|), 4, p % stride) ::
      out[p] == old(out[p])
  {
    if n == 0 {
      return;
    }
    var offset := OutOffset(attrs, |attrs|);
    EarlierColumns(attrs, |attrs|);
    WriteColumn(out, n, stride, offset, 4, (j: nat) => LittleEndian32(j));
    forall i, j: nat | 0 <= i < |attrs| && j < n
      ensures SlotIs(out[..], n, stride, OutOffset(attrs, i), j, SlotValue(buffer, attrs, byteSize, floats, i, j))
    {
      var v := SlotValue(buffer, attrs, byteSize, floats, i, j);
      assert SlotIs(old(out[..]), n, stride, OutOffset(attrs, i), j, v);
      forall t | 0 <= t < |v| ensures out[..][Pos(j, n, stride, OutOffset(attrs, i), t)] == v[t] {
        var p := Pos(j, n, stride, OutOffset(attrs, i), t);
        assert old(out[..])[p] == v[t];
      }
    }
  }

  /** The slots of the attributes before k end at or before OutOffset(attrs, k). */
  lemma EarlierColumns(attrs: seq<PointAttribute>, k: nat)
    requires k <= |attrs| && forall i | 0 <= i < k :: attrs[i].interleaved.Some?
    requires WidthsCovered(attrs)
    ensures forall i | 0 <= i < k :: OutOffset(attrs, i) + WriteWidth(attrs[i].name) <= OutOffset(attrs, k)
  {
    forall i | 0 <= i < k
      ensures OutOffset(attrs, i) + WriteWidth(attrs[i].name) <= OutOffset(attrs, k)
    {
      assert OutOffset(attrs, i + 1) == OutOffset(attrs, i) + Ceil4(attrs[i].interleaved.value.bytes);
      assert WriteWidth(attrs[i].name) <= attrs[i].interleaved.value.bytes;
      EarlierOffset(attrs, i + 1, k);
    }
  }

  lemma {:induction false} EarlierOffset(attrs: seq<PointAttribute>, a: nat, b: nat)
    requires a <= b <= |attrs| && forall i | 0 <= i < b :: attrs[i].interleaved.Some?
    ensures OutOffset(attrs, a) <= OutOffset(attrs, b)
    decreases b - a
  {
    if a < b {
      EarlierOffset(attrs, a, b - 1);
    }
  }

  /** The source record of point j starts `InOffset(attrs, k)` bytes before attribute k's field. */
  function FieldStart(attrs: seq<PointAttribute>, byteSize: nat, k: nat, j: nat): nat
    requires k < |attrs|
  {
    InOffset(attrs, k) + j * byteSize
  }

  /** An intensity slot holds a binary32 whose value is the field's 16-bit little-endian
      integer, exactly. */
  lemma IntensitySlot(buffer: seq<byte>, attrs: seq<PointAttribute>, byteSize: nat,
                      floats: (nat, nat) -> Bytes12, k: nat, j: nat)
    requires k < |attrs| && attrs[k].name == Intensity
    ensures var v := SlotValue(buffer, attrs, byteSize, floats, k, j);
      var p := FieldStart(attrs, byteSize, k, j);
      Float32.ValueOf(Word(v[0], v[1], v[2], v[3])) == Some((At(buffer, p) + 0x100 * At(buffer, p + 1)) as real)
  {
    var p := FieldStart(attrs, byteSize, k, j);
    Float32.SmallRoundTrip(GetUint16(buffer, p));
  }

  /** A classification slot holds a binary32 whose value is the field's byte, exactly. */
  lemma ClassificationSlot(buffer: seq<byte>, attrs: seq<PointAttribute>, byteSize: nat,
                           floats: (nat, nat) -> Bytes12, k: nat, j: nat)
    requires k < |attrs| && attrs[k].name == Classification
    ensures var v := SlotValue(buffer, attrs, byteSize, floats, k, j);
      Float32.ValueOf(Word(v[0], v[1], v[2], v[3])) == Some(At(buffer, FieldStart(attrs, byteSize, k, j)) as real)
  {
    Float32.SmallRoundTrip(GetUint8(buffer, FieldStart(attrs, byteSize, k, j)));
  }

  /** A colour slot copies the field's first three bytes (red, green, blue); bytes that lie
      past the end of the buffer read as 0. */
  lemma ColorSlot(buffer: seq<byte>, attrs: seq<PointAttribute>, byteSize: nat,
                  floats: (nat, nat) -> Bytes12, k: nat, j: nat)
    requires k < |attrs| && attrs[k].name == ColorPacked
    ensures var p := FieldStart(attrs, byteSize, k, j);
      p + 3 <= |buffer| ==> SlotValue(buffer, attrs, byteSize, floats, k, j) == buffer[p..p + 3]
  {}
}
