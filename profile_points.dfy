/**
 * The per-node part of `getPointsInsideProfile`: which points of a node lie inside one profile
 * segment's corridor, their mileage, and the byte-exact copy of their attributes.
 *
 * Positions come out of the node's float buffer and the point cloud's world matrix, and the
 * segment planes are floating-point geometry: these are the oracles of a QueryGeometry.
 */
module ProfilePoints {
  import opened Bytes
  import opened PointAttributes
  import opened Octree

  datatype Segment = Segment(length: real)

  datatype Profile = Profile(width: real, segments: seq<Segment>)

  datatype QueryGeometry = QueryGeometry(
    worldPosition: (NodeId, nat) -> Vec3,     // point i of a node, in world coordinates
    cutPlaneDistance: (nat, Vec3) -> real,    // signed distance to segment s's cut plane
    halfPlaneDistance: (nat, Vec3) -> real,   // signed distance to segment s's half plane
    localMileage: (nat, Vec3) -> real)        // segment direction dotted with (point - start)

  function Abs(x: real): real
  {
    if x < 0.0 then -x else x
  }

  /** Point i of node `id` is inside segment s's corridor. */
  predicate Accepts(g: QueryGeometry, profile: Profile, s: nat, id: NodeId, i: nat)
    requires s < |profile.segments|
  {
    var pos := g.worldPosition(id, i);
    Abs(g.cutPlaneDistance(s, pos)) < profile.width / 2.0
    && Abs(g.halfPlaneDistance(s, pos)) < profile.segments[s].length / 2.0
  }

  /** The accepted indices below k, in the order the loop visits them. */
  function AcceptedUpTo(g: QueryGeometry, profile: Profile, s: nat, id: NodeId, k: nat): seq<nat>
    requires s < |profile.segments|
  {
    if k == 0 then []
    else AcceptedUpTo(g, profile, s, id, k - 1) + (if Accepts(g, profile, s, id, k - 1) then [k - 1] else [])
  }

  /** The accepted indices are strictly increasing, and i is accepted iff it is below k and
      inside the corridor. */
  lemma {:induction false} AcceptedUpToMeaning(g: QueryGeometry, profile: Profile, s: nat, id: NodeId, k: nat)
    requires s < |profile.segments|
    ensures var acc := AcceptedUpTo(g, profile, s, id, k);
      && (forall a, b | 0 <= a < b < |acc| :: acc[a] < acc[b])
      && (forall i: nat :: i in acc <==> i < k && Accepts(g, profile, s, id, i))
      && |acc| <= k
  {
    if k > 0 {
      AcceptedUpToMeaning(g, profile, s, id, k - 1);
      var prev := AcceptedUpTo(g, profile, s, id, k - 1);
      assert forall a | 0 <= a < |prev| :: prev[a] < k - 1 by {
        forall a | 0 <= a < |prev| ensures prev[a] < k - 1 {
          assert prev[a] in prev;
        }
      }
    }
  }

  function Max0(n: int): nat
  {
    if n < 0 then 0 else n
  }

  /** The point positions of the accepted indices, three coordinates each. */
  function Positions(g: QueryGeometry, id: NodeId, acc: seq<nat>): (r: seq<real>)
    ensures |r| == 3 * |acc|
  {
    if acc == [] then []
    else
      var p := g.worldPosition(id, acc[|acc| - 1]);
      Positions(g, id, acc[..|acc| - 1]) + [p.x, p.y, p.z]
  }

  /** Each accepted point's mileage: its projection on the segment plus the length of every
      earlier segment. */
  function Mileages(g: QueryGeometry, s: nat, id: NodeId, acc: seq<nat>, before: real): (r: seq<real>)
    ensures |r| == |acc|
    ensures forall i | 0 <= i < |acc| :: r[i] == g.localMileage(s, g.worldPosition(id, acc[i])) + before
  {
    seq(|acc|, i requires 0 <= i < |acc| => g.localMileage(s, g.worldPosition(id, acc[i])) + before)
  }

  /** `source.subarray(start, start + len)` copied into zeroed storage: bytes past the end of the
      source stay 0. */
  function Slice(data: seq<byte>, start: nat, len: nat): (r: seq<byte>)
    ensures |r| == len
  {
    if len == 0 then [] else Slice(data, start, len - 1) + [At(data, start + len - 1)]
  }

  /** Byte t of a slice is source byte start + t, or 0 past the end of the source. */
  lemma {:induction false} SliceAt(data: seq<byte>, start: nat, len: nat, t: nat)
    requires t < len
    ensures Slice(data, start, len)[t] == At(data, start + t)
  {
    if t < len - 1 {
      SliceAt(data, start, len - 1, t);
    }
  }

  /** Where point `index`'s attribute at `offset` starts in a buffer of `stride`-byte records. */
  function RecordStart(stride: nat, offset: nat, index: nat): nat
  {
    stride * index + offset
  }

  /** One attribute's bytes for the accepted points, back to back. */
  function Gathered(data: seq<byte>, stride: nat, offset: nat, bytes: nat, acc: seq<nat>): (r: seq<byte>)
  {
    if acc == [] then []
    else Gathered(data, stride, offset, bytes, acc[..|acc| - 1]) + Slice(data, RecordStart(stride, offset, acc[|acc| - 1]), bytes)
  }

  lemma {:induction false} GatheredLength(data: seq<byte>, stride: nat, offset: nat, bytes: nat, acc: seq<nat>)
    ensures |Gathered(data, stride, offset, bytes, acc)| == |acc| * bytes
  {
    if acc != [] {
      var init := acc[..|acc| - 1];
      GatheredLength(data, stride, offset, bytes, init);
      assert |Slice(data, RecordStart(stride, offset, acc[|acc| - 1]), bytes)| == bytes;
      assert |acc| * bytes == |init| * bytes + bytes;
    }
  }

  /** Gathering a prefix of the accepted points gives a prefix of the bytes. */
  lemma {:induction false} GatheredPrefix(data: seq<byte>, stride: nat, offset: nat, bytes: nat, acc: seq<nat>, i: nat)
    requires i <= |acc|
    ensures var pre := Gathered(data, stride, offset, bytes, acc[..i]);
      |pre| <= |Gathered(data, stride, offset, bytes, acc)|
      && Gathered(data, stride, offset, bytes, acc)[..|pre|] == pre
    decreases |acc|
  {
    var all := Gathered(data, stride, offset, bytes, acc);
    if i < |acc| {
      var init := acc[..|acc| - 1];
      assert init[..i] == acc[..i];
      GatheredPrefix(data, stride, offset, bytes, init, i);
      var gi := Gathered(data, stride, offset, bytes, init);
      assert all == gi + Slice(data, RecordStart(stride, offset, acc[|acc| - 1]), bytes);
      var pre := Gathered(data, stride, offset, bytes, acc[..i]);
      assert all[..|pre|] == gi[..|pre|];
    } else {
      assert acc[..i] == acc;
    }
  }

  /** Bytes `[i * bytes, (i + 1) * bytes)` of `all` are the `bytes` source bytes of `data` from
      `RecordStart(stride, offset, acc[i])`. */
  predicate RecordAt(all: seq<byte>, data: seq<byte>, stride: nat, offset: nat, bytes: nat, acc: seq<nat>, i: nat)
    requires i < |acc|
  {
    (i + 1) * bytes <= |all|
    && all[i * bytes..(i + 1) * bytes] == Slice(data, RecordStart(stride, offset, acc[i]), bytes)
  }

  /** Target record i is copied from `RecordStart(stride, offset, acc[i])`. */
  lemma GatheredRecord(data: seq<byte>, stride: nat, offset: nat, bytes: nat, acc: seq<nat>, i: nat)
    requires i < |acc|
    ensures RecordAt(Gathered(data, stride, offset, bytes, acc), data, stride, offset, bytes, acc, i)
  {
    var all := Gathered(data, stride, offset, bytes, acc);
    var upTo := acc[..i + 1];
    assert upTo[..i] == acc[..i];
    var pre := Gathered(data, stride, offset, bytes, acc[..i]);
    assert Gathered(data, stride, offset, bytes, upTo) == pre + Slice(data, RecordStart(stride, offset, acc[i]), bytes);
    GatheredPrefix(data, stride, offset, bytes, acc, i + 1);
    GatheredLength(data, stride, offset, bytes, acc[..i]);
    GatheredLength(data, stride, offset, bytes, upTo);
    assert (i + 1) * bytes == i * bytes + bytes;
  }

  /** `all` is `bytes` bytes per accepted point, record i copied from `RecordStart(stride,
      offset, acc[i])` of `data`. */
  predicate RecordsAre(all: seq<byte>, data: seq<byte>, stride: nat, offset: nat, bytes: nat, acc: seq<nat>)
  {
    && |all| == |acc| * bytes
    && forall i | 0 <= i < |acc| :: RecordAt(all, data, stride, offset, bytes, acc, i)
  }

  lemma GatheredRecords(data: seq<byte>, stride: nat, offset: nat, bytes: nat, acc: seq<nat>)
    ensures RecordsAre(Gathered(data, stride, offset, bytes, acc), data, stride, offset, bytes, acc)
  {
    var all := Gathered(data, stride, offset, bytes, acc);
    GatheredLength(data, stride, offset, bytes, acc);
    forall i | 0 <= i < |acc| ensures RecordAt(all, data, stride, offset, bytes, acc, i) {
      GatheredRecord(data, stride, offset, bytes, acc, i);
    }
  }

  function ElemSize(t: ElementType): nat
  {
    match t
    case FloatType => 4
    case UnsignedByte => 1
    case UnsignedShort => 2
    case UnsignedInt => 4
  }

  /** An entry of a Points object's `data`. */
  datatype PointData = Reals(values: seq<real>) | Raw(elementType: ElementType, bytes: seq<byte>)

  /** Every attribute but position and the index is copied. */
  predicate Relevant(ia: InterleavedAttribute)
  {
    ia.name != "position" && ia.name != "index"
  }

  /** Each copied attribute's storage holds exactly its bytes per accepted point: the typed
      array `numElements * accepted.length` long has `bytes * accepted.length` bytes. */
  predicate AttributesSized(buffer: InterleavedBuffer)
  {
    forall k | 0 <= k < |buffer.attributes| :: Relevant(buffer.attributes[k]) ==>
      buffer.attributes[k].bytes == buffer.attributes[k].numElements * ElemSize(buffer.attributes[k].elementType)
  }

  /** `data` after the attribute loop has visited the first k attributes. */
  function AttributeData(buffer: InterleavedBuffer, acc: seq<nat>, k: nat, start: map<string, PointData>):
    map<string, PointData>
    requires k <= |buffer.attributes|
  {
    if k == 0 then start
    else
      var data := AttributeData(buffer, acc, k - 1, start);
      var ia := buffer.attributes[k - 1];
      if Relevant(ia) then
        data[ia.name := Raw(ia.elementType, Gathered(buffer.data, buffer.Stride(), FirstOffset(buffer, k - 1), ia.bytes, acc))]
      else data
  }

  /** `buffer.offset(name)` of attribute k's name. */
  function FirstOffset(buffer: InterleavedBuffer, k: nat): nat
    requires k < |buffer.attributes|
  {
    var r := buffer.Offset(buffer.attributes[k].name);
    assert r.Some? by {
      assert exists i | 0 <= i < |buffer.attributes| :: buffer.attributes[i].name == buffer.attributes[k].name;
    }
    r.value
  }

  datatype Points = Points(numPoints: nat, data: map<string, PointData>)

  /** What one node contributes to one segment. */
  function Batch(g: QueryGeometry, profile: Profile, s: nat, id: NodeId, numPoints: int,
                 buffer: InterleavedBuffer, before: real): Points
    requires s < |profile.segments|
  {
    var acc := AcceptedUpTo(g, profile, s, id, Max0(numPoints));
    var start := map["position" := Reals(Positions(g, id, acc)),
                     "color" := Raw(UnsignedByte, seq(4 * |acc|, _ => 100))];
    var data := AttributeData(buffer, acc, |buffer.attributes|, start);
    Points(|acc|, data["mileage" := Reals(Mileages(g, s, id, acc, before))])
  }

  // ---------------------------------------------------------------------------------------
  // Properties of a batch
  // ---------------------------------------------------------------------------------------

  /** A batch holds exactly the accepted points: strictly increasing indices, each below the
      node's point count and inside the corridor, and every such index. */
  lemma BatchPoints(g: QueryGeometry, profile: Profile, s: nat, id: NodeId, numPoints: int,
                    buffer: InterleavedBuffer, before: real)
    requires s < |profile.segments|
    ensures var acc := AcceptedUpTo(g, profile, s, id, Max0(numPoints));
      && Batch(g, profile, s, id, numPoints, buffer, before).numPoints == |acc|
      && (forall a, b | 0 <= a < b < |acc| :: acc[a] < acc[b])
      && (forall i: nat :: i in acc <==> i < numPoints && Accepts(g, profile, s, id, i))
      && Batch(g, profile, s, id, numPoints, buffer, before).data["mileage"] == Reals(Mileages(g, s, id, acc, before))
  {
    AcceptedUpToMeaning(g, profile, s, id, Max0(numPoints));
  }

  /** The attribute loop leaves alone every key no copied attribute is named after. */
  lemma {:induction false} AttributeDataOther(buffer: InterleavedBuffer, acc: seq<nat>, k: nat,
                                              start: map<string, PointData>, key: string)
    requires k <= |buffer.attributes|
    requires forall i | 0 <= i < k :: Relevant(buffer.attributes[i]) ==> buffer.attributes[i].name != key
    ensures key in start ==>
      key in AttributeData(buffer, acc, k, start) && AttributeData(buffer, acc, k, start)[key] == start[key]
  {
    if k > 0 {
      AttributeDataOther(buffer, acc, k - 1, start, key);
    }
  }

  /** An attribute whose name no later copied attribute reuses keeps what the loop copied. */
  lemma {:induction false} AttributeDataLast(buffer: InterleavedBuffer, acc: seq<nat>, k: nat,
                                             start: map<string, PointData>, j: nat)
    requires j < k <= |buffer.attributes| && Relevant(buffer.attributes[j])
    requires forall i | j < i < k :: Relevant(buffer.attributes[i]) ==> buffer.attributes[i].name != buffer.attributes[j].name
    ensures var ia := buffer.attributes[j];
      ia.name in AttributeData(buffer, acc, k, start)
      && AttributeData(buffer, acc, k, start)[ia.name]
         == Raw(ia.elementType, Gathered(buffer.data, buffer.Stride(), FirstOffset(buffer, j), ia.bytes, acc))
  {
    if k > j + 1 {
      AttributeDataLast(buffer, acc, k - 1, start, j);
    }
  }

  /** The colour entry is four bytes of 100 per accepted point, unless a copied attribute is
      itself called "color" and replaces it. */
  lemma BatchColor(g: QueryGeometry, profile: Profile, s: nat, id: NodeId, numPoints: int,
                   buffer: InterleavedBuffer, before: real)
    requires s < |profile.segments|
    requires forall i | 0 <= i < |buffer.attributes| :: Relevant(buffer.attributes[i]) ==> buffer.attributes[i].name != "color"
    ensures var b := Batch(g, profile, s, id, numPoints, buffer, before);
      "color" in b.data && b.data["color"].Raw?
      && |b.data["color"].bytes| == 4 * b.numPoints
      && forall t | 0 <= t < |b.data["color"].bytes| :: b.data["color"].bytes[t] == 100
  {
    var acc := AcceptedUpTo(g, profile, s, id, Max0(numPoints));
    var start := map["position" := Reals(Positions(g, id, acc)),
                     "color" := Raw(UnsignedByte, seq(4 * |acc|, _ => 100))];
    AttributeDataOther(buffer, acc, |buffer.attributes|, start, "color");
  }

  /** A copied attribute (one no later attribute renames over, and not called "mileage")
      holds, for the i-th accepted point, the point's bytes of that attribute in the node's
      buffer: `bytes` bytes from `stride * accepted[i] + offset`. */
  lemma BatchAttribute(g: QueryGeometry, profile: Profile, s: nat, id: NodeId, numPoints: int,
                       buffer: InterleavedBuffer, before: real, j: nat)
    requires s < |profile.segments| && j < |buffer.attributes|
    requires Relevant(buffer.attributes[j]) && buffer.attributes[j].name != "mileage"
    requires forall i | j < i < |buffer.attributes| ::
      Relevant(buffer.attributes[i]) ==> buffer.attributes[i].name != buffer.attributes[j].name
    ensures var b := Batch(g, profile, s, id, numPoints, buffer, before);
      var ia := buffer.attributes[j];
      && ia.name in b.data && b.data[ia.name].Raw? && b.data[ia.name].elementType == ia.elementType
      && RecordsAre(b.data[ia.name].bytes, buffer.data, buffer.Stride(), FirstOffset(buffer, j), ia.bytes,
                    AcceptedUpTo(g, profile, s, id, Max0(numPoints)))
  {
    var acc := AcceptedUpTo(g, profile, s, id, Max0(numPoints));
    var start := map["position" := Reals(Positions(g, id, acc)),
                     "color" := Raw(UnsignedByte, seq(4 * |acc|, _ => 100))];
    var ia := buffer.attributes[j];
    AttributeDataLast(buffer, acc, |buffer.attributes|, start, j);
    GatheredRecords(buffer.data, buffer.Stride(), FirstOffset(buffer, j), ia.bytes, acc);
  }

  // ---------------------------------------------------------------------------------------
  // The loops
  // ---------------------------------------------------------------------------------------

  /** The copy loop: `target.set(source.subarray(start, start + bytes), i * bytes)` for each
      accepted point, into zeroed storage of `numElements * accepted.length` elements. */
  method GatherAttribute(data: seq<byte>, stride: nat, offset: nat, bytes: nat, acc: seq<nat>,
                         numElements: nat, elementType: ElementType) returns (r: seq<byte>)
    requires bytes == numElements * ElemSize(elementType)
    ensures r == Gathered(data, stride, offset, bytes, acc)
  {
    var n := |acc|;
    StorageSize(numElements, n, ElemSize(elementType), bytes);
    GatheredLength(data, stride, offset, bytes, acc);
    var target := new byte[numElements * n * ElemSize(elementType)](_ => 0);
    var base := 0;
    for i := 0 to n
      invariant base == |Gathered(data, stride, offset, bytes, acc[..i])| <= target.Length
      invariant target[..base] == Gathered(data, stride, offset, bytes, acc[..i])
      invariant forall p | base <= p < target.Length :: target[p] == 0
    {
      var start := RecordStart(stride, offset, acc[i]);
      var pre := Gathered(data, stride, offset, bytes, acc[..i]);
      assert acc[..i + 1][..i] == acc[..i];
      assert Gathered(data, stride, offset, bytes, acc[..i + 1]) == pre + Slice(data, start, bytes);
      GatheredPrefix(data, stride, offset, bytes, acc, i + 1);
      CopyRecord(target, base, data, start, bytes);
      PrefixSplit(target[..], base, base + bytes);
      base := base + bytes;
    }
    assert acc[..n] == acc;
    r := target[..];
  }

  /** A prefix is the shorter prefix followed by the slice between them. */
  lemma PrefixSplit<T>(s: seq<T>, i: nat, j: nat)
    requires i <= j <= |s|
    ensures s[..j] == s[..i] + s[i..j]
  {
    assert s[..j] == s[..i] + s[i..j];
  }

  /** One `target.set(source.subarray(start, start + bytes), base)` into zeroed storage:
      `subarray` clamps both ends to the source, and the bytes it does not reach stay 0. */
  method CopyRecord(target: array<byte>, base: nat, data: seq<byte>, start: nat, bytes: nat)
    requires base + bytes <= target.Length
    requires forall p | base <= p < target.Length :: target[p] == 0
    modifies target
    ensures target[..base] == old(target[..base])
    ensures target[base..base + bytes] == Slice(data, start, bytes)
    ensures forall p | base + bytes <= p < target.Length :: target[p] == 0
  {
    var end := start + bytes;
    var lo := if start < |data| then start else |data|;
    var hi := if end < |data| then end else |data|;
    for t := 0 to hi - lo
      invariant target[..base] == old(target[..base])
      invariant target[base..base + t] == Slice(data, start, t)
      invariant forall p | base + t <= p < target.Length :: target[p] == 0
    {
      target[base + t] := data[lo + t];
      assert target[base..base + t + 1] == target[base..base + t] + [target[base + t]];
    }
    var k := hi - lo;
    forall p | 0 <= p < bytes ensures target[base + p] == Slice(data, start, bytes)[p] {
      SliceAt(data, start, bytes, p);
      if p < k {
        SliceAt(data, start, k, p);
        assert target[base + p] == target[base..base + k][p];
      }
    }
    assert target[base..base + bytes] == Slice(data, start, bytes);
  }

  /** A typed array of `numElements * n` elements of `size` bytes spans `bytes` bytes per point
      when each point's attribute is `numElements * size` bytes. */
  lemma StorageSize(numElements: nat, n: nat, size: nat, bytes: nat)
    requires bytes == numElements * size
    ensures numElements * n * size == n * bytes
  {}

  /** The per-node body of `getPointsInsideProfile` for one segment. */
  method CollectPoints(g: QueryGeometry, profile: Profile, s: nat, id: NodeId, numPoints: int,
                       buffer: InterleavedBuffer, before: real) returns (p: Points)
    requires s < |profile.segments| && AttributesSized(buffer)
    ensures p == Batch(g, profile, s, id, numPoints, buffer, before)
  {
    var accepted, mileage, positions := AcceptPoints(g, profile, s, id, numPoints, before);
    var start := map["position" := Reals(positions), "color" := Raw(UnsignedByte, seq(4 * |accepted|, _ => 100))];
    var data := CopyAttributes(buffer, accepted, start);
    data := data["mileage" := Reals(mileage)];
    return Points(|accepted|, data);
  }

  /** The point loop of the per-node body: the points inside the segment's slab, with their
      mileages and positions. */
  method AcceptPoints(g: QueryGeometry, profile: Profile, s: nat, id: NodeId, numPoints: int, before: real)
    returns (accepted: seq<nat>, mileage: seq<real>, positions: seq<real>)
    requires s < |profile.segments|
    ensures accepted == AcceptedUpTo(g, profile, s, id, Max0(numPoints))
    ensures mileage == Mileages(g, s, id, accepted, before)
    ensures positions == Positions(g, id, accepted)
  {
    accepted, mileage, positions := [], [], [];
    var i := 0;
    while i < numPoints
      invariant 0 <= i <= Max0(numPoints)
      invariant accepted == AcceptedUpTo(g, profile, s, id, i)
      invariant mileage == Mileages(g, s, id, accepted, before)
      invariant positions == Positions(g, id, accepted)
    {
      var pos := g.worldPosition(id, i);
      var distance := Abs(g.cutPlaneDistance(s, pos));
      var centerDistance := Abs(g.halfPlaneDistance(s, pos));
      if distance < profile.width / 2.0 && centerDistance < profile.segments[s].length / 2.0 {
        var localMileage := g.localMileage(s, pos);
        assert (accepted + [i])[..|accepted|] == accepted;
        accepted := accepted + [i];
        mileage := mileage + [localMileage + before];
        positions := positions + [pos.x, pos.y, pos.z];
      }
      i := i + 1;
    }
  }

  /** The attribute loop of the per-node body: every copied attribute's accepted records. */
  method CopyAttributes(buffer: InterleavedBuffer, accepted: seq<nat>, start: map<string, PointData>)
    returns (data: map<string, PointData>)
    requires AttributesSized(buffer)
    ensures data == AttributeData(buffer, accepted, |buffer.attributes|, start)
  {
    data := start;
    for k := 0 to |buffer.attributes|
      invariant data == AttributeData(buffer, accepted, k, start)
    {
      var ia := buffer.attributes[k];
      if Relevant(ia) {
        var offset := FirstOffset(buffer, k);
        var filtered := GatherAttribute(buffer.data, buffer.Stride(), offset, ia.bytes, accepted,
                                        ia.numElements, ia.elementType);
        data := data[ia.name := Raw(ia.elementType, filtered)];
      }
    }
  }
}
