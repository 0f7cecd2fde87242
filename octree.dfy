/**
 * The octree node table the loaders write and the profile query reads.
 *
 * A JavaScript node object is shared by reference between the geometry, the loaders and the
 * query; here the geometry owns a table from node identifiers to node records, and each
 * in-place update of a node is an update of one entry.
 */
module Octree {
  import opened Wrappers
  import opened Bytes
  import opened PointAttributes

  type NodeId = nat

  datatype Vec3 = Vec3(x: real, y: real, z: real)

  function Sub(a: Vec3, b: Vec3): Vec3
  {
    Vec3(a.x - b.x, a.y - b.y, a.z - b.z)
  }

  datatype Box = Box(min: Vec3, max: Vec3)

  /** `box.max.sub(box.min); box.min.set(0, 0, 0)`: the box moved to the origin. */
  function AtOrigin(b: Box): (r: Box)
    ensures r.min == Vec3(0.0, 0.0, 0.0)
    ensures Sub(r.max, r.min) == Sub(b.max, b.min)
  {
    Box(Vec3(0.0, 0.0, 0.0), Sub(b.max, b.min))
  }

  /** A dataset version "major.minor". */
  datatype Version = Version(major: nat, minor: nat)

  predicate EqualOrHigher(v: Version, major: nat, minor: nat)
  {
    v.major > major || (v.major == major && v.minor >= minor)
  }

  predicate UpTo(v: Version, major: nat, minor: nat)
  {
    v.major < major || (v.major == major && v.minor <= minor)
  }

  /** The interleaved point buffer of a loaded node. */
  datatype InterleavedBuffer = InterleavedBuffer(
    data: seq<byte>, attributes: seq<InterleavedAttribute>, numElements: int)
  {
    /** The record size: the attributes' bytes rounded up to a multiple of 4. */
    function Stride(): (s: nat)
      ensures s % 4 == 0 && SumBytes(attributes) <= s < SumBytes(attributes) + 4
    {
      Ceil4(SumBytes(attributes))
    }

    /** The offset of the first attribute called `name`: the bytes of the attributes before it;
        None when there is no such attribute. */
    function Offset(name: string): (r: Option<nat>)
      ensures r.Some? <==> exists k | 0 <= k < |attributes| :: attributes[k].name == name
      ensures r.Some? ==> exists k | 0 <= k < |attributes| ::
        attributes[k].name == name && r.value == SumBytes(attributes[..k])
        && forall i | 0 <= i < k :: attributes[i].name != name
    {
      OffsetFrom(attributes, name, 0)
    }
  }

  /** `OffsetFrom(ias, name, k)`: the search in `Offset`, from attribute k on. */
  function OffsetFrom(ias: seq<InterleavedAttribute>, name: string, k: nat): (r: Option<nat>)
    requires k <= |ias|
    requires forall i | 0 <= i < k :: ias[i].name != name
    ensures r.Some? <==> exists i | k <= i < |ias| :: ias[i].name == name
    ensures r.Some? ==> exists i | k <= i < |ias| ::
      ias[i].name == name && r.value == SumBytes(ias[..i])
      && forall i' | 0 <= i' < i :: ias[i'].name != name
    decreases |ias| - k
  {
    if k == |ias| then None
    else if ias[k].name == name then
      Some(SumBytes(ias[..k]))
    else
      OffsetFrom(ias, name, k + 1)
  }

  datatype NodeRecord = NodeRecord(
    url: string,
    level: nat,
    loaded: bool,
    loading: bool,
    hasChildren: bool,
    children: seq<Option<NodeId>>,
    radius: real,                // bounding-sphere radius
    numPoints: int,              // 0 while unknown
    buffer: Option<InterleavedBuffer>,
    mean: Option<Vec3>,
    tightBox: Option<Box>)

  /** Child slot i of a node; slots past the end are empty. */
  function ChildAt(r: NodeRecord, i: nat): Option<NodeId>
  {
    if i < |r.children| then r.children[i] else None
  }

  /** Node `id` of the table is at most at level `height`, has its buffer once loaded, and
      each of its children is in the table one level below it. */
  predicate NodeWf(nodes: map<NodeId, NodeRecord>, height: nat, id: NodeId)
    requires id in nodes
  {
    && nodes[id].level <= height
    && (nodes[id].loaded ==> nodes[id].buffer.Some?)
    && forall i | 0 <= i < 8 :: ChildAt(nodes[id], i).Some? ==>
         var c := ChildAt(nodes[id], i).value;
         c in nodes && nodes[c].level == nodes[id].level + 1
  }

  /** The table is an octree of bounded height: every node in it is well formed. */
  predicate TableWf(nodes: map<NodeId, NodeRecord>, height: nat)
  {
    forall id | id in nodes :: NodeWf(nodes, height, id)
  }

  /** The shared state of one point cloud's geometry. */
  class PcoGeometry {
    var nodes: map<NodeId, NodeRecord>
    var numNodesLoading: int
    const root: NodeId
    const pointAttributes: seq<PointAttribute>
    const byteSize: nat
    const hierarchyStepSize: int

    constructor (nodes: map<NodeId, NodeRecord>, root: NodeId, pointAttributes: seq<PointAttribute>,
                 byteSize: nat, hierarchyStepSize: int)
      ensures this.nodes == nodes && numNodesLoading == 0 && this.root == root
      ensures this.pointAttributes == pointAttributes && this.byteSize == byteSize
      ensures this.hierarchyStepSize == hierarchyStepSize
    {
      this.nodes := nodes;
      this.numNodesLoading := 0;
      this.root := root;
      this.pointAttributes := pointAttributes;
      this.byteSize := byteSize;
      this.hierarchyStepSize := hierarchyStepSize;
    }
  }
}
