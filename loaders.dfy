/**
 * The two binary node loaders. A request's arrival (`onreadystatechange`) and the decoder
 * worker's reply (`worker.onmessage`) are separate events here; what happens between them
 * (the network, the worker) is not modelled.
 */
module Loaders {
  import opened Wrappers
  import opened Bytes
  import opened PointAttributes
  import opened Octree
  import opened WorkerPool

  // ---------------------------------------------------------------------------------------
  // networkToNative and the Greyhound trailer
  // ---------------------------------------------------------------------------------------

  /** `((val & 0xFF) << 24) | ((val & 0xFF00) << 8) | ((val >> 8) & 0xFF00) | ((val >> 24) & 0xFF)`:
      each masked term is one byte of `val` moved to the mirrored position, the terms occupy
      disjoint bits, and the final `|` yields a signed 32-bit result. */
  function NetworkToNative(val: int): int
  {
    var v := ToUint32(val);
    var b0, b1, b2, b3 := v % 0x100, (v / 0x100) % 0x100, (v / 0x1_0000) % 0x100, v / 0x100_0000;
    ToInt32(b0 * 0x100_0000 + b1 * 0x1_0000 + b2 * 0x100 + b3)
  }

  /** networkToNative is the signed reading of the word whose bytes are those of `val` in
      reverse order. */
  lemma NetworkToNativeWord(val: int)
    ensures var b := BytesOf(val); NetworkToNative(val) == ToInt32(Word(b[3], b[2], b[1], b[0]))
  {}

  /** The bytes of a 32-bit value, least significant first. */
  function BytesOf(val: int): (r: seq<byte>)
    ensures |r| == 4
  {
    var v := ToUint32(val);
    [v % 0x100, (v / 0x100) % 0x100, (v / 0x1_0000) % 0x100, v / 0x100_0000]
  }

  /** networkToNative reverses the four bytes of its argument. */
  lemma {:induction false} NetworkToNativeReverses(val: int)
    ensures var b := BytesOf(val); BytesOf(NetworkToNative(val)) == [b[3], b[2], b[1], b[0]]
  {
    var b := BytesOf(val);
    var w := Word(b[3], b[2], b[1], b[0]);
    NetworkToNativeWord(val);
    Reinterpret(w);
    Uint32Identity(w);
    WordBytes(b[3], b[2], b[1], b[0]);
  }

  /** Applied twice, networkToNative is the identity on 32-bit values. */
  lemma {:induction false} NetworkToNativeInvolution(val: int)
    ensures NetworkToNative(NetworkToNative(val)) == ToInt32(val)
  {
    var v := ToUint32(val);
    var b0, b1, b2, b3 := v % 0x100, (v / 0x100) % 0x100, (v / 0x1_0000) % 0x100, v / 0x100_0000;
    WordOf(v);
    var w := Word(b3, b2, b1, b0);
    WordBytes(b3, b2, b1, b0);
    Reinterpret(w);
    Uint32Identity(w);
    assert ToUint32(NetworkToNative(val)) == w;
    WordBytes(b0, b1, b2, b3);
    Reinterpret(val);
  }

  /** `DataView.getUint32(0)` with the default big-endian order: the first byte is the most
      significant. */
  function BigEndian32(b: seq<byte>): (r: nat)
    requires |b| == 4
    ensures r < TWO32
  {
    Word(b[3], b[2], b[1], b[0])
  }

  /** The point count in the last four bytes: read big-endian, then byte-swapped. */
  function TrailerCount(buffer: seq<byte>): (r: Option<int>)
    ensures r.None? <==> |buffer| < 4
  {
    if |buffer| < 4 then None   // the DataView constructor throws a RangeError
    else Some(NetworkToNative(BigEndian32(buffer[|buffer| - 4..])))
  }

  /** The trailer is the little-endian signed 32-bit value of the buffer's last four bytes. */
  lemma {:induction false} TrailerIsLittleEndian(buffer: seq<byte>)
    requires |buffer| >= 4
    ensures var t := buffer[|buffer| - 4..];
      TrailerCount(buffer) == Some(ToInt32(Word(t[0], t[1], t[2], t[3])))
  {
    var t := buffer[|buffer| - 4..];
    var v := BigEndian32(t);
    NetworkToNativeWord(v);
    Uint32Identity(v);
    WordBytes(t[3], t[2], t[1], t[0]);
  }

  // ---------------------------------------------------------------------------------------
  // Completion of a node
  // ---------------------------------------------------------------------------------------

  const BINARY_DECODER_PATH: string := "/workers/BinaryDecoderWorker.js"
  const GREYHOUND_DECODER_PATH: string := "/workers/GreyhoundBinaryDecoderWorker.js"

  /** What the `worker.onmessage` closure captures: the node, the worker and the path it was
      obtained under, and the point count computed in `parse`. */
  datatype Pending = Pending(node: NodeId, path: string, worker: WorkerId, numPoints: int)

  /** The decoder worker's reply. */
  datatype WorkerReply = WorkerReply(data: seq<byte>, mean: Vec3, tightBox: Box)

  /** The node after its decoded buffer is installed. */
  function Completed(r: NodeRecord, buffer: InterleavedBuffer, reply: WorkerReply): (c: NodeRecord)
    ensures c.loaded && !c.loading && c.buffer == Some(buffer)
    ensures c.tightBox == Some(AtOrigin(reply.tightBox)) && c.mean == Some(reply.mean)
    ensures c.level == r.level && c.children == r.children && c.numPoints == r.numPoints
    ensures c.url == r.url && c.hasChildren == r.hasChildren && c.radius == r.radius
  {
    r.(buffer := Some(buffer), mean := Some(reply.mean), tightBox := Some(AtOrigin(reply.tightBox)),
       loaded := true, loading := false)
  }

  /** Replacing a record by one with the same level and children, and a buffer whenever it is
      loaded, keeps the table an octree. */
  lemma {:induction false} UpdateKeepsTableWf(nodes: map<NodeId, NodeRecord>, height: nat, id: NodeId, r: NodeRecord)
    requires TableWf(nodes, height) && id in nodes
    requires r.level == nodes[id].level && r.children == nodes[id].children
    requires r.loaded ==> r.buffer.Some?
    ensures TableWf(nodes[id := r], height)
  {
    var nodes' := nodes[id := r];
    forall n | n in nodes'
      ensures nodes'[n].level <= height && (nodes'[n].loaded ==> nodes'[n].buffer.Some?)
      ensures forall i | 0 <= i < 8 :: ChildAt(nodes'[n], i).Some? ==>
        ChildAt(nodes'[n], i).value in nodes' && nodes'[ChildAt(nodes'[n], i).value].level == nodes'[n].level + 1
    {
      assert ChildAt(nodes'[n], 0) == ChildAt(nodes[n], 0);
      forall i | 0 <= i < 8 ensures ChildAt(nodes'[n], i) == ChildAt(nodes[n], i) {}
    }
  }

  /** Both loaders' completions keep the node table an octree with loaded nodes buffered. */
  lemma CompletedKeepsTableWf(nodes: map<NodeId, NodeRecord>, height: nat, id: NodeId, numPoints: int,
                              buffer: InterleavedBuffer, reply: WorkerReply)
    requires TableWf(nodes, height) && id in nodes
    ensures TableWf(nodes[id := Completed(nodes[id].(numPoints := numPoints), buffer, reply)], height)
    ensures TableWf(nodes[id := Completed(nodes[id], buffer, reply)], height)
  {
    UpdateKeepsTableWf(nodes, height, id, Completed(nodes[id].(numPoints := numPoints), buffer, reply));
    UpdateKeepsTableWf(nodes, height, id, Completed(nodes[id], buffer, reply));
  }

  /** Both loaders' `parse` keeps the node table an octree. */
  lemma ParsedKeepsTableWf(nodes: map<NodeId, NodeRecord>, height: nat, id: NodeId, numPoints: int)
    requires TableWf(nodes, height) && id in nodes
    ensures TableWf(nodes[id := nodes[id].(numPoints := numPoints)], height)
  {
    UpdateKeepsTableWf(nodes, height, id, nodes[id].(numPoints := numPoints));
  }

  /** The outcome of a request's `onreadystatechange`. */
  datatype Response = NotDone | Parsed(pending: Pending) | Failed

  // ---------------------------------------------------------------------------------------
  // BinaryLoader
  // ---------------------------------------------------------------------------------------

  class BinaryLoader {
    const version: Version
    const scriptPath: string
    /** What `console.log` reports for a failed request: the status and the URL. */
    var failures: seq<(int, string)>

    constructor (version: Version, scriptPath: string)
      ensures this.version == version && this.scriptPath == scriptPath && failures == []
    {
      this.version := version;
      this.scriptPath := scriptPath;
      failures := [];
    }

    /** The request URL: `.bin` is appended from version 1.4 on. */
    function RequestUrl(url: string): (r: string)
      reads this
      ensures |r| >= |url| && r[..|url|] == url
      ensures |r| == |url| + 4 <==> EqualOrHigher(version, 1, 4)
      ensures |r| == |url| + 4 ==> r[|url|..] == ".bin"
      ensures |r| != |url| + 4 ==> r == url
    {
      if EqualOrHigher(version, 1, 4) then url + ".bin" else url
    }

    /** `load(node)`: a request for the node's file, unless the node is already loaded. */
    method Load(geometry: PcoGeometry, id: NodeId) returns (request: Option<string>)
      requires id in geometry.nodes
      ensures request.None? <==> geometry.nodes[id].loaded
      ensures request.Some? ==> request.value == RequestUrl(geometry.nodes[id].url)
    {
      var node := geometry.nodes[id];
      if node.loaded {
        return None;
      }
      var url := node.url;
      if EqualOrHigher(version, 1, 4) {
        url := url + ".bin";
      }
      return Some(url);
    }

    /** `onreadystatechange`: a completed request with status 200 or 0 is parsed; any other
        status is only logged. */
    method OnReadyStateChange(geometry: PcoGeometry, pool: Pool, id: NodeId,
                              readyState: int, status: int, response: seq<byte>)
      returns (r: Response)
      requires id in geometry.nodes
      requires readyState == 4 && (status == 200 || status == 0) ==>
        geometry.byteSize > 0 && |response| % geometry.byteSize == 0
      modifies this, geometry, pool
      ensures readyState != 4 ==>
        r == NotDone && failures == old(failures) && geometry.nodes == old(geometry.nodes)
        && pool.idle == old(pool.idle) && pool.created == old(pool.created)
      ensures readyState == 4 && !(status == 200 || status == 0) ==>
        r == Failed && failures == old(failures) + [(status, RequestUrl(old(geometry.nodes[id].url)))] && geometry.nodes == old(geometry.nodes)
        && pool.idle == old(pool.idle) && pool.created == old(pool.created)
      ensures readyState == 4 && (status == 200 || status == 0) ==>
        r.Parsed? && failures == old(failures) && ParseEffect(old(geometry.nodes), geometry, id, response, r.pending)
        && Acquire(old(pool.idle), old(pool.created), scriptPath + BINARY_DECODER_PATH)
           == Acquired(pool.idle, pool.created, r.pending.worker)
      ensures geometry.numNodesLoading == old(geometry.numNodesLoading)
    {
      if readyState != 4 {
        return NotDone;
      }
      if status == 200 || status == 0 {
        var p := Parse(geometry, pool, id, response);
        return Parsed(p);
      }
      failures := failures + [(status, RequestUrl(geometry.nodes[id].url))];
      return Failed;
    }

    /** What `parse` does to the node table and what it captures for the completion. */
    ghost predicate ParseEffect(before: map<NodeId, NodeRecord>, geometry: PcoGeometry, id: NodeId,
                                buffer: seq<byte>, p: Pending)
      reads this, geometry
      requires id in before && geometry.byteSize > 0
    {
      var n := |buffer| / geometry.byteSize;
      && p == Pending(id, scriptPath + BINARY_DECODER_PATH, p.worker, n)
      && geometry.nodes == (if UpTo(version, 1, 5) then before[id := before[id].(numPoints := n)] else before)
    }

    /** `parse(node, buffer)`: the point count is set only up to version 1.5; a decoder worker
        is obtained and the buffer is posted to it. */
    method Parse(geometry: PcoGeometry, pool: Pool, id: NodeId, buffer: seq<byte>) returns (p: Pending)
      requires id in geometry.nodes
      requires geometry.byteSize > 0 && |buffer| % geometry.byteSize == 0
      modifies geometry, pool
      ensures ParseEffect(old(geometry.nodes), geometry, id, buffer, p)
      ensures p.numPoints * geometry.byteSize == |buffer|
      ensures Acquire(old(pool.idle), old(pool.created), scriptPath + BINARY_DECODER_PATH)
        == Acquired(pool.idle, pool.created, p.worker)
      ensures geometry.numNodesLoading == old(geometry.numNodesLoading)
    {
      var numPoints := |buffer| / geometry.byteSize;
      if UpTo(version, 1, 5) {
        geometry.nodes := geometry.nodes[id := geometry.nodes[id].(numPoints := numPoints)];
      }
      var path := scriptPath + BINARY_DECODER_PATH;
      var worker := pool.GetWorker(path);
      p := Pending(id, path, worker, numPoints);
    }

    /** `worker.onmessage`: the worker goes back to the pool, the decoded buffer is installed,
        the tight box moves to the origin, the node is loaded and the loading count drops. */
    method OnDecoded(geometry: PcoGeometry, pool: Pool, p: Pending, reply: WorkerReply)
      requires p.node in geometry.nodes && p.path in pool.idle
      modifies geometry, pool
      ensures var attrs := InterleavedAttributes(geometry.pointAttributes, false);
        geometry.nodes == old(geometry.nodes)[p.node :=
          Completed(old(geometry.nodes)[p.node], InterleavedBuffer(reply.data, attrs, p.numPoints), reply)]
      ensures geometry.numNodesLoading == old(geometry.numNodesLoading) - 1
      ensures pool.idle == Release(old(pool.idle), p.path, p.worker) && pool.created == old(pool.created)
    {
      // The index attribute is built without its `normalized` argument, which reads as false.
      var attrs := Converted(geometry.pointAttributes) + [IndexAttribute(false)];
      var iBuffer := InterleavedBuffer(reply.data, attrs, p.numPoints);
      pool.ReturnWorker(p.path, p.worker);
      var box := AtOrigin(reply.tightBox);
      var node := geometry.nodes[p.node];
      geometry.nodes := geometry.nodes[p.node := node.(buffer := Some(iBuffer), mean := Some(reply.mean),
        tightBox := Some(box), loaded := true, loading := false)];
      geometry.numNodesLoading := geometry.numNodesLoading - 1;
    }
  }

  // ---------------------------------------------------------------------------------------
  // GreyhoundBinaryLoader
  // ---------------------------------------------------------------------------------------

  datatype ParseError = TrailerOutOfRange

  class GreyhoundBinaryLoader {
    const version: Version
    const scriptPath: string
    var failures: seq<(int, string)>

    constructor (version: Version, scriptPath: string)
      ensures this.version == version && this.scriptPath == scriptPath && failures == []
    {
      this.version := version;
      this.scriptPath := scriptPath;
      failures := [];
    }

    /** `load(node)`: a request for the node's URL as it is, unless the node is already loaded. */
    method Load(geometry: PcoGeometry, id: NodeId) returns (request: Option<string>)
      requires id in geometry.nodes
      ensures request.None? <==> geometry.nodes[id].loaded
      ensures request.Some? ==> request.value == geometry.nodes[id].url
    {
      var node := geometry.nodes[id];
      if node.loaded {
        return None;
      }
      return Some(node.url);
    }

    /** `onreadystatechange`: as for the binary loader; a buffer too short for its trailer makes
        `parse` throw before it changes anything. */
    method OnReadyStateChange(geometry: PcoGeometry, pool: Pool, id: NodeId,
                              readyState: int, status: int, response: seq<byte>)
      returns (r: Response)
      requires id in geometry.nodes
      modifies this, geometry, pool
      ensures readyState != 4 || (readyState == 4 && (status == 200 || status == 0) && |response| < 4) ==>
        r == NotDone && failures == old(failures) && geometry.nodes == old(geometry.nodes)
        && pool.idle == old(pool.idle) && pool.created == old(pool.created)
      ensures readyState == 4 && !(status == 200 || status == 0) ==>
        r == Failed && failures == old(failures) + [(status, old(geometry.nodes[id].url))] && geometry.nodes == old(geometry.nodes)
        && pool.idle == old(pool.idle) && pool.created == old(pool.created)
      ensures readyState == 4 && (status == 200 || status == 0) && |response| >= 4 ==>
        r.Parsed? && failures == old(failures)
        && r.pending == Pending(id, scriptPath + GREYHOUND_DECODER_PATH, r.pending.worker, TrailerCount(response).value)
        && geometry.nodes == old(geometry.nodes)[id := old(geometry.nodes)[id].(numPoints := r.pending.numPoints)]
        && Acquire(old(pool.idle), old(pool.created), scriptPath + GREYHOUND_DECODER_PATH)
           == Acquired(pool.idle, pool.created, r.pending.worker)
      ensures geometry.numNodesLoading == old(geometry.numNodesLoading)
    {
      if readyState != 4 {
        return NotDone;
      }
      if status == 200 || status == 0 {
        var p := Parse(geometry, pool, id, response);
        if p.Success? {
          return Parsed(p.value);
        }
        return NotDone;
      }
      failures := failures + [(status, geometry.nodes[id].url)];
      return Failed;
    }

    /** `parse(node, buffer)`: the node's point count becomes the trailer count, a decoder
        worker is obtained and the buffer is posted to it. */
    method Parse(geometry: PcoGeometry, pool: Pool, id: NodeId, buffer: seq<byte>)
      returns (r: Result<Pending, ParseError>)
      requires id in geometry.nodes
      modifies geometry, pool
      ensures r.Failure? <==> |buffer| < 4
      ensures r.Failure? ==>
        geometry.nodes == old(geometry.nodes) && pool.idle == old(pool.idle) && pool.created == old(pool.created)
      ensures r.Success? ==>
        && r.value == Pending(id, scriptPath + GREYHOUND_DECODER_PATH, r.value.worker, TrailerCount(buffer).value)
        && geometry.nodes == old(geometry.nodes)[id := old(geometry.nodes)[id].(numPoints := r.value.numPoints)]
        && Acquire(old(pool.idle), old(pool.created), scriptPath + GREYHOUND_DECODER_PATH)
           == Acquired(pool.idle, pool.created, r.value.worker)
      ensures geometry.numNodesLoading == old(geometry.numNodesLoading)
    {
      if |buffer| < 4 {
        return Failure(TrailerOutOfRange);
      }
      var numPoints := NetworkToNative(BigEndian32(buffer[|buffer| - 4..]));
      geometry.nodes := geometry.nodes[id := geometry.nodes[id].(numPoints := numPoints)];
      var path := scriptPath + GREYHOUND_DECODER_PATH;
      var worker := pool.GetWorker(path);
      return Success(Pending(id, path, worker, numPoints));
    }

    /** `worker.onmessage`: as for the binary loader, and the node's point count becomes the
        buffer's element count, which is the trailer count captured by `parse`. */
    method OnDecoded(geometry: PcoGeometry, pool: Pool, p: Pending, reply: WorkerReply)
      requires p.node in geometry.nodes && p.path in pool.idle
      modifies geometry, pool
      ensures var attrs := InterleavedAttributes(geometry.pointAttributes, true);
        geometry.nodes == old(geometry.nodes)[p.node :=
          Completed(old(geometry.nodes)[p.node].(numPoints := p.numPoints),
                    InterleavedBuffer(reply.data, attrs, p.numPoints), reply)]
      ensures geometry.numNodesLoading == old(geometry.numNodesLoading) - 1
      ensures pool.idle == Release(old(pool.idle), p.path, p.worker) && pool.created == old(pool.created)
    {
      var attrs := Converted(geometry.pointAttributes) + [IndexAttribute(true)];
      var iBuffer := InterleavedBuffer(reply.data, attrs, p.numPoints);
      pool.ReturnWorker(p.path, p.worker);
      var box := AtOrigin(reply.tightBox);
      var node := geometry.nodes[p.node];
      geometry.nodes := geometry.nodes[p.node := node.(numPoints := iBuffer.numElements, buffer := Some(iBuffer),
        mean := Some(reply.mean), tightBox := Some(box), loaded := true, loading := false)];
      geometry.numNodesLoading := geometry.numNodesLoading - 1;
    }
  }
}
