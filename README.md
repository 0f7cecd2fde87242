# A verified model of potree's profile query, point decoder and loaders

This project is a Dafny model of the core of potree, a WebGL point-cloud viewer written in
JavaScript. It covers six parts of the viewer:

- **Profile query.** A `ProfileRequest` is a cooperative traversal of a point cloud's octree. A
  priority queue holds the nodes that intersect a cross-section profile, and each `update` serves
  at most one of them. Serving a node gathers its points that lie inside one of the profile's
  segment corridors: their positions, their mileage, and a byte-exact copy of every other
  attribute. The request hands these to its callback in batches and finishes when the queue
  runs empty.
- **Binary decoder worker.** It reads little-endian integers out of a node's raw records and
  writes an interleaved buffer. Each slot is rounded up to 4 bytes, and every record ends with
  its index.
- **Binary and Greyhound loaders.** Each loader requests a node's file, reads or computes the
  point count, sends the bytes to a decoder worker, and installs the decoded buffer on the node
  when the worker replies.
- **Worker pool.** Idle decoder workers are kept per script path.
- **GL timer queries.** A memoised per-context registry holds timer queries by name. `start`
  appends a query and `resolve` filters the queries that are done.
- **Viewer settings.** Change-guarded setters, a classification table, the length unit, the
  controls of each navigation mode, and the mapping between material names and colour types.

Modules follow the source:

| file | module | source |
|---|---|---|
| `wrappers.dfy` | `Wrappers` | `Option` and `Result` |
| `bytes.dfy` | `Bytes` | bytes, JavaScript's ToInt32/ToUint32, little-endian words |
| `float32.dfy` | `Float32` | the binary32 bytes of the small integers the decoder stores |
| `point_attributes.dfy` | `PointAttributes` | point attributes, their interleaved form, stride and offsets |
| `decoder.dfy` | `BinaryDecoder` | `src/workers/BinaryDecoderWorker.js` |
| `octree.dfy` | `Octree` | the node records the loaders write and the query reads |
| `worker_pool.dfy` | `WorkerPool` | the worker pool used by both loaders |
| `loaders.dfy` | `Loaders` | `src/loader/BinaryLoader.js`, `src/loader/GreyhoundBinaryLoader.js` |
| `traversal.dfy` | `Traversal` | the order in which `traverse` queues descendants |
| `profile_points.dfy` | `ProfilePoints` | the per-node body of `getPointsInsideProfile` |
| `profile_request.dfy` | `ProfileQuery` | `src/ProfileRequest.js` |
| `gl_queries.dfy` | `TimerQueries` | `src/webgl/GLQueries.js` |
| `viewer.dfy` | `ViewerSettings` | the settings slice of `src/viewer/Viewer.js` |

Code that only computes a value is written as functions, with lemmas about them. Code that
changes state step by step is written as classes and methods with `modifies` frames:

- `ProfileRequest`, `PcoGeometry`, the two loaders, `Pool`, `GLQueries`, `Registry` and
  `Viewer`;
- the decoder's in-place writes into an `array<byte>`;
- the copy of attribute bytes into zeroed storage.

Each loop is a `for` or `while` loop with invariants. Each such method is proved against a
specification function, and the properties are proved about that function:

- `Traverse` against `Expansion`;
- `GetPointsInsideProfile` against `Collected`;
- `CollectPoints` against `Batch`;
- `Resolve` against `Resolved`;
- `Decode` against `Fault` and `SlotValue`.

A JavaScript node object is shared by reference between the geometry, the loaders and the
query. Here the geometry owns a table from node identifiers to node records, and an in-place
update of a node becomes an update of one entry in that table.

Several things outside the model enter as parameters:

- the floating-point geometry (point positions, plane distances, mileage projections);
- the converter from point attributes to interleaved attributes;
- query availability;
- the profile-intersection test.

The XHR response and the worker's reply are separate method calls. A callback, the LRU cache and
`node.load()` are logs of the calls made to them.

## Model

| member | source | states |
|---|---|---|
| Bytes.ToInt32 | src/workers/BinaryDecoderWorker.js:16-22 | the result of a bitwise operator is a signed 32-bit value congruent to its argument modulo 2^32 |
| Bytes.At | src/workers/BinaryDecoderWorker.js:33-35 | a Uint8Array element, or 0 (what `undefined` converts to) outside the array |
| Bytes.LittleEndian32 | src/workers/BinaryDecoderWorker.js:264-268 | the four bytes `setUint32(p, v, true)` stores form, least significant first, the word ToUint32(v) |
| Float32.SmallRoundTrip | src/workers/BinaryDecoderWorker.js:113-124 | the binary32 bytes stored for an integer below 2^24 decode to exactly that integer |
| PointAttributes.InterleavedAttributes | src/workers/BinaryDecoderWorker.js:55-58 | the interleaved list is exactly the non-null conversions in order, with `index` last |
| PointAttributes.ConvertedWhenAllConvert | src/workers/BinaryDecoderWorker.js:55-57 | when every attribute converts, the converted list is their conversions position by position |
| PointAttributes.ConvertedMembers | src/loader/BinaryLoader.js:67-69 | an interleaved attribute is kept iff some point attribute converts to it |
| PointAttributes.Ceil4 | src/workers/BinaryDecoderWorker.js:60 | `Math.ceil(x / 4) * 4` is a multiple of 4 in [x, x + 4) |
| PointAttributes.Ceil4Least | src/workers/BinaryDecoderWorker.js:60 | and is the least multiple of 4 not below x |
| PointAttributes.Stride | src/workers/BinaryDecoderWorker.js:55-60 | the stride is a multiple of 4 lying between the interleaved bytes plus the 4-byte index and that plus 7 |
| PointAttributes.OutOffset | src/workers/BinaryDecoderWorker.js:196 | every output offset is a multiple of 4 |
| PointAttributes.OutOffsetMonotone | src/workers/BinaryDecoderWorker.js:195-196 | output offsets never decrease from one attribute to the next |
| PointAttributes.AlignedIndexSlot | src/workers/BinaryDecoderWorker.js:59-266 | when every interleaved size is a multiple of 4, the index slot ends exactly at the stride |
| PointAttributes.OutOffsetCoversBytes | src/workers/BinaryDecoderWorker.js:59-196 | rounding each slot up never gives less than the unrounded total of the bytes |
| BinaryDecoder.GetUint16 | src/workers/BinaryDecoderWorker.js:20-22 | `u8[i] + 256 * u8[i+1]`, always in [0, 65535] |
| BinaryDecoder.GetUint32 | src/workers/BinaryDecoderWorker.js:16-18 | the little-endian word of `u8[i..i+3]` read as signed 32-bit; it equals the unsigned word iff `u8[i+3] < 128`, and is 2^32 less otherwise |
| BinaryDecoder.PointCount | src/workers/BinaryDecoderWorker.js:43 | the number of records times the record size is the buffer's length |
| BinaryDecoder.SlotValue | src/workers/BinaryDecoderWorker.js:102-124 | what is written for an attribute has the width the decoder writes for that attribute's name |
| BinaryDecoder.NoFault | src/workers/BinaryDecoderWorker.js:61-196 | the handler raises nothing iff every attribute converts and, when there are records, every slot and the index fit the stride |
| BinaryDecoder.Fault | src/workers/BinaryDecoderWorker.js:70-196 | the first exception in loop order: a null conversion (TypeError on `iAttribute.bytes`), a slot past the stride in a non-empty buffer, or the index slot past the stride (RangeError); its meaning is stated by NoFault |
| BinaryDecoder.WriteWidth | src/workers/BinaryDecoderWorker.js:103-190 | the bytes the decoder writes into each kind of slot: 12 for positions and normals, 3 for colour, 4 for intensity and classification, none for other attributes; Decode's zero-byte clause covers the rest |
| BinaryDecoder.GetUint8 | src/workers/BinaryDecoderWorker.js:33-35 | a byte of the input array, 0 out of range; At states its meaning |
| BinaryDecoder.WriteColumn | src/workers/BinaryDecoderWorker.js:103-111 | one column loop writes an attribute's slot in every record and no byte outside that slot's columns |
| BinaryDecoder.WriteAttribute | src/workers/BinaryDecoderWorker.js:70-192 | one pass of the attribute loop writes attribute k's slot in every record, keeps the slots of the earlier attributes and changes no byte outside the written part of slot k |
| BinaryDecoder.ColumnsKept | src/workers/BinaryDecoderWorker.js:70-192 | writing only the bytes of one slot keeps every earlier column, since those end at or before its offset |
| BinaryDecoder.ColumnsExtend | src/workers/BinaryDecoderWorker.js:70-192 | the first k columns plus column k written in every record are the first k + 1 columns |
| BinaryDecoder.Decode | src/workers/BinaryDecoderWorker.js:38-269 | it fails iff a null conversion or a slot past the end occurs, and then with the first such error in loop order. On success, every attribute's slot holds its value in every record, record j ends with the little-endian j, the buffer has n * stride bytes, every byte that no written slot and no index covers (rounding padding, the slots the decoder leaves alone, the tail before the stride) is 0 as in a fresh ArrayBuffer, and the estimated spacing is the given spacing |
| BinaryDecoder.WriteIndex | src/workers/BinaryDecoderWorker.js:264-269 | every record's index slot holds the little-endian record number, the attribute slots are kept, and no byte outside the index slots changes |
| BinaryDecoder.EarlierColumns | src/workers/BinaryDecoderWorker.js:195-196 | the slots of attributes before k end at or before k's output offset, so later writes cannot overlap them |
| BinaryDecoder.EarlierOffset | src/workers/BinaryDecoderWorker.js:196 | output offsets are monotone in the attribute index |
| BinaryDecoder.IntensitySlot | src/workers/BinaryDecoderWorker.js:113-118 | an intensity slot holds a binary32 whose value is the field's 16-bit little-endian integer, exactly |
| BinaryDecoder.ClassificationSlot | src/workers/BinaryDecoderWorker.js:119-124 | a classification slot holds a binary32 whose value is the field's byte, exactly |
| BinaryDecoder.ColorSlot | src/workers/BinaryDecoderWorker.js:102-112 | a colour slot holds the three bytes at `inOffset + j * byteSize` of the input |
| Octree.AtOrigin | src/loader/BinaryLoader.js:80-81 | the normalised tight box has min (0, 0, 0) and the same extent as before |
| Octree.InterleavedBuffer.Stride | src/ProfileRequest.js:199 | the buffer's stride is the attributes' bytes rounded up to a multiple of 4 |
| Octree.InterleavedBuffer.Offset | src/ProfileRequest.js:194 | `buffer.offset(name)` exists iff an attribute has that name, and is then the bytes of the attributes before its first occurrence |
| Octree.OffsetFrom | src/ProfileRequest.js:194 | the same search from attribute k on |
| WorkerPool.Acquire | src/loader/BinaryLoader.js:62-63 | `getWorker` hands out the top idle worker under the path, or a new one when none is idle; other paths are untouched |
| WorkerPool.Release | src/loader/BinaryLoader.js:78 | `returnWorker` pushes the worker onto the path's idle stack; other paths are untouched |
| WorkerPool.AcquireRelease | src/loader/GreyhoundBinaryLoader.js:67-84 | returning the worker just obtained under the same path restores the idle stacks, with a newly created worker now idle |
| WorkerPool.Pool.GetWorker | src/loader/BinaryLoader.js:63 | the pool's new state and the worker are those of Acquire |
| WorkerPool.Pool.ReturnWorker | src/loader/BinaryLoader.js:78 | the pool's new state is that of Release |
| Loaders.NetworkToNativeWord | src/loader/GreyhoundBinaryLoader.js:8-13 | `networkToNative` is the signed word of its argument's bytes in reverse order |
| Loaders.NetworkToNative | src/loader/GreyhoundBinaryLoader.js:8-13 | the mask-and-shift byte swap on JavaScript 32-bit values; NetworkToNativeReverses and NetworkToNativeInvolution state what it does |
| Loaders.BytesOf | src/loader/GreyhoundBinaryLoader.js:8-13 | a 32-bit value has four bytes |
| Loaders.NetworkToNativeReverses | src/loader/GreyhoundBinaryLoader.js:8-13 | `networkToNative` reverses the four bytes of its argument |
| Loaders.NetworkToNativeInvolution | src/loader/GreyhoundBinaryLoader.js:8-13 | applied twice, it is the identity modulo 2^32 |
| Loaders.BigEndian32 | src/loader/GreyhoundBinaryLoader.js:62 | `getUint32(0)` in the default big-endian order is a 32-bit word |
| Loaders.TrailerCount | src/loader/GreyhoundBinaryLoader.js:58-62 | the trailer is unreadable iff the buffer is shorter than 4 bytes |
| Loaders.TrailerIsLittleEndian | src/loader/GreyhoundBinaryLoader.js:58-62 | the trailer count is the signed little-endian value of the buffer's last four bytes |
| Loaders.Completed | src/loader/BinaryLoader.js:83-87 | after completion the node is loaded, not loading, has the buffer, the mean and the normalised tight box, and keeps its level, children, URL and point count |
| Loaders.UpdateKeepsTableWf | src/loader/BinaryLoader.js:83-87 | replacing a node record by one with the same level and children, and a buffer whenever it is loaded, keeps the table an octree |
| Loaders.CompletedKeepsTableWf | src/loader/GreyhoundBinaryLoader.js:89-94 | both loaders' completions keep the node table an octree whose loaded nodes have buffers |
| Loaders.ParsedKeepsTableWf | src/loader/BinaryLoader.js:58-60 | setting a node's point count keeps the table an octree |
| Loaders.BinaryLoader.constructor | src/loader/BinaryLoader.js:9-18 | a loader keeps its version; no request has failed yet |
| Loaders.BinaryLoader.RequestUrl | src/loader/BinaryLoader.js:27-31 | the URL gets `.bin` appended iff the version is at least 1.4, and is otherwise unchanged |
| Loaders.BinaryLoader.Load | src/loader/BinaryLoader.js:20-31 | no request iff the node is already loaded; otherwise the request is for RequestUrl of the node's URL |
| Loaders.BinaryLoader.OnReadyStateChange | src/loader/BinaryLoader.js:37-46 | nothing happens before readyState 4. A status other than 200 or 0 only logs the status and the URL that `load` requested, leaving the nodes and the pool as they were. A success parses |
| Loaders.BinaryLoader.Parse | src/loader/BinaryLoader.js:54-63 | the point count is byteLength / byteSize and is stored on the node only up to version 1.5. One worker is obtained under the binary decoder's path, and the loading count is unchanged |
| Loaders.BinaryLoader.OnDecoded | src/loader/BinaryLoader.js:65-89 | the node becomes Completed with a buffer of the converted attributes then `index`. The loading count drops by exactly 1, and the worker goes back under the path it came from |
| Loaders.GreyhoundBinaryLoader.constructor | src/loader/GreyhoundBinaryLoader.js:15-24 | a loader keeps its version; no request has failed yet |
| Loaders.GreyhoundBinaryLoader.Load | src/loader/GreyhoundBinaryLoader.js:26-30 | no request iff the node is already loaded; otherwise the request is for the node's URL as it is |
| Loaders.GreyhoundBinaryLoader.OnReadyStateChange | src/loader/GreyhoundBinaryLoader.js:37-48 | as for the binary loader, logging the node's URL on a failed status; a successful response too short for its trailer changes nothing |
| Loaders.GreyhoundBinaryLoader.Parse | src/loader/GreyhoundBinaryLoader.js:57-68 | it fails iff the buffer is shorter than 4 bytes, and then changes nothing. Otherwise the node's point count becomes the trailer count and one worker is obtained under the Greyhound decoder's path |
| Loaders.GreyhoundBinaryLoader.OnDecoded | src/loader/GreyhoundBinaryLoader.js:70-96 | as for the binary loader, with `index` normalised, and the point count overwritten by the buffer's element count |
| Traversal.MaxDepthOf | src/ProfileRequest.js:11 | `maxDepth \|\| Number.MAX_VALUE` is unbounded iff the argument is absent or 0, and is otherwise the argument |
| Traversal.Subtree | src/ProfileRequest.js:38-51 | the elements one popped node contributes: itself at its radius, then, below maxDepth, the expansion of its intersecting children pushed as a stack; specified by PendingWeights, PendingParents, PendingInTable and PendingDepth |
| Traversal.Pending | src/ProfileRequest.js:37-52 | what a stack of nodes produces, from its top down; PendingAppend relates it to pushing and PopStack to one loop turn |
| Traversal.Expansion | src/ProfileRequest.js:28-53 | what `traverse(node)` pushes: the expansion of the stack of the node's intersecting children; WalkStack is proved equal to it |
| Traversal.ChildrenUpTo | src/ProfileRequest.js:30-35 | the children collected from the first k slots are exactly the existing, intersecting ones |
| Traversal.ChildrenLevel | src/ProfileRequest.js:30-35 | in an octree each of them lies one level below the node |
| Traversal.PendingLow | src/ProfileRequest.js:37-52 | the expansion of a stack does not depend on the level bound used to order the recursion |
| Traversal.PendingAppend | src/ProfileRequest.js:37-52 | what a stack with `b` pushed on top of `a` produces is `b`'s expansion, then `a`'s |
| Traversal.PendingWeights | src/ProfileRequest.js:37-51 | every element pushed is for a node that intersects the profile, weighted by its bounding-sphere radius |
| Traversal.PendingParents | src/ProfileRequest.js:44-50 | every node not on the starting stack was pushed as an intersecting child of a pushed node shallower than maxDepth |
| Traversal.HasParentInMeaning | src/ProfileRequest.js:44-50 | a node has a parent among the pushed elements exactly when some pushed element is for a node shallower than maxDepth that lists it as an intersecting child |
| Traversal.PendingInTable | src/ProfileRequest.js:37-52 | every pushed node is in the table, at the starting level or deeper |
| Traversal.PendingDepth | src/ProfileRequest.js:44 | with a bounded maxDepth, nothing deeper than one level below the bound is pushed, except nodes already on the starting stack |
| ProfilePoints.AcceptedUpToMeaning | src/ProfileRequest.js:151-173 | the accepted indices are strictly increasing, and i is accepted iff i is below the count and inside both half-widths of the corridor |
| ProfilePoints.Positions | src/ProfileRequest.js:169-175 | three coordinates per accepted point |
| ProfilePoints.Mileages | src/ProfileRequest.js:162-166 | each accepted point's mileage is its projection on the segment plus the mileage entering the segment |
| ProfilePoints.Slice | src/ProfileRequest.js:199-203 | a clamped subarray copied into zeroed storage has exactly the requested length |
| ProfilePoints.SliceAt | src/ProfileRequest.js:199-203 | its byte t is source byte start + t, or 0 past the end of the source |
| ProfilePoints.GatheredLength | src/ProfileRequest.js:182-203 | one attribute's gathered bytes number `bytes` per accepted point |
| ProfilePoints.GatheredPrefix | src/ProfileRequest.js:196-204 | gathering a prefix of the accepted points gives a prefix of the bytes |
| ProfilePoints.GatheredRecord | src/ProfileRequest.js:196-204 | target bytes `[i*bytes, (i+1)*bytes)` are the source bytes from `stride * accepted[i] + offset` |
| ProfilePoints.GatheredRecords | src/ProfileRequest.js:196-204 | the same for every accepted point at once |
| ProfilePoints.BatchPoints | src/ProfileRequest.js:151-232 | a batch's numPoints is the number accepted; the accepted indices are exactly those in the corridor, in increasing order; the mileage entry holds their mileages |
| ProfilePoints.AttributeDataOther | src/ProfileRequest.js:178-206 | the attribute loop leaves alone every key that no copied attribute is named after |
| ProfilePoints.AttributeDataLast | src/ProfileRequest.js:206 | an attribute whose name no later copied attribute reuses keeps the bytes gathered for it |
| ProfilePoints.BatchColor | src/ProfileRequest.js:176 | the colour entry is 4 bytes of 100 per accepted point, unless a copied attribute is itself called `color` |
| ProfilePoints.BatchAttribute | src/ProfileRequest.js:178-206 | every copied attribute holds its element type and, for the i-th accepted point, that point's bytes of the attribute in the node's buffer |
| ProfilePoints.GatherAttribute | src/ProfileRequest.js:180-204 | the typed-array copy loop produces exactly the gathered bytes |
| ProfilePoints.CopyRecord | src/ProfileRequest.js:199-203 | one `target.set(source.subarray(start, end), base)` puts the clamped slice at base and leaves the rest of the target as it was |
| ProfilePoints.StorageSize | src/ProfileRequest.js:182-188 | `numElements * accepted.length` elements take `bytes` bytes per accepted point |
| ProfilePoints.CollectPoints | src/ProfileRequest.js:121-236 | the per-node body produces exactly the node's batch for the segment |
| ProfilePoints.AcceptPoints | src/ProfileRequest.js:151-173 | the point loop accepts exactly the indices the corridor test keeps, in increasing order, with their mileages and their three coordinates each |
| ProfilePoints.CopyAttributes | src/ProfileRequest.js:178-206 | the attribute loop stores, under each copied attribute's name, exactly the bytes gathered for it, in the order the attributes are listed |
| ProfileQuery.EmptyData | src/ProfileRequest.js:13 | a new ProfileData has one empty batch list per profile segment |
| ProfileQuery.NoBatches | src/ProfileRequest.js:13 | segments with no batches hold no points |
| ProfileQuery.EmptySize | src/ProfileRequest.js:13 | a new ProfileData has size 0 |
| ProfileQuery.HeaviestExists | src/ProfileRequest.js:17 | a non-empty queue has an element of greatest weight to pop |
| ProfileQuery.RemoveAt | src/ProfileRequest.js:65 | popping removes exactly one element |
| ProfileQuery.PopPushSame | src/ProfileRequest.js:65-85 | popping an element and pushing it back leaves the multiset of the queue unchanged |
| ProfileQuery.IndexOf | src/ProfileRequest.js:264 | `indexOf` is -1 iff the request is absent, and is otherwise its first position |
| ProfileQuery.RemoveFirst | src/ProfileRequest.js:264-267 | with the request absent the list is unchanged; otherwise exactly one occurrence of it goes and every other entry stays |
| ProfileQuery.WithPoints | src/ProfileRequest.js:125-127 | the served nodes that contribute are exactly those with a non-zero point count |
| ProfileQuery.SegmentBatchesMeaning | src/ProfileRequest.js:119-237 | a segment gets one batch per served node that has points, in serving order, each that node's batch for the segment |
| ProfileQuery.Collected | src/ProfileRequest.js:116-240 | the result has one batch list per segment |
| ProfileQuery.DeliverAccounting | src/ProfileRequest.js:89-106 | served plus pending points is conserved and never drops. Progress reports more than 100 points, except the final flush, which reports at least one. Finish comes last exactly when the queue ran empty, nothing is pending then, and no Cancel is added |
| ProfileQuery.Flush | src/ProfileRequest.js:91-105 | the accumulator's points are added to the served count and reported, and the accumulator starts again empty; DeliverAccounting states the conservation |
| ProfileQuery.Deliver | src/ProfileRequest.js:89-113 | a progress report when collected points exceed 100, then on an empty queue a final flush of any points and Finish; specified by DeliverAccounting |
| ProfileQuery.PopStack | src/ProfileRequest.js:37-51 | one turn of the stack loop queues the popped node, and the children it pushes produce the rest of the expansion |
| ProfileQuery.Max | src/ProfileRequest.js:78 | `Math.max` is one of its arguments and at least both |
| ProfileQuery.ProfileRequest.constructor | src/ProfileRequest.js:8-25 | the fields start at their defaults, and the queue is the root at infinite weight followed by the root's expansion |
| ProfileQuery.PushIntersecting | src/ProfileRequest.js:30-50 | the child loop pushes exactly the intersecting children, in slot order |
| ProfileQuery.WalkStack | src/ProfileRequest.js:29-52 | the stack walk pushes exactly the recursive expansion of the node, in depth-first order with the last child first |
| ProfileQuery.ExpandTop | src/ProfileRequest.js:38-51 | one turn pushes the popped node at its bounding-sphere radius and replaces it on the stack by its intersecting children when it is shallower than maxDepth, so that the pushed elements followed by what the stack still produces stay the whole expansion, and the remaining work shrinks |
| ProfileQuery.ProfileRequest.Traverse | src/ProfileRequest.js:28-53 | the stack walk appends exactly the recursive expansion of the node, in its order, and keeps the request valid |
| ProfileQuery.ProfileRequest.GetPointsInsideProfile | src/ProfileRequest.js:116-240 | the result is Collected: each segment's list gains the served nodes' batches with the earlier segments' mileage |
| ProfileQuery.CollectSegment | src/ProfileRequest.js:120-237 | for one segment, the node loop appends one batch per served node with a non-zero point count, in serving order, computed with the mileage of the earlier segments |
| ProfileQuery.ProfileRequest.DeliverResults | src/ProfileRequest.js:89-113 | the callback log, the served count and the accumulator follow Deliver; on an empty queue the request leaves the point cloud's list |
| ProfileQuery.ProfileRequest.ServedFacts | src/ProfileRequest.js:61-87 | at most one node is served, and highestLevelServed never decreases and covers it. A node deeper than maxDepth leaves the queue for good. An unloaded node leaves the queue's multiset unchanged |
| ProfileQuery.ProfileRequest.ServeNext | src/ProfileRequest.js:61-87 | an element of greatest weight is popped, unless the queue is empty. It is then dropped if deeper than maxDepth. If loaded it is served, touched, raises highestLevelServed, and is traversed again exactly when DoTraverse holds. Otherwise it is asked to load and pushed back unchanged |
| ProfileQuery.ProfileRequest.ServeElement | src/ProfileRequest.js:66-86 | a popped node deeper than maxDepth is dropped; a loaded one is served, touched, raises highestLevelServed and is traversed when the level rule or level 0 says so; an unloaded one is requested and pushed back; the request stays valid |
| ProfileQuery.DoTraverse | src/ProfileRequest.js:78-79 | a served node is traversed when its level is a multiple of the hierarchy step and it has children, or when it is the root level; a zero step gives NaN, which is never 0 |
| ProfileQuery.ProfileRequest.Update | src/ProfileRequest.js:55-114 | one serving step, then the served nodes' points are collected into the accumulator and delivered; the request stays valid and maxDepth is unchanged |
| ProfileQuery.ProfileRequest.CollectAndDeliver | src/ProfileRequest.js:89-113 | with served nodes their points are collected into the accumulator first; the callback log, the served count, the accumulator and the point cloud's request list then follow the delivery rules |
| ProfileQuery.ProfileRequest.FinishLevelThenCancel | src/ProfileRequest.js:247-257 | the first call caps maxDepth at highestLevelServed and sets cancelRequested; later calls change nothing |
| ProfileQuery.ProfileRequest.Cancel | src/ProfileRequest.js:259-268 | one Cancel event, an empty queue, and the request removed from the point cloud's list |
| TimerQueries.GLContext.CreateQuery | src/webgl/GLQueries.js:29 | each created query is new |
| TimerQueries.RemainingAppend | src/webgl/GLQueries.js:52-68 | the filter keeps the order: what is kept from a + b is what is kept from a, then from b |
| TimerQueries.GLContext.constructor | src/webgl/GLQueries.js:28 | a context with or without the timer extension, no query created and no call made |
| TimerQueries.RemainingMeaning | src/webgl/GLQueries.js:52-68 | a query is kept exactly when it is not (available and not disjoint), as often as it occurred |
| TimerQueries.RemainingIdempotent | src/webgl/GLQueries.js:52-68 | filtering twice with the same answers is filtering once |
| TimerQueries.ResolvedMeaning | src/webgl/GLQueries.js:73-77 | after `resolve` a name is present iff one of its queries remains, and it then holds exactly the remaining ones; resolving again changes nothing |
| TimerQueries.GLQueries.constructor | src/webgl/GLQueries.js:19-20 | a new registry is bound to its context and holds no names |
| TimerQueries.GLQueries.Create | src/webgl/GLQueries.js:15-21 | the constructor fails iff it is not called from within `forGL` |
| TimerQueries.Listed | src/webgl/GLQueries.js:24-26 | the name is present with its list, or with a new empty one, and every other name is as it was |
| TimerQueries.GLQueries.Start | src/webgl/GLQueries.js:23-35 | the name's list is created if absent; with the extension a new query is begun and appended to it and returned, without it the call fails with a TypeError after creating the list and begins nothing; every other name keeps its list |
| TimerQueries.GLQueries.End | src/webgl/GLQueries.js:37-42 | with the extension the running query is ended; without it the call fails with a TypeError and nothing is logged; the registry is untouched either way |
| TimerQueries.GLQueries.RemainingQueries | src/webgl/GLQueries.js:52-68 | the inner loop collects exactly Remaining |
| TimerQueries.GLQueries.Resolve | src/webgl/GLQueries.js:44-79 | it fails exactly when the extension is missing and some name holds a query; on success the new registry is Resolved of the old one; on failure every remaining name keeps its list and only names that held no query are gone |
| TimerQueries.Registry.constructor | src/webgl/GLQueries.js:1-2 | the registry starts with no contexts and the `cached` flag down |
| TimerQueries.Registry.ForGL | src/webgl/GLQueries.js:5-14 | a context already seen gets its existing registry, with the map unchanged; a new context gets one fresh, empty registry, which is recorded |
| ViewerSettings.Dispatched | src/viewer/Viewer.js:282-287 | a change-guarded setter dispatches one event iff the new value is not `===` the old one |
| ViewerSettings.SetTwice | src/viewer/Viewer.js:282-287 | setting the same value twice records at most one event, except NaN, which records two |
| ViewerSettings.UnitFor | src/viewer/Viewer.js:463-474 | `'m'`, `'ft'` and `'in'` select METER, FEET and INCH, and nothing else selects a unit |
| ViewerSettings.NameRoundTrip | src/viewer/Viewer.js:479-545 | every known material name comes back from its ID, except `'Index'`, which comes back as `'Point Index'`; an unknown name has no ID |
| ViewerSettings.IdRoundTrip | src/viewer/Viewer.js:479-545 | every colour type comes back from its name; `'Index'` is never produced |
| ViewerSettings.ToMaterialID | src/viewer/Viewer.js:479-511 | the colour type of each known material name, `undefined` for any other; NameRoundTrip states it |
| ViewerSettings.ToMaterialName | src/viewer/Viewer.js:513-545 | the material name of each colour type, with the second POINT_INDEX branch unreachable; IdRoundTrip states it |
| ViewerSettings.StrictEquals | src/viewer/Viewer.js:294 | `===` on the setters' values: NaN equals nothing; Dispatched and SetTwice state what the guards then do |
| ViewerSettings.Truthy | src/viewer/Viewer.js:340 | `Boolean(value)`: false exactly for undefined, null, false, 0, NaN and the empty string |
| ViewerSettings.DefaultClassifications | src/viewer/Viewer.js:83-95 | the starting classification table, every class visible, keyed by strings |
| ViewerSettings.Viewer.constructor | src/viewer/Viewer.js:75-209 | the settings start at the field initialisers, then the set-defaults block leaves the EDL strength at 0.4 and the background at 'gradient', dispatching exactly their two change events, with the controls from `createControls` |
| ViewerSettings.Viewer.SetDefaults | src/viewer/Viewer.js:194-204 | each setter of the block in turn: the fields take the defaults, and the events are those each change guard lets through, in call order |
| ViewerSettings.Viewer.GetControls | src/viewer/Viewer.js:266-276 | the controls of the navigation mode, and none for any other value |
| ViewerSettings.Viewer.SetMinNodeSize | src/viewer/Viewer.js:282-287 | the field takes the value, and an event is recorded iff it changed |
| ViewerSettings.Viewer.SetBackground | src/viewer/Viewer.js:293-300 | the same, by an early return |
| ViewerSettings.Viewer.SetShowBoundingBox | src/viewer/Viewer.js:310-315 | the same |
| ViewerSettings.Viewer.SetMoveSpeed | src/viewer/Viewer.js:321-326 | the same, and the event carries the speed |
| ViewerSettings.Viewer.SetFreeze | src/viewer/Viewer.js:339-345 | the field takes the value coerced to a boolean, and an event is recorded iff that changed it |
| ViewerSettings.Viewer.SetShowAnnotations | src/viewer/Viewer.js:362-367 | the field takes the value, and an event is recorded iff it changed |
| ViewerSettings.Viewer.SetDEMCollisionsEnabled | src/viewer/Viewer.js:373-378 | the same |
| ViewerSettings.Viewer.SetEDLEnabled | src/viewer/Viewer.js:384-390 | the field takes the value coerced to a boolean, and an event is recorded iff that changed it |
| ViewerSettings.Viewer.SetEDLRadius | src/viewer/Viewer.js:396-401 | the field takes the value, and an event is recorded iff it changed |
| ViewerSettings.Viewer.SetEDLStrength | src/viewer/Viewer.js:407-412 | the same |
| ViewerSettings.Viewer.SetFOV | src/viewer/Viewer.js:418-423 | the same |
| ViewerSettings.Viewer.SetClassificationVisibility | src/viewer/Viewer.js:453-461 | an absent key gets `{visible: value, name: 'no name'}` and one event. A present key changes only its visibility, and records an event iff that differs |
| ViewerSettings.Viewer.SetLengthUnit | src/viewer/Viewer.js:463-477 | the unit becomes UnitFor(value) when there is one and is kept otherwise; the event carrying the value is recorded either way |

## Left out

- Floating point:
  - the positions and normals the decoder writes are an oracle of twelve bytes per point and attribute (the scale and offset, sphere-map and oct16 decoding);
  - `getFloat32` is not modelled;
  - Float32 models the binary32 encoding only for the non-negative integers below 2^24 the decoder stores.
- The decoder's `mean` and tight-box accumulation are not modelled. The loaders take the worker's mean and box as given.
- The kNN spacing estimate in the decoder is unreachable behind `hasChildren || true` and is not modelled.
- Network and workers:
  - XHR (`open`, `send` and its exception) and `postMessage` are not modelled;
  - a response arrives as a call of `OnReadyStateChange`;
  - a worker's reply arrives as a call of `OnDecoded`.
- The worker pool's implementation is not part of this model. It is taken to keep, per path, a stack of idle workers.
- Loaders.BinaryLoader.Parse: requires the buffer to hold a whole number of records of a positive size. JavaScript's division would otherwise give a fractional, infinite or NaN point count, which the decoder cannot lay out.
- BinaryDecoder.Decode: the same divisibility requirement. It also requires that every converted slot is at least as wide as what the decoder writes into it, because the converter, `toInterleavedBufferAttribute`, is not part of this model.
- `InterleavedBuffer`, `Version`, `Points`, `ProfileData` and `PointColorType` are not part of this model. The model takes the following as their behaviour:
  - the stride is the attributes' bytes rounded up to 4;
  - `offset(name)` is the unrounded sum of the bytes of the earlier attributes;
  - versions compare as (major, minor);
  - `size()` sums the points of every batch;
  - the colour-type constants are distinct.
- The decoder rounds each output offset up to 4, while `InterleavedBuffer.offset` (as taken here) does not; the model keeps both as they are, and AlignedIndexSlot states when they agree.
- The BinaryHeap's implementation is not part of this model. `pop` takes some element of greatest weight, and which one among equal weights is left open. The score `1 / weight` orders radii correctly only for positive radii. The model orders by radius directly.
- ProfileQuery.ProfileRequest.Update: `maxNodesPerUpdate` is 1, so the serving loop runs at most once and is written as one step.
- The profile intersection test, the world matrix and the segment planes are parameters (`intersects`, `QueryGeometry`). Position reads go through `worldPosition`.
- ProfilePoints.AcceptPoints: positions are read through `worldPosition` for every index below `numPoints`; the RangeError `getFloat32` throws when `numPoints` exceeds the records in the node's buffer (a version above 1.5, whose count is not set from the buffer, or a Greyhound trailer larger than the data) is not modelled, and the model returns a batch there.
- ProfilePoints.CollectPoints: the same RangeError is not modelled.
- ProfileQuery.CollectSegment: the same RangeError is not modelled.
- ProfileQuery.ProfileRequest.GetPointsInsideProfile: the same RangeError, which would abort `update` after the serving step, is not modelled.
- The bounding boxes that `getPointsInsideProfile` expands and unions are not modelled; they are floating-point geometry.
- A node whose `numPoints` is undefined or NaN is not modelled; point counts are integers, and zero skips the node as `!numPoints` does.
- ProfilePoints.CollectPoints: requires that each copied attribute's byte count equals its element count times the element size, so that the typed array holds exactly the copied bytes. What the source does with a mismatched attribute is not modelled.
- The LRU cache's `touch`, `node.load()` and the callback are logs of the calls made to them. Their effects are not modelled.
- `cancelRequested` is never read by `update`; only the lowered maxDepth takes effect. The model does not claim that a cancelled request stops.
- Queue entries are not unique: the root is traversed in `initialize` and again when it is served at level 0. The model makes no uniqueness claim.
- TimerQueries.GLQueries.Start: the registry is a map, so a name inherited from `Object.prototype` (`'toString'`) is treated as absent and gets a new list, where the source begins the query and then throws when it calls `push` on the inherited function.
- TimerQueries.GLQueries.Resolve: it visits the names in the map's arbitrary order rather than JavaScript's property order, so without the extension which of the names holding no query are deleted before the throw is left open.
- GL timer queries:
  - query availability and the disjoint flag are oracles;
  - the elapsed-time reads, the logged means and the `deleteQueryEXT` the source never calls are not modelled.
- From `src/viewer/Viewer.js`, only the settings slice is modelled:
  - `setPointBudget` (its `parseInt`), `setDescription`, `setNavigationMode`, `setWeightClassification` and `setClipMode` are not modelled;
  - neither are the camera, rendering, DOM and annotation code.
- ViewerSettings.Viewer.SetClassificationVisibility: property keys are strings; JavaScript's conversion of a numeric key to a string is not modelled. The table is a map, so a key that names a property inherited from `Object.prototype` (`'__proto__'`, `'toString'`) is treated as absent and gets a 'no name' entry, where the source takes its other branch and writes to the inherited object.
- ViewerSettings.Viewer.constructor: `setScene`'s `scene_changed` event and, in the set-defaults block, `setClipMode`, `setPointBudget` (which dispatches `point_budget_changed` unless the global budget already is 1,000,000), `setNavigationMode`, `scaleFactor` and `loadSettingsFromURL` are not modelled; `events` holds only the settings' change events.
- `src/loader/LasLazLoader.js`, `src/utils.js`, `src/tree/PointCloudTreeNode.js` and `gulpfile.js` are not part of this model.
