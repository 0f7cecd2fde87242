/**
 * A profile request: a cooperative traversal of a point cloud's octree that, one queue element
 * per `update`, collects the points lying inside a profile's corridor and hands them to a
 * callback in batches.
 *
 * The priority queue is a sequence read as a multiset; `pop` takes an element of greatest
 * weight (the heap's score is `1 / weight`). The callback, the LRU cache and `node.load()` are
 * logs of the calls made to them.
 */
module ProfileQuery {
  import opened Wrappers
  import opened Octree
  import opened Traversal
  import opened ProfilePoints

  /** The accumulated result: for every profile segment, the batches added to it. */
  datatype ProfileData = ProfileData(segments: seq<seq<Points>>)

  /** `new ProfileData(profile)`: one empty batch list per segment. */
  function EmptyData(profile: Profile): (r: ProfileData)
    ensures |r.segments| == |profile.segments|
    ensures forall s | 0 <= s < |r.segments| :: r.segments[s] == []
  {
    ProfileData(seq(|profile.segments|, _ => []))
  }

  /** The number of points in a list of batches. */
  function PointsIn(batches: seq<Points>): nat
  {
    if batches == [] then 0 else PointsIn(batches[..|batches| - 1]) + batches[|batches| - 1].numPoints
  }

  function SizeOf(segments: seq<seq<Points>>): nat
  {
    if segments == [] then 0 else SizeOf(segments[..|segments| - 1]) + PointsIn(segments[|segments| - 1])
  }

  /** `ProfileData.size()`: the points of every batch of every segment. */
  function Size(pd: ProfileData): nat
  {
    SizeOf(pd.segments)
  }

  lemma {:induction false} NoBatches(segments: seq<seq<Points>>)
    requires forall s | 0 <= s < |segments| :: segments[s] == []
    ensures SizeOf(segments) == 0
  {
    if segments != [] {
      NoBatches(segments[..|segments| - 1]);
    }
  }

  lemma EmptySize(profile: Profile)
    ensures Size(EmptyData(profile)) == 0
  {
    NoBatches(EmptyData(profile).segments);
  }

  /** The calls made to the callback. */
  datatype Event = Progress(points: ProfileData) | Finish | Cancelled

  // ---------------------------------------------------------------------------------------
  // The priority queue
  // ---------------------------------------------------------------------------------------

  /** a weighs at least as much as b: `Infinity` above every radius, radii by size. */
  predicate AtLeast(a: Weight, b: Weight)
  {
    a.Infinite? || (b.Finite? && a.r >= b.r)
  }

  /** Element i carries a greatest weight of the queue. */
  predicate Heaviest(q: seq<Element>, i: nat)
    requires i < |q|
  {
    forall j | 0 <= j < |q| :: AtLeast(q[i].weight, q[j].weight)
  }

  /** A non-empty queue has an element to pop. */
  lemma {:induction false} HeaviestExists(q: seq<Element>)
    requires |q| > 0
    ensures exists i | 0 <= i < |q| :: Heaviest(q, i)
  {
    if |q| == 1 {
      assert Heaviest(q, 0);
    } else {
      var init := q[..|q| - 1];
      HeaviestExists(init);
      var i :| 0 <= i < |init| && Heaviest(init, i);
      var last := |q| - 1;
      if AtLeast(q[i].weight, q[last].weight) {
        assert forall j | 0 <= j < |q| :: AtLeast(q[i].weight, q[j].weight) by {
          forall j | 0 <= j < |q| ensures AtLeast(q[i].weight, q[j].weight) {
            if j < last {
              assert init[j] == q[j];
            }
          }
        }
        assert Heaviest(q, i);
      } else {
        assert forall j | 0 <= j < |q| :: AtLeast(q[last].weight, q[j].weight) by {
          forall j | 0 <= j < |q| ensures AtLeast(q[last].weight, q[j].weight) {
            if j < last {
              assert init[j] == q[j];
              assert AtLeast(init[i].weight, init[j].weight);
            }
          }
        }
        assert Heaviest(q, last);
      }
    }
  }

  /** The queue with element i popped. */
  function RemoveAt(q: seq<Element>, i: nat): (r: seq<Element>)
    requires i < |q|
    ensures |r| == |q| - 1
  {
    q[..i] + q[i + 1..]
  }

  /** Popping an element and pushing it back leaves the same multiset of elements. */
  lemma PopPushSame(q: seq<Element>, i: nat)
    requires i < |q|
    ensures multiset(RemoveAt(q, i) + [q[i]]) == multiset(q)
    ensures multiset(RemoveAt(q, i)) == multiset(q) - multiset{q[i]}
  {
    assert q == q[..i] + [q[i]] + q[i + 1..];
    assert multiset(q) == multiset(q[..i]) + multiset{q[i]} + multiset(q[i + 1..]);
  }

  /** `list.indexOf(x)`: the first position of x, or -1. */
  function IndexOf<T(==)>(list: seq<T>, x: T): (i: int)
    ensures -1 <= i < |list|
    ensures i == -1 <==> x !in list
    ensures i >= 0 ==> list[i] == x && x !in list[..i]
  {
    if list == [] then -1
    else if list[0] == x then 0
    else
      var j := IndexOf(list[1..], x);
      assert j >= 0 ==> list[..j + 1] == [list[0]] + list[1..][..j];
      if j == -1 then -1 else j + 1
  }

  /** `let index = list.indexOf(x); if (index >= 0) list.splice(index, 1)`. */
  function RemoveFirst<T(==)>(list: seq<T>, x: T): (r: seq<T>)
    ensures x !in list ==> r == list
    ensures x in list ==> |r| == |list| - 1 && multiset(r) == multiset(list) - multiset{x}
  {
    var index := IndexOf(list, x);
    if index >= 0 then
      assert list == list[..index] + [list[index]] + list[index + 1..];
      assert multiset(list) == multiset(list[..index]) + multiset{x} + multiset(list[index + 1..]);
      list[..index] + list[index + 1..]
    else list
  }

  // ---------------------------------------------------------------------------------------
  // Collecting and delivering points
  // ---------------------------------------------------------------------------------------

  /** `totalMileage` entering segment s: the lengths of the segments before it. */
  function Before(profile: Profile, s: nat): real
    requires s <= |profile.segments|
  {
    if s == 0 then 0.0 else Before(profile, s - 1) + profile.segments[s - 1].length
  }

  /** Every loaded node has a buffer whose copied attributes are sized to their element type. */
  predicate BuffersSized(nodes: map<NodeId, NodeRecord>)
  {
    forall id | id in nodes :: nodes[id].buffer.Some? ==> AttributesSized(nodes[id].buffer.value)
  }

  /** The nodes served that have points. */
  function WithPoints(nodes: map<NodeId, NodeRecord>, served: seq<NodeId>): (r: seq<NodeId>)
    requires forall k | 0 <= k < |served| :: served[k] in nodes
    ensures forall k | 0 <= k < |r| :: r[k] in nodes && nodes[r[k]].numPoints != 0
    ensures forall n | n in served && nodes[n].numPoints != 0 :: n in r
    ensures forall n | n in r :: n in served
  {
    if served == [] then []
    else
      var last := served[|served| - 1];
      WithPoints(nodes, served[..|served| - 1]) + (if nodes[last].numPoints != 0 then [last] else [])
  }

  /** What the served nodes add to segment s, in the order they were served. */
  function SegmentBatches(nodes: map<NodeId, NodeRecord>, g: QueryGeometry, profile: Profile, s: nat,
                          served: seq<NodeId>): seq<Points>
    requires s < |profile.segments|
    requires forall k | 0 <= k < |served| :: served[k] in nodes && nodes[served[k]].buffer.Some?
  {
    if served == [] then []
    else
      var id := served[|served| - 1];
      var r := nodes[id];
      SegmentBatches(nodes, g, profile, s, served[..|served| - 1])
        + (if r.numPoints == 0 then [] else [Batch(g, profile, s, id, r.numPoints, r.buffer.value, Before(profile, s))])
  }

  /** A segment gets one batch per served node that has points, in serving order, each the
      node's batch for that segment. */
  lemma {:induction false} SegmentBatchesMeaning(nodes: map<NodeId, NodeRecord>, g: QueryGeometry, profile: Profile,
                                                 s: nat, served: seq<NodeId>)
    requires s < |profile.segments|
    requires forall k | 0 <= k < |served| :: served[k] in nodes && nodes[served[k]].buffer.Some?
    ensures var withPoints := WithPoints(nodes, served);
      var batches := SegmentBatches(nodes, g, profile, s, served);
      && |batches| == |withPoints|
      && forall k | 0 <= k < |batches| ::
           var r := nodes[withPoints[k]];
           batches[k] == Batch(g, profile, s, withPoints[k], r.numPoints, r.buffer.value, Before(profile, s))
  {
    if served != [] {
      var init := served[..|served| - 1];
      SegmentBatchesMeaning(nodes, g, profile, s, init);
    }
  }

  /** `getPointsInsideProfile(served, target)`: every segment gets the batches of the served
      nodes. */
  function Collected(nodes: map<NodeId, NodeRecord>, g: QueryGeometry, profile: Profile, target: ProfileData,
                     served: seq<NodeId>): (r: ProfileData)
    requires |target.segments| == |profile.segments|
    requires forall k | 0 <= k < |served| :: served[k] in nodes && nodes[served[k]].buffer.Some?
    ensures |r.segments| == |target.segments|
  {
    ProfileData(seq(|target.segments|, s requires 0 <= s < |target.segments| =>
      target.segments[s] + SegmentBatches(nodes, g, profile, s, served)))
  }

  /** The callback log, the points served so far and the points not yet handed over. */
  datatype Delivery = Delivery(events: seq<Event>, pointsServed: int, pending: ProfileData)

  /** `pointsServed += size(); onProgress(...); temporaryResult = new ProfileData(profile)`. */
  function Flush(d: Delivery, empty: ProfileData): Delivery
  {
    Delivery(d.events + [Progress(d.pending)], d.pointsServed + Size(d.pending), empty)
  }

  /** The end of `update`: a batch of more than 100 points is flushed after new points came in;
      an empty queue flushes what is left and finishes. */
  function Deliver(d: Delivery, collected: bool, empty: ProfileData, done: bool): Delivery
  {
    var a := if collected && Size(d.pending) > 100 then Flush(d, empty) else d;
    if !done then a
    else
      var b := if Size(a.pending) > 0 then Flush(a, empty) else a;
      Delivery(b.events + [Finish], b.pointsServed, b.pending)
  }

  /** No point is lost or counted twice: what was served plus what is pending stays the same.
      Progress reports more than 100 points, except the last flush before finishing, which reports
      at least one; Finish comes last, exactly when the queue ran empty, and then nothing is
      pending. */
  lemma DeliverAccounting(d: Delivery, collected: bool, empty: ProfileData, done: bool)
    requires Size(empty) == 0
    ensures var r := Deliver(d, collected, empty, done);
      && r.pointsServed + Size(r.pending) == d.pointsServed + Size(d.pending)
      && r.pointsServed >= d.pointsServed
      && |d.events| <= |r.events| <= |d.events| + 3
      && r.events[..|d.events|] == d.events
      && (forall k | |d.events| <= k < |r.events| ::
            (r.events[k] == Finish <==> done && k == |r.events| - 1)
            && !r.events[k].Cancelled?
            && (r.events[k].Progress? ==>
                  Size(r.events[k].points) > 100
                  || (done && k == |r.events| - 2 && Size(r.events[k].points) > 0)))
      && (done ==> Size(r.pending) == 0)
      && (!done && !collected ==> r == d)
  {
    var a := if collected && Size(d.pending) > 100 then Flush(d, empty) else d;
    assert a.events[..|d.events|] == d.events;
    if done {
      var b := if Size(a.pending) > 0 then Flush(a, empty) else a;
      assert b.events[..|d.events|] == d.events;
      assert (b.events + [Finish])[..|d.events|] == d.events;
    }
  }

  /** One turn of the stack loop: popping the top queues its element, and the children pushed
      in its place, if any, produce the rest of what it stood for. */
  lemma PopStack(nodes: map<NodeId, NodeRecord>, height: nat, stack: seq<NodeId>, d: Depth,
                 intersects: NodeId -> bool)
    requires TableWf(nodes, height) && AllFrom(nodes, stack, 0) && |stack| > 0
    ensures var top := stack[|stack| - 1];
      var r := nodes[top];
      var next := stack[..|stack| - 1] + (if Shallower(r.level, d) then IntersectingChildren(r, intersects) else []);
      && AllFrom(nodes, next, 0)
      && Pending(nodes, height, stack, 0, d, intersects)
         == [Element(top, Finite(r.radius))] + Pending(nodes, height, next, 0, d, intersects)
  {
    var top := stack[|stack| - 1];
    var rest := stack[..|stack| - 1];
    var r := nodes[top];
    assert AllFrom(nodes, rest, 0) by {
      forall i | 0 <= i < |rest| ensures rest[i] in nodes && nodes[rest[i]].level >= 0 {
        assert rest[i] == stack[i];
      }
    }
    var e := Element(top, Finite(r.radius));
    var pRest := Pending(nodes, height, rest, 0, d, intersects);
    assert Pending(nodes, height, stack, 0, d, intersects) == Subtree(nodes, height, top, d, intersects) + pRest;
    if Shallower(r.level, d) {
      ChildrenLevel(nodes, height, top, intersects);
      var cs := IntersectingChildren(r, intersects);
      PendingLow(nodes, height, cs, r.level + 1, 0, d, intersects);
      var pCs := Pending(nodes, height, cs, 0, d, intersects);
      assert Subtree(nodes, height, top, d, intersects) == [e] + pCs;
      PendingAppend(nodes, height, rest, cs, 0, d, intersects);
      ConcatAssoc([e], pCs, pRest);
    } else {
      assert Subtree(nodes, height, top, d, intersects) == [e];
      assert rest + [] == rest;
    }
  }

  /** The loop over a node's eight child slots: the children that exist and intersect the
      profile are pushed in slot order. */
  method PushIntersecting(r: NodeRecord, intersects: NodeId -> bool, stack: seq<NodeId>)
    returns (result: seq<NodeId>)
    ensures result == stack + IntersectingChildren(r, intersects)
  {
    result := stack;
    for i := 0 to 8
      invariant result == stack + ChildrenUpTo(r, intersects, i)
    {
      var child := ChildAt(r, i);
      if child.Some? && intersects(child.value) {
        result := result + [child.value];
      }
    }
  }

  /** The loop state of `traverse`: what has been pushed, followed by what the stack still
      produces, is the whole expansion `goal`. */
  ghost predicate Walked(nodes: map<NodeId, NodeRecord>, height: nat, stack: seq<NodeId>, d: Depth,
                         intersects: NodeId -> bool, pushed: seq<Element>, goal: seq<Element>)
  {
    TableWf(nodes, height) && AllFrom(nodes, stack, 0)
    && pushed + Pending(nodes, height, stack, 0, d, intersects) == goal
  }

  /** How much the stack still produces. */
  ghost function Work(nodes: map<NodeId, NodeRecord>, height: nat, stack: seq<NodeId>, d: Depth,
                      intersects: NodeId -> bool): nat
  {
    if TableWf(nodes, height) && AllFrom(nodes, stack, 0) then |Pending(nodes, height, stack, 0, d, intersects)| else 0
  }

  /** The stack of `traverse(id)` starts with the intersecting children and nothing pushed. */
  lemma WalkStart(nodes: map<NodeId, NodeRecord>, height: nat, id: NodeId, d: Depth, intersects: NodeId -> bool)
    requires TableWf(nodes, height) && id in nodes
    ensures Walked(nodes, height, IntersectingChildren(nodes[id], intersects), d, intersects, [],
                   Expansion(nodes, height, id, d, intersects))
  {
    var cs := IntersectingChildren(nodes[id], intersects);
    ChildrenLevel(nodes, height, id, intersects);
    PendingLow(nodes, height, cs, nodes[id].level + 1, 0, d, intersects);
    assert [] + Pending(nodes, height, cs, 0, d, intersects) == Pending(nodes, height, cs, 0, d, intersects);
  }

  /** With the stack empty, what has been pushed is the whole expansion. */
  lemma WalkEnd(nodes: map<NodeId, NodeRecord>, height: nat, d: Depth, intersects: NodeId -> bool,
                pushed: seq<Element>, goal: seq<Element>)
    requires Walked(nodes, height, [], d, intersects, pushed, goal)
    ensures pushed == goal
  {
    assert pushed + [] == pushed;
  }

  /** The loop of `traverse` over the node table `nodes`: it pops the top of the stack, pushes
      its element, and, while the node is shallower than `d`, pushes its intersecting
      children. */
  method WalkStack(nodes: map<NodeId, NodeRecord>, ghost height: nat, id: NodeId, d: Depth,
                   intersects: NodeId -> bool)
    returns (pushed: seq<Element>)
    requires TableWf(nodes, height) && id in nodes
    ensures pushed == Expansion(nodes, height, id, d, intersects)
  {
    var stack := PushIntersecting(nodes[id], intersects, []);
    assert stack == IntersectingChildren(nodes[id], intersects);
    ghost var goal := Expansion(nodes, height, id, d, intersects);
    WalkStart(nodes, height, id, d, intersects);
    pushed := [];
    while |stack| > 0
      invariant Walked(nodes, height, stack, d, intersects, pushed, goal)
      decreases Work(nodes, height, stack, d, intersects)
    {
      pushed, stack := ExpandTop(nodes, height, stack, d, intersects, pushed, goal);
    }
    WalkEnd(nodes, height, d, intersects, pushed, goal);
  }

  /** One turn of the loop of `traverse`: the top's element is pushed, and the top is replaced
      by its intersecting children when it is shallower than `d`. */
  method ExpandTop(nodes: map<NodeId, NodeRecord>, ghost height: nat, stack: seq<NodeId>, d: Depth,
                   intersects: NodeId -> bool, pushed: seq<Element>, ghost goal: seq<Element>)
    returns (pushed': seq<Element>, next: seq<NodeId>)
    requires Walked(nodes, height, stack, d, intersects, pushed, goal) && |stack| > 0
    ensures Walked(nodes, height, next, d, intersects, pushed', goal)
    ensures Work(nodes, height, next, d, intersects) < Work(nodes, height, stack, d, intersects)
    ensures var r := nodes[stack[|stack| - 1]];
      && pushed' == pushed + [Element(stack[|stack| - 1], Finite(r.radius))]
      && next == stack[..|stack| - 1] + (if Shallower(r.level, d) then IntersectingChildren(r, intersects) else [])
  {
    PopStack(nodes, height, stack, d, intersects);
    var top := stack[|stack| - 1];
    var r := nodes[top];
    var element := Element(top, Finite(r.radius));
    next := stack[..|stack| - 1];
    if Shallower(r.level, d) {
      next := PushIntersecting(r, intersects, next);
    } else {
      assert next + [] == next;
    }
    ghost var later := Pending(nodes, height, next, 0, d, intersects);
    ConcatAssoc(pushed, [element], later);
    pushed' := pushed + [element];
  }

  /** The inner loop of `getPointsInsideProfile`: segment `s` of the result gets the batch of
      every served node that has points, in serving order. */
  method CollectSegment(nodes: map<NodeId, NodeRecord>, g: QueryGeometry, profile: Profile, s: nat,
                        served: seq<NodeId>, list0: seq<Points>, totalMileage: real)
    returns (list: seq<Points>)
    requires s < |profile.segments| && totalMileage == Before(profile, s) && BuffersSized(nodes)
    requires forall k | 0 <= k < |served| :: served[k] in nodes && nodes[served[k]].buffer.Some?
    ensures list == list0 + SegmentBatches(nodes, g, profile, s, served)
  {
    list := list0;
    for k := 0 to |served|
      invariant list == list0 + SegmentBatches(nodes, g, profile, s, served[..k])
    {
      assert served[..k + 1][..k] == served[..k];
      var node := nodes[served[k]];
      var numPoints := node.numPoints;
      var buffer := node.buffer.value;
      if numPoints != 0 {
        var points := CollectPoints(g, profile, s, served[k], numPoints, buffer, totalMileage);
        list := list + [points];
      }
    }
    assert served[..|served|] == served;
  }

  class PointCloud {
    const pcoGeometry: PcoGeometry
    var profileRequests: seq<ProfileRequest>

    constructor (pcoGeometry: PcoGeometry)
      ensures this.pcoGeometry == pcoGeometry && profileRequests == []
    {
      this.pcoGeometry := pcoGeometry;
      profileRequests := [];
    }
  }

  /** `Math.max` on levels. */
  function Max(a: int, b: int): (m: int)
    ensures m >= a && m >= b && (m == a || m == b)
  {
    if a < b then b else a
  }

  /** Whether serving a node at `level` traverses it again: `level % hierarchyStepSize` is NaN,
      hence not 0, for a zero step. */
  predicate DoTraverse(level: nat, hierarchyStepSize: int, hasChildren: bool)
  {
    (hierarchyStepSize != 0 && level % hierarchyStepSize == 0 && hasChildren) || level == 0
  }

  class ProfileRequest {
    const pointcloud: PointCloud
    const profile: Profile
    const geometry: QueryGeometry
    const intersects: NodeId -> bool      // `pointcloud.nodeIntersectsProfile(·, profile)`
    var maxDepth: Depth
    var temporaryResult: ProfileData
    var pointsServed: int
    var highestLevelServed: int
    var cancelRequested: bool
    var queue: seq<Element>
    var events: seq<Event>                // calls to the callback
    var touched: seq<NodeId>              // `context.getLRU().touch(node)`
    var loadRequests: seq<NodeId>         // `node.load()`

    /** The node table of the point cloud's geometry. */
    function Nodes(): map<NodeId, NodeRecord>
      reads pointcloud.pcoGeometry
    {
      pointcloud.pcoGeometry.nodes
    }

    /** The table is a bounded-height octree whose buffers are sized, every queued node is in
        it, and the result has one batch list per segment. */
    ghost predicate Valid(height: nat)
      reads this`queue, this`temporaryResult, pointcloud.pcoGeometry
    {
      var nodes := Nodes();
      && TableWf(nodes, height) && BuffersSized(nodes)
      && (forall i | 0 <= i < |queue| :: queue[i].node in nodes)
      && |temporaryResult.segments| == |profile.segments|
    }

    /** `constructor` and `initialize`: the root enters with infinite weight, then `traverse`
        queues its intersecting descendants. */
    constructor (pointcloud: PointCloud, profile: Profile, maxDepth: Option<int>, intersects: NodeId -> bool,
                 geometry: QueryGeometry, ghost height: nat)
      requires TableWf(pointcloud.pcoGeometry.nodes, height) && BuffersSized(pointcloud.pcoGeometry.nodes)
      requires pointcloud.pcoGeometry.root in pointcloud.pcoGeometry.nodes
      ensures Valid(height)
      ensures this.pointcloud == pointcloud && this.profile == profile && this.geometry == geometry
      ensures this.intersects == intersects && this.maxDepth == MaxDepthOf(maxDepth)
      ensures temporaryResult == EmptyData(profile) && pointsServed == 0 && highestLevelServed == 0
      ensures !cancelRequested && events == [] && touched == [] && loadRequests == []
      ensures var root := pointcloud.pcoGeometry.root;
        queue == [Element(root, Infinite)]
                 + Expansion(pointcloud.pcoGeometry.nodes, height, root, MaxDepthOf(maxDepth), intersects)
    {
      this.pointcloud := pointcloud;
      this.profile := profile;
      this.geometry := geometry;
      this.intersects := intersects;
      this.maxDepth := MaxDepthOf(maxDepth);
      temporaryResult := EmptyData(profile);
      pointsServed := 0;
      highestLevelServed := 0;
      cancelRequested := false;
      queue := [Element(pointcloud.pcoGeometry.root, Infinite)];
      events := [];
      touched := [];
      loadRequests := [];
      new;
      Traverse(pointcloud.pcoGeometry.root, height);
    }

    /** `traverse(node)`: the stack walk queues exactly the elements of the recursive
        expansion, in its order. */
    method Traverse(id: NodeId, ghost height: nat)
      requires Valid(height) && id in Nodes()
      modifies this`queue
      ensures Valid(height)
      ensures queue == old(queue) + Expansion(Nodes(), height, id, maxDepth, intersects)
    {
      var nodes := Nodes();
      var pushed := WalkStack(nodes, height, id, maxDepth, intersects);
      ChildrenLevel(nodes, height, id, intersects);
      PendingInTable(nodes, height, IntersectingChildren(nodes[id], intersects), nodes[id].level + 1, maxDepth, intersects);
      assert forall i | 0 <= i < |pushed| :: pushed[i] in pushed;
      queue := queue + pushed;
    }

    /** `getPointsInsideProfile(nodes, target)`: segment by segment, node by node, the batch of
        every served node that has points, with the mileage of the earlier segments. */
    method GetPointsInsideProfile(served: seq<NodeId>, target: ProfileData) returns (r: ProfileData)
      requires |target.segments| == |profile.segments|
      requires BuffersSized(Nodes())
      requires forall k | 0 <= k < |served| :: served[k] in Nodes() && Nodes()[served[k]].buffer.Some?
      ensures r == Collected(Nodes(), geometry, profile, target, served)
    {
      var nodes := Nodes();
      var segments := target.segments;
      var totalMileage := 0.0;
      for s := 0 to |segments|
        invariant |segments| == |target.segments|
        invariant totalMileage == Before(profile, s)
        invariant forall t | 0 <= t < |segments| ::
          segments[t] == if t < s then target.segments[t] + SegmentBatches(nodes, geometry, profile, t, served)
                         else target.segments[t]
      {
        var list := CollectSegment(nodes, geometry, profile, s, served, segments[s], totalMileage);
        segments := segments[s := list];
        totalMileage := totalMileage + profile.segments[s].length;
      }
      r := ProfileData(segments);
    }

    /** The end of `update`: flushing more than 100 points when some came in, and on an empty
        queue the last flush, `onFinish` and removal from the point cloud's requests. */
    method DeliverResults(collected: bool)
      requires |temporaryResult.segments| == |profile.segments|
      modifies this`temporaryResult, this`pointsServed, this`events, pointcloud`profileRequests
      ensures Delivery(events, pointsServed, temporaryResult)
        == Deliver(Delivery(old(events), old(pointsServed), old(temporaryResult)), collected, EmptyData(profile), queue == [])
      ensures pointcloud.profileRequests
        == if queue == [] then RemoveFirst(old(pointcloud.profileRequests), this) else old(pointcloud.profileRequests)
      ensures |temporaryResult.segments| == |profile.segments|
    {
      if collected {
        if Size(temporaryResult) > 100 {
          pointsServed := pointsServed + Size(temporaryResult);
          events := events + [Progress(temporaryResult)];
          temporaryResult := EmptyData(profile);
        }
      }
      if |queue| == 0 {
        if Size(temporaryResult) > 0 {
          pointsServed := pointsServed + Size(temporaryResult);
          events := events + [Progress(temporaryResult)];
          temporaryResult := EmptyData(profile);
        }
        events := events + [Finish];
        pointcloud.profileRequests := RemoveFirst(pointcloud.profileRequests, this);
      }
    }

    /** What the serving loop of `update` leaves, from queue `q0`, LRU log `touched0`, load log
        `load0` and `highestLevelServed` `high0`: nothing is popped from an empty queue;
        otherwise element `popped` is one of greatest weight, and its node is dropped when
        deeper than maxDepth, served when loaded (touched, its level raising highestLevelServed,
        traversed again at hierarchy steps and at the root), or asked to load with its element
        pushed back. */
    ghost predicate Served(height: nat, q0: seq<Element>, touched0: seq<NodeId>, load0: seq<NodeId>,
                           high0: int, popped: Option<nat>, served: seq<NodeId>)
      reads this`queue, this`touched, this`loadRequests, this`highestLevelServed, this`maxDepth, pointcloud.pcoGeometry
      requires TableWf(Nodes(), height) && forall i | 0 <= i < |q0| :: q0[i].node in Nodes()
    {
      && (popped.None? <==> q0 == [])
      && (popped.None? ==>
            queue == q0 && served == [] && touched == touched0 && loadRequests == load0
            && highestLevelServed == high0)
      && (popped.Some? ==>
            && popped.value < |q0| && Heaviest(q0, popped.value)
            && ServedElement(height, q0[popped.value], RemoveAt(q0, popped.value), touched0, load0, high0, served))
    }

    /** What serving element `e` leaves, from queue `rest` without it: its node is dropped when
        deeper than maxDepth, served when loaded (touched, its level raising highestLevelServed,
        traversed again at hierarchy steps and at the root), or asked to load with its element
        pushed back. */
    ghost predicate ServedElement(height: nat, e: Element, rest: seq<Element>, touched0: seq<NodeId>,
                                  load0: seq<NodeId>, high0: int, served: seq<NodeId>)
      reads this`queue, this`touched, this`loadRequests, this`highestLevelServed, this`maxDepth, pointcloud.pcoGeometry
      requires TableWf(Nodes(), height) && e.node in Nodes()
    {
      var r := Nodes()[e.node];
      if Deeper(r.level, maxDepth) then
        queue == rest && served == [] && touched == touched0 && loadRequests == load0
        && highestLevelServed == high0
      else if r.loaded then
        queue == rest + (if DoTraverse(r.level, pointcloud.pcoGeometry.hierarchyStepSize, r.hasChildren)
                         then Expansion(Nodes(), height, e.node, maxDepth, intersects) else [])
        && served == [e.node] && touched == touched0 + [e.node] && loadRequests == load0
        && highestLevelServed == Max(r.level, high0)
      else
        queue == rest + [e] && served == [] && touched == touched0 && loadRequests == load0 + [e.node]
        && highestLevelServed == high0
    }

    /** What one serving step promises: at most one node is served; highestLevelServed never
        decreases and covers the served node; an unloaded node leaves the queue's multiset of
        elements as it was; a node deeper than maxDepth leaves it for good; and only a served
        node can add elements. */
    lemma ServedFacts(height: nat, q0: seq<Element>, touched0: seq<NodeId>, load0: seq<NodeId>,
                      high0: int, popped: Option<nat>, served: seq<NodeId>)
      requires TableWf(Nodes(), height) && forall i | 0 <= i < |q0| :: q0[i].node in Nodes()
      requires Served(height, q0, touched0, load0, high0, popped, served)
      ensures |served| <= 1 && highestLevelServed >= high0
      ensures forall n | n in served :: n in Nodes() && Nodes()[n].loaded && highestLevelServed >= Nodes()[n].level
      ensures popped.Some? ==>
        var e := q0[popped.value];
        var r := Nodes()[e.node];
        && (Deeper(r.level, maxDepth) ==> multiset(queue) == multiset(q0) - multiset{e})
        && (!Deeper(r.level, maxDepth) && !r.loaded ==> multiset(queue) == multiset(q0))
        && (served == [] ==> |queue| <= |q0|)
    {
      if popped.Some? {
        PopPushSame(q0, popped.value);
      }
    }

    /** The loop of `update`, which runs `Math.min(maxNodesPerUpdate, size())` times for a
        `maxNodesPerUpdate` of 1: once when the queue is not empty. */
    method ServeNext(ghost height: nat) returns (ghost popped: Option<nat>, intersectedNodes: seq<NodeId>)
      requires Valid(height)
      modifies this`queue, this`touched, this`loadRequests, this`highestLevelServed
      ensures Valid(height)
      ensures Served(height, old(queue), old(touched), old(loadRequests), old(highestLevelServed), popped, intersectedNodes)
      ensures forall k | 0 <= k < |intersectedNodes| ::
        intersectedNodes[k] in Nodes() && Nodes()[intersectedNodes[k]].buffer.Some?
    {
      ghost var q0, touched0, load0, high0 := queue, touched, loadRequests, highestLevelServed;
      popped := None;
      intersectedNodes := [];
      if |queue| > 0 {
        HeaviestExists(queue);
        var i :| 0 <= i < |queue| && Heaviest(queue, i);
        popped := Some(i);
        var element := queue[i];
        assert forall j | 0 <= j < |RemoveAt(queue, i)| :: RemoveAt(queue, i)[j] in queue;
        queue := RemoveAt(queue, i);
        intersectedNodes := ServeElement(height, element);
        ServedPopped(height, q0, touched0, load0, high0, i, intersectedNodes);
      }
    }

    /** Serving the element at index `i`, one of greatest weight, is a serving step that pops it. */
    lemma ServedPopped(height: nat, q0: seq<Element>, touched0: seq<NodeId>, load0: seq<NodeId>,
                       high0: int, i: nat, served: seq<NodeId>)
      requires TableWf(Nodes(), height) && forall j | 0 <= j < |q0| :: q0[j].node in Nodes()
      requires i < |q0| && Heaviest(q0, i)
      requires ServedElement(height, q0[i], RemoveAt(q0, i), touched0, load0, high0, served)
      ensures Served(height, q0, touched0, load0, high0, Some(i), served)
    {
    }

    /** The body of the loop of `update` once element `e` has been popped off the queue. */
    method ServeElement(ghost height: nat, e: Element) returns (intersectedNodes: seq<NodeId>)
      requires Valid(height) && e.node in Nodes()
      modifies this`queue, this`touched, this`loadRequests, this`highestLevelServed
      ensures Valid(height)
      ensures ServedElement(height, e, old(queue), old(touched), old(loadRequests), old(highestLevelServed), intersectedNodes)
      ensures forall k | 0 <= k < |intersectedNodes| ::
        intersectedNodes[k] in Nodes() && Nodes()[intersectedNodes[k]].buffer.Some?
    {
      var node := Nodes()[e.node];
      intersectedNodes := [];
      if Deeper(node.level, maxDepth) {
      } else if node.loaded {
        intersectedNodes := [e.node];
        touched := touched + [e.node];
        highestLevelServed := Max(node.level, highestLevelServed);
        var step := pointcloud.pcoGeometry.hierarchyStepSize;
        var doTraverse := step != 0 && node.level % step == 0 && node.hasChildren;
        doTraverse := doTraverse || node.level == 0;
        if doTraverse {
          Traverse(e.node, height);
        }
      } else {
        loadRequests := loadRequests + [e.node];
        queue := queue + [e];
      }
    }

    /** `update()`: the serving loop, then the points of the served node are collected and
        the results delivered. */
    method Update(ghost height: nat) returns (ghost popped: Option<nat>, ghost served: seq<NodeId>)
      requires Valid(height)
      modifies this`queue, this`touched, this`loadRequests, this`highestLevelServed
      modifies this`temporaryResult, this`pointsServed, this`events, pointcloud`profileRequests
      ensures Valid(height)
      ensures maxDepth == old(maxDepth) && cancelRequested == old(cancelRequested)
      ensures Served(height, old(queue), old(touched), old(loadRequests), old(highestLevelServed), popped, served)
      ensures forall k | 0 <= k < |served| :: served[k] in Nodes() && Nodes()[served[k]].buffer.Some?
      ensures Delivery(events, pointsServed, temporaryResult)
        == Deliver(Delivery(old(events), old(pointsServed),
                            if served == [] then old(temporaryResult)
                            else Collected(Nodes(), geometry, profile, old(temporaryResult), served)),
                   served != [], EmptyData(profile), queue == [])
      ensures pointcloud.profileRequests
        == if queue == [] then RemoveFirst(old(pointcloud.profileRequests), this) else old(pointcloud.profileRequests)
    {
      var intersectedNodes;
      popped, intersectedNodes := ServeNext(height);
      served := intersectedNodes;
      CollectAndDeliver(intersectedNodes);
    }

    /** After the serving loop of `update`: the points of the served nodes, if any, are
        collected into the result, which is then delivered. */
    method CollectAndDeliver(served: seq<NodeId>)
      requires |temporaryResult.segments| == |profile.segments| && BuffersSized(Nodes())
      requires forall k | 0 <= k < |served| :: served[k] in Nodes() && Nodes()[served[k]].buffer.Some?
      modifies this`temporaryResult, this`pointsServed, this`events, pointcloud`profileRequests
      ensures |temporaryResult.segments| == |profile.segments|
      ensures Delivery(events, pointsServed, temporaryResult)
        == Deliver(Delivery(old(events), old(pointsServed),
                            if served == [] then old(temporaryResult)
                            else Collected(Nodes(), geometry, profile, old(temporaryResult), served)),
                   served != [], EmptyData(profile), queue == [])
      ensures pointcloud.profileRequests
        == if queue == [] then RemoveFirst(old(pointcloud.profileRequests), this) else old(pointcloud.profileRequests)
    {
      if |served| > 0 {
        temporaryResult := GetPointsInsideProfile(served, temporaryResult);
      }
      DeliverResults(|served| > 0);
    }

    /** `finishLevelThenCancel()`: the first call caps maxDepth at the highest level served so
        far; later calls change nothing. */
    method FinishLevelThenCancel()
      modifies this`maxDepth, this`cancelRequested
      ensures cancelRequested
      ensures old(cancelRequested) ==> maxDepth == old(maxDepth)
      ensures !old(cancelRequested) ==> maxDepth == Bounded(highestLevelServed)
    {
      if cancelRequested {
        return;
      }
      maxDepth := Bounded(highestLevelServed);
      cancelRequested := true;
    }

    /** `cancel()`: `onCancel`, an empty queue, and the request leaves the point cloud's list. */
    method Cancel()
      modifies this`events, this`queue, pointcloud`profileRequests
      ensures events == old(events) + [Cancelled] && queue == []
      ensures pointcloud.profileRequests == RemoveFirst(old(pointcloud.profileRequests), this)
    {
      events := events + [Cancelled];
      queue := [];
      pointcloud.profileRequests := RemoveFirst(pointcloud.profileRequests, this);
    }
  }
}
