/**
 * The descendants a profile request puts on its queue: `traverse` walks an explicit stack,
 * and this module gives the same order as a recursive definition.
 */
module Traversal {
  import opened Wrappers
  import opened Octree

  /** How much weight an element carries in the queue; the root enters with `Infinity`. */
  datatype Weight = Infinite | Finite(r: real)

  datatype Element = Element(node: NodeId, weight: Weight)

  /** `maxDepth`; `Number.MAX_VALUE` is Unbounded. */
  datatype Depth = Unbounded | Bounded(limit: int)

  /** `maxDepth || Number.MAX_VALUE`: an absent or zero argument is falsy. */
  function MaxDepthOf(arg: Option<int>): (d: Depth)
    ensures d.Unbounded? <==> arg.None? || arg == Some(0)
    ensures d.Bounded? ==> d.limit == arg.value
  {
    match arg
    case None => Unbounded
    case Some(n) => if n == 0 then Unbounded else Bounded(n)
  }

  /** `level < maxDepth`. */
  predicate Shallower(level: int, d: Depth)
  {
    d.Unbounded? || level < d.limit
  }

  /** `level > maxDepth`. */
  predicate Deeper(level: int, d: Depth)
  {
    d.Bounded? && level > d.limit
  }

  /** The children in slots 0 .. k - 1 that exist and intersect the profile, in slot order. */
  function ChildrenUpTo(r: NodeRecord, intersects: NodeId -> bool, k: nat): (cs: seq<NodeId>)
    requires k <= 8
    ensures forall c | c in cs :: intersects(c) && exists i | 0 <= i < k :: ChildAt(r, i) == Some(c)
    ensures forall i | 0 <= i < k :: ChildAt(r, i).Some? && intersects(ChildAt(r, i).value) ==> ChildAt(r, i).value in cs
  {
    if k == 0 then []
    else
      var cs := ChildrenUpTo(r, intersects, k - 1);
      var c := ChildAt(r, k - 1);
      if c.Some? && intersects(c.value) then cs + [c.value] else cs
  }

  /** The loop over the eight child slots: the intersecting children, in slot order. */
  function IntersectingChildren(r: NodeRecord, intersects: NodeId -> bool): seq<NodeId>
  {
    ChildrenUpTo(r, intersects, 8)
  }

  /** Every node of `st` is in the table at level `low` or deeper. */
  predicate AllFrom(nodes: map<NodeId, NodeRecord>, st: seq<NodeId>, low: nat)
  {
    forall i | 0 <= i < |st| :: st[i] in nodes && nodes[st[i]].level >= low
  }

  lemma ChildrenLevel(nodes: map<NodeId, NodeRecord>, height: nat, id: NodeId, intersects: NodeId -> bool)
    requires TableWf(nodes, height) && id in nodes
    ensures AllFrom(nodes, IntersectingChildren(nodes[id], intersects), nodes[id].level + 1)
    ensures nodes[id].level + 1 <= height + 1
  {
    var cs := IntersectingChildren(nodes[id], intersects);
    forall i | 0 <= i < |cs| ensures cs[i] in nodes && nodes[cs[i]].level >= nodes[id].level + 1 {
      assert cs[i] in cs;
    }
  }

  /** What popping `id` off the stack produces: its element, then, while it is shallower than
      maxDepth, everything its intersecting children produce. */
  function Subtree(nodes: map<NodeId, NodeRecord>, height: nat, id: NodeId, d: Depth,
                   intersects: NodeId -> bool): seq<Element>
    requires TableWf(nodes, height) && id in nodes
    decreases height + 1 - nodes[id].level, 0
  {
    var r := nodes[id];
    ChildrenLevel(nodes, height, id, intersects);
    [Element(id, Finite(r.radius))]
      + (if Shallower(r.level, d) then Pending(nodes, height, IntersectingChildren(r, intersects), r.level + 1, d, intersects) else [])
  }

  /** What a stack produces, top (last) first; `low` bounds the levels on it. */
  function Pending(nodes: map<NodeId, NodeRecord>, height: nat, st: seq<NodeId>, low: nat, d: Depth,
                   intersects: NodeId -> bool): seq<Element>
    requires TableWf(nodes, height) && low <= height + 1 && AllFrom(nodes, st, low)
    decreases height + 1 - low, |st|
  {
    if st == [] then []
    else
      var top := st[|st| - 1];
      Subtree(nodes, height, top, d, intersects)
        + Pending(nodes, height, st[..|st| - 1], low, d, intersects)
  }

  /** What `traverse(id)` pushes: the stack starts with the intersecting children. */
  function Expansion(nodes: map<NodeId, NodeRecord>, height: nat, id: NodeId, d: Depth,
                     intersects: NodeId -> bool): seq<Element>
    requires TableWf(nodes, height) && id in nodes
  {
    ChildrenLevel(nodes, height, id, intersects);
    Pending(nodes, height, IntersectingChildren(nodes[id], intersects), nodes[id].level + 1, d, intersects)
  }

  /** Appending `b` is appending all of it but its last element, then that element. */
  lemma AppendSnoc<T>(a: seq<T>, b: seq<T>)
    requires |b| > 0
    ensures a + b == (a + b[..|b| - 1]) + [b[|b| - 1]]
  {
  }

  /** Concatenation regroups freely. */
  lemma ConcatAssoc<T>(a: seq<T>, b: seq<T>, c: seq<T>)
    ensures (a + b) + c == a + (b + c)
  {
  }

  /** The level bound only serves termination: any valid bound gives the same elements. */
  lemma {:induction false} PendingLow(nodes: map<NodeId, NodeRecord>, height: nat, st: seq<NodeId>,
                                      low: nat, low': nat, d: Depth, intersects: NodeId -> bool)
    requires TableWf(nodes, height) && low <= height + 1 && low' <= height + 1
    requires AllFrom(nodes, st, low) && AllFrom(nodes, st, low')
    ensures Pending(nodes, height, st, low, d, intersects) == Pending(nodes, height, st, low', d, intersects)
    decreases |st|
  {
    if st != [] {
      PendingLow(nodes, height, st[..|st| - 1], low, low', d, intersects);
    }
  }

  /** A non-empty stack produces its top's subtree, then what the rest of it produces. */
  lemma PendingPop(nodes: map<NodeId, NodeRecord>, height: nat, st: seq<NodeId>, low: nat, d: Depth,
                   intersects: NodeId -> bool)
    requires TableWf(nodes, height) && low <= height + 1 && AllFrom(nodes, st, low) && |st| > 0
    ensures st[|st| - 1] in nodes && nodes[st[|st| - 1]].level >= low
    ensures AllFrom(nodes, st[..|st| - 1], low)
    ensures Pending(nodes, height, st, low, d, intersects)
      == Subtree(nodes, height, st[|st| - 1], d, intersects) + Pending(nodes, height, st[..|st| - 1], low, d, intersects)
  {
    var rest := st[..|st| - 1];
    forall i | 0 <= i < |rest| ensures rest[i] in nodes && nodes[rest[i]].level >= low {
      assert rest[i] == st[i];
    }
  }

  /** Pushing one node on a stack: it is worked off first. */
  lemma PendingPush(nodes: map<NodeId, NodeRecord>, height: nat, st: seq<NodeId>, top: NodeId, low: nat,
                    d: Depth, intersects: NodeId -> bool)
    requires TableWf(nodes, height) && low <= height + 1 && AllFrom(nodes, st, low)
    requires top in nodes && nodes[top].level >= low
    ensures AllFrom(nodes, st + [top], low)
    ensures Pending(nodes, height, st + [top], low, d, intersects)
      == Subtree(nodes, height, top, d, intersects) + Pending(nodes, height, st, low, d, intersects)
  {
    assert (st + [top])[..|st|] == st;
  }

  /** What popping `id` produces: its element, then its children's work when it is shallower
      than `d`. */
  lemma SubtreeUnfold(nodes: map<NodeId, NodeRecord>, height: nat, id: NodeId, d: Depth,
                      intersects: NodeId -> bool)
    requires TableWf(nodes, height) && id in nodes
    ensures var r := nodes[id];
      && r.level + 1 <= height + 1
      && AllFrom(nodes, IntersectingChildren(r, intersects), r.level + 1)
      && Subtree(nodes, height, id, d, intersects)
         == [Element(id, Finite(r.radius))]
            + (if Shallower(r.level, d) then Pending(nodes, height, IntersectingChildren(r, intersects), r.level + 1, d, intersects)
               else [])
  {
    ChildrenLevel(nodes, height, id, intersects);
  }

  /** What the children of `id` produce once it is popped: nothing unless it is shallower
      than `d`. */
  ghost function ChildWork(nodes: map<NodeId, NodeRecord>, height: nat, id: NodeId, d: Depth,
                           intersects: NodeId -> bool): seq<Element>
    requires TableWf(nodes, height) && id in nodes
  {
    ChildrenLevel(nodes, height, id, intersects);
    if Shallower(nodes[id].level, d)
    then Pending(nodes, height, IntersectingChildren(nodes[id], intersects), nodes[id].level + 1, d, intersects)
    else []
  }

  /** A non-empty stack produces its top's element, then the top's children's work, then what
      the rest of the stack produces. */
  lemma PendingTop(nodes: map<NodeId, NodeRecord>, height: nat, st: seq<NodeId>, low: nat, d: Depth,
                   intersects: NodeId -> bool)
    requires TableWf(nodes, height) && low <= height + 1 && AllFrom(nodes, st, low) && |st| > 0
    ensures st[|st| - 1] in nodes && nodes[st[|st| - 1]].level >= low
    ensures AllFrom(nodes, st[..|st| - 1], low)
    ensures Pending(nodes, height, st, low, d, intersects)
      == [Element(st[|st| - 1], Finite(nodes[st[|st| - 1]].radius))] + ChildWork(nodes, height, st[|st| - 1], d, intersects)
         + Pending(nodes, height, st[..|st| - 1], low, d, intersects)
  {
    PendingPop(nodes, height, st, low, d, intersects);
    SubtreeUnfold(nodes, height, st[|st| - 1], d, intersects);
  }

  /** Pushing `b` on top of `a`: `b` is worked off first. */
  lemma {:induction false} PendingAppend(nodes: map<NodeId, NodeRecord>, height: nat, a: seq<NodeId>,
                                         b: seq<NodeId>, low: nat, d: Depth, intersects: NodeId -> bool)
    requires TableWf(nodes, height) && low <= height + 1
    requires AllFrom(nodes, a, low) && AllFrom(nodes, b, low)
    ensures AllFrom(nodes, a + b, low)
    ensures Pending(nodes, height, a + b, low, d, intersects)
      == Pending(nodes, height, b, low, d, intersects) + Pending(nodes, height, a, low, d, intersects)
    decreases |b|
  {
    if b == [] {
      assert a + b == a;
    } else {
      PendingPop(nodes, height, b, low, d, intersects);
      PendingAppend(nodes, height, a, b[..|b| - 1], low, d, intersects);
      PendingAppendStep(nodes, height, a, b, low, d, intersects);
    }
  }

  /** The step of `PendingAppend`: from `b` without its top to `b`. */
  lemma PendingAppendStep(nodes: map<NodeId, NodeRecord>, height: nat, a: seq<NodeId>,
                          b: seq<NodeId>, low: nat, d: Depth, intersects: NodeId -> bool)
    requires TableWf(nodes, height) && low <= height + 1 && |b| > 0
    requires AllFrom(nodes, a, low) && AllFrom(nodes, b, low) && AllFrom(nodes, b[..|b| - 1], low)
    requires AllFrom(nodes, a + b[..|b| - 1], low)
    requires Pending(nodes, height, a + b[..|b| - 1], low, d, intersects)
      == Pending(nodes, height, b[..|b| - 1], low, d, intersects) + Pending(nodes, height, a, low, d, intersects)
    ensures AllFrom(nodes, a + b, low)
    ensures Pending(nodes, height, a + b, low, d, intersects)
      == Pending(nodes, height, b, low, d, intersects) + Pending(nodes, height, a, low, d, intersects)
  {
    var b' := b[..|b| - 1];
    var top := b[|b| - 1];
    PendingPop(nodes, height, b, low, d, intersects);
    AppendSnoc(a, b);
    PendingPush(nodes, height, a + b', top, low, d, intersects);
    ConcatAssoc(Subtree(nodes, height, top, d, intersects), Pending(nodes, height, b', low, d, intersects),
                Pending(nodes, height, a, low, d, intersects));
  }

  /** Every element pushed is for a node that intersects the profile, weighted by its
      bounding-sphere radius. */
  lemma {:induction false} PendingWeights(nodes: map<NodeId, NodeRecord>, height: nat, st: seq<NodeId>,
                                          low: nat, d: Depth, intersects: NodeId -> bool)
    requires TableWf(nodes, height) && low <= height + 1 && AllFrom(nodes, st, low)
    requires forall i | 0 <= i < |st| :: intersects(st[i])
    ensures forall e | e in Pending(nodes, height, st, low, d, intersects) ::
      e.node in nodes && intersects(e.node) && e.weight == Finite(nodes[e.node].radius)
    decreases height + 1 - low, |st|
  {
    if st != [] {
      var top := st[|st| - 1];
      var rest := st[..|st| - 1];
      assert AllFrom(nodes, rest, low) && forall i | 0 <= i < |rest| :: intersects(rest[i]) by {
        forall i | 0 <= i < |rest| ensures rest[i] in nodes && nodes[rest[i]].level >= low && intersects(rest[i]) {
          assert rest[i] == st[i];
        }
      }
      PendingWeights(nodes, height, rest, low, d, intersects);
      var r := nodes[top];
      ChildrenLevel(nodes, height, top, intersects);
      var cs := IntersectingChildren(r, intersects);
      if Shallower(r.level, d) {
        assert forall i | 0 <= i < |cs| :: intersects(cs[i]) by {
          forall i | 0 <= i < |cs| ensures intersects(cs[i]) {
            assert cs[i] in cs;
          }
        }
        PendingWeights(nodes, height, cs, r.level + 1, d, intersects);
      }
    }
  }

  /** Element `p` is a parent of node `n`: its node is shallower than `d` and `n` is one of its
      intersecting children. */
  ghost predicate IsParent(nodes: map<NodeId, NodeRecord>, p: Element, n: NodeId, d: Depth, intersects: NodeId -> bool)
  {
    p.node in nodes && Shallower(nodes[p.node].level, d) && n in IntersectingChildren(nodes[p.node], intersects)
  }

  /** Some element of `es` is a parent of `n`. */
  ghost predicate HasParentIn(nodes: map<NodeId, NodeRecord>, es: seq<Element>, n: NodeId, d: Depth,
                              intersects: NodeId -> bool)
    decreases |es|
  {
    es != [] && (IsParent(nodes, es[|es| - 1], n, d, intersects) || HasParentIn(nodes, es[..|es| - 1], n, d, intersects))
  }

  lemma {:induction false} HasParentInMeaning(nodes: map<NodeId, NodeRecord>, es: seq<Element>, n: NodeId, d: Depth,
                                              intersects: NodeId -> bool)
    ensures HasParentIn(nodes, es, n, d, intersects) <==> exists p | p in es :: IsParent(nodes, p, n, d, intersects)
    decreases |es|
  {
    if es != [] {
      var init := es[..|es| - 1];
      var last := es[|es| - 1];
      HasParentInMeaning(nodes, init, n, d, intersects);
      assert es == init + [last];
      if HasParentIn(nodes, es, n, d, intersects) {
        if IsParent(nodes, last, n, d, intersects) {
          assert last in es;
        } else {
          var p :| p in init && IsParent(nodes, p, n, d, intersects);
          assert p in es;
        }
      }
      if exists p | p in es :: IsParent(nodes, p, n, d, intersects) {
        var p :| p in es && IsParent(nodes, p, n, d, intersects);
        if p != last {
          assert p in init;
        }
      }
    }
  }

  /** Every element of `es` is for a node of `roots` or for a child of a parent in `es`. */
  ghost predicate Parented(nodes: map<NodeId, NodeRecord>, es: seq<Element>, roots: seq<NodeId>, d: Depth,
                           intersects: NodeId -> bool)
  {
    forall e | e in es :: e.node in roots || HasParentIn(nodes, es, e.node, d, intersects)
  }

  /** A parent of `n` among the elements of `es` is one among those of any `big` holding them. */
  lemma ParentIn(nodes: map<NodeId, NodeRecord>, es: seq<Element>, big: seq<Element>, n: NodeId, d: Depth,
                 intersects: NodeId -> bool)
    requires HasParentIn(nodes, es, n, d, intersects) && forall p | p in es :: p in big
    ensures HasParentIn(nodes, big, n, d, intersects)
  {
    HasParentInMeaning(nodes, es, n, d, intersects);
    HasParentInMeaning(nodes, big, n, d, intersects);
    var p :| p in es && IsParent(nodes, p, n, d, intersects);
    assert p in big;
  }

  /** The top's element, then its children's elements, then the rest's: each part's parents
      stay parents, and the top's children find their parent in the top. */
  lemma ParentedJoin(nodes: map<NodeId, NodeRecord>, self: Element, sub: seq<Element>, below: seq<Element>,
                     st: seq<NodeId>, cs: seq<NodeId>, d: Depth, intersects: NodeId -> bool)
    requires |st| > 0 && self.node == st[|st| - 1]
    requires Parented(nodes, below, st[..|st| - 1], d, intersects) && Parented(nodes, sub, cs, d, intersects)
    requires sub != [] ==>
      self.node in nodes && Shallower(nodes[self.node].level, d) && cs == IntersectingChildren(nodes[self.node], intersects)
    ensures Parented(nodes, [self] + sub + below, st, d, intersects)
  {
    var P := [self] + sub + below;
    var rest := st[..|st| - 1];
    forall e | e in P
      ensures e.node in st || HasParentIn(nodes, P, e.node, d, intersects)
    {
      if e in below {
        if e.node !in rest {
          ParentIn(nodes, below, P, e.node, d, intersects);
        } else {
          var i :| 0 <= i < |rest| && rest[i] == e.node;
          assert st[i] == e.node;
        }
      } else if e in sub {
        if e.node !in cs {
          ParentIn(nodes, sub, P, e.node, d, intersects);
        } else {
          assert self in P && IsParent(nodes, self, e.node, d, intersects);
          HasParentInMeaning(nodes, P, e.node, d, intersects);
        }
      } else {
        assert e == self;
      }
    }
  }

  /** Every node not on the starting stack was pushed as an intersecting child of a pushed node
      that is shallower than maxDepth. */
  lemma {:induction false} PendingParents(nodes: map<NodeId, NodeRecord>, height: nat, st: seq<NodeId>,
                                          low: nat, d: Depth, intersects: NodeId -> bool)
    requires TableWf(nodes, height) && low <= height + 1 && AllFrom(nodes, st, low)
    ensures Parented(nodes, Pending(nodes, height, st, low, d, intersects), st, d, intersects)
    decreases height + 1 - low, |st|
  {
    if st != [] {
      var top := st[|st| - 1];
      var rest := st[..|st| - 1];
      PendingTop(nodes, height, st, low, d, intersects);
      PendingParents(nodes, height, rest, low, d, intersects);
      var r := nodes[top];
      var cs := IntersectingChildren(r, intersects);
      ChildrenLevel(nodes, height, top, intersects);
      var below := Pending(nodes, height, rest, low, d, intersects);
      if Shallower(r.level, d) {
        var sub := Pending(nodes, height, cs, r.level + 1, d, intersects);
        PendingParents(nodes, height, cs, r.level + 1, d, intersects);
        assert ChildWork(nodes, height, top, d, intersects) == sub;
        ParentedJoin(nodes, Element(top, Finite(r.radius)), sub, below, st, cs, d, intersects);
      } else {
        assert ChildWork(nodes, height, top, d, intersects) == [];
        ParentedJoin(nodes, Element(top, Finite(r.radius)), [], below, st, cs, d, intersects);
      }
    }
  }

  /** Every element pushed is for a node of the table at level `low` or deeper. */
  lemma {:induction false} PendingInTable(nodes: map<NodeId, NodeRecord>, height: nat, st: seq<NodeId>,
                                          low: nat, d: Depth, intersects: NodeId -> bool)
    requires TableWf(nodes, height) && low <= height + 1 && AllFrom(nodes, st, low)
    ensures forall e | e in Pending(nodes, height, st, low, d, intersects) ::
      e.node in nodes && nodes[e.node].level >= low
    decreases height + 1 - low, |st|
  {
    if st != [] {
      var top := st[|st| - 1];
      var rest := st[..|st| - 1];
      assert AllFrom(nodes, rest, low) by {
        forall i | 0 <= i < |rest| ensures rest[i] in nodes && nodes[rest[i]].level >= low {
          assert rest[i] == st[i];
        }
      }
      PendingInTable(nodes, height, rest, low, d, intersects);
      var r := nodes[top];
      ChildrenLevel(nodes, height, top, intersects);
      if Shallower(r.level, d) {
        PendingInTable(nodes, height, IntersectingChildren(r, intersects), r.level + 1, d, intersects);
      }
    }
  }

  /** With a bounded maxDepth, nothing deeper than one level below the bound, or than the
      starting stack, is pushed. */
  lemma {:induction false} PendingDepth(nodes: map<NodeId, NodeRecord>, height: nat, st: seq<NodeId>,
                                        low: nat, d: Depth, intersects: NodeId -> bool)
    requires TableWf(nodes, height) && low <= height + 1 && AllFrom(nodes, st, low) && d.Bounded?
    ensures forall e | e in Pending(nodes, height, st, low, d, intersects) ::
      e.node in nodes && (nodes[e.node].level <= d.limit + 1 || exists i | 0 <= i < |st| :: st[i] == e.node)
    decreases height + 1 - low, |st|
  {
    PendingInTable(nodes, height, st, low, d, intersects);
    if st != [] {
      var top := st[|st| - 1];
      var rest := st[..|st| - 1];
      assert AllFrom(nodes, rest, low) by {
        forall i | 0 <= i < |rest| ensures rest[i] in nodes && nodes[rest[i]].level >= low {
          assert rest[i] == st[i];
        }
      }
      PendingDepth(nodes, height, rest, low, d, intersects);
      var r := nodes[top];
      ChildrenLevel(nodes, height, top, intersects);
      var cs := IntersectingChildren(r, intersects);
      if Shallower(r.level, d) {
        PendingDepth(nodes, height, cs, r.level + 1, d, intersects);
        forall i | 0 <= i < |cs| ensures nodes[cs[i]].level <= d.limit + 1 {
          assert cs[i] in cs;
        }
      }
      forall e | e in Pending(nodes, height, rest, low, d, intersects)
        ensures e.node in nodes && (nodes[e.node].level <= d.limit + 1 || exists i | 0 <= i < |st| :: st[i] == e.node)
      {
        if nodes[e.node].level > d.limit + 1 {
          var i :| 0 <= i < |rest| && rest[i] == e.node;
          assert st[i] == e.node;
        }
      }
      assert st[|st| - 1] == top;
    }
  }
}
