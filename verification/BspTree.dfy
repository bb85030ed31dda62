/**
  The offline builder of the line-of-sight tree (`bsp_tree.c`).  A queue of pending nodes is worked
  off; each node becomes a leaf that keeps its triangles or is split along its longest axis.
 */
module BspTree {
  import opened Bits
  import opened Geometry
  import opened Aabb

  const MAX_TRIANGLES_PER_NODE: nat := 4
  const MIN_AXIS_LENGTH: real := 0.01
  const MAX_DEPTH: nat := 16

  /** Index 0, the root, is never a child, so 0 stands for no child. */
  datatype Node = Node(triangles: seq<Tri>, left: nat, right: nat, bounds: Box)

  datatype Pending = Pending(index: nat, depth: nat, triangles: seq<Tri>)

  // ----- Splitting a node

  function LongestAxis(e: Vec): (Axis, real) {
    if e.z > e.x && e.z > e.y then (AxisZ, e.z)
    else if e.y > e.x then (AxisY, e.y)
    else (AxisX, e.x)
  }

  function LeftOf(tris: seq<Tri>, b1: Box): seq<Tri> {
    if tris == [] then []
    else LeftOf(tris[..|tris| - 1], b1) + (if MayContain(b1, tris[|tris| - 1]) then [tris[|tris| - 1]] else [])
  }

  /** A triangle that lies wholly in the first half is not offered to the second. */
  predicate GoesRight(b1: Box, b2: Box, tri: Tri) { ClipOr(b1, tri) != 0 && MayContain(b2, tri) }

  function RightOf(tris: seq<Tri>, b1: Box, b2: Box): seq<Tri> {
    if tris == [] then []
    else RightOf(tris[..|tris| - 1], b1, b2) + (if GoesRight(b1, b2, tris[|tris| - 1]) then [tris[|tris| - 1]] else [])
  }

  function BoundsOf(tris: seq<Tri>): Box {
    if tris == [] then EMPTY else AddTriangle(BoundsOf(tris[..|tris| - 1]), tris[|tris| - 1])
  }

  lemma {:induction false} LeftMembers(tris: seq<Tri>, b1: Box, tri: Tri)
    ensures tri in LeftOf(tris, b1) <==> tri in tris && MayContain(b1, tri)
  {
    if tris != [] {
      LeftMembers(tris[..|tris| - 1], b1, tri);
      assert tris == tris[..|tris| - 1] + [tris[|tris| - 1]];
    }
  }

  lemma {:induction false} RightMembers(tris: seq<Tri>, b1: Box, b2: Box, tri: Tri)
    ensures tri in RightOf(tris, b1, b2) <==> tri in tris && GoesRight(b1, b2, tri)
  {
    if tris != [] {
      RightMembers(tris[..|tris| - 1], b1, b2, tri);
      assert tris == tris[..|tris| - 1] + [tris[|tris| - 1]];
    }
  }

  /** The bounds of a list hold every triangle of it. */
  lemma {:induction false} BoundsHold(tris: seq<Tri>, tri: Tri)
    requires tri in tris
    ensures ContainsTri(BoundsOf(tris), tri) && Proper(BoundsOf(tris))
  {
    var front := tris[..|tris| - 1];
    if tri in front {
      BoundsHold(front, tri);
    } else {
      assert tris == front + [tris[|tris| - 1]];
    }
  }

  lemma HullInBox(box: Box, tri: Tri, p: Vec)
    requires ContainsTri(box, tri) && InHull(tri, p)
    ensures Contains(box, p)
  {
  }

  /** The box of a child: the bounds of its triangles, clamped to its half. */
  function ChildBounds(tris: seq<Tri>, half: Box): Box { Clamp(BoundsOf(tris), half) }

  /** A point of a triangle in a half that offered the triangle stays in the child's box. */
  lemma ChildHolds(tris: seq<Tri>, half: Box, tri: Tri, p: Vec)
    requires tri in tris && Proper(half) && InHull(tri, p) && Contains(half, p)
    ensures Contains(ChildBounds(tris, half), p)
  {
    hide BoundsOf, Clamp, InHull, Contains;
    BoundsHold(tris, tri);
    HullInBox(BoundsOf(tris), tri, p);
    ClampKeeps(BoundsOf(tris), half, p);
  }

  /** Every point that a triangle of the node has in the node's box is passed on, with the triangle, to a child. */
  lemma SplitPassesOn(bounds: Box, axis: Axis, tris: seq<Tri>, tri: Tri, p: Vec)
    requires Proper(bounds) && tri in tris && InHull(tri, p) && Contains(bounds, p)
    ensures var (b1, b2) := Split(bounds, axis);
            var (l, r) := (LeftOf(tris, b1), RightOf(tris, b1, b2));
            || (tri in l && Contains(ChildBounds(l, b1), p))
            || (tri in r && Contains(ChildBounds(r, b2), p))
  {
    hide Split, Contains, InHull, MayContain, ClipOr, LeftOf, RightOf, ChildBounds;
    var (b1, b2) := Split(bounds, axis);
    var (l, r) := (LeftOf(tris, b1), RightOf(tris, b1, b2));
    SplitCovers(bounds, axis, p);
    ClipCodes(b1, tri);
    ClipCodes(b2, tri);
    LeftMembers(tris, b1, tri);
    RightMembers(tris, b1, b2, tri);
    if ClipOr(b1, tri) == 0 {
      HullInBox(b1, tri, p);
    }
    if Contains(b1, p) {
      PointKeepsTriangle(b1, tri, p);
      ChildHolds(l, b1, tri, p);
    } else {
      PointKeepsTriangle(b2, tri, p);
      ChildHolds(r, b2, tri, p);
    }
  }

  /** The partition loop of bsp_tree_recurse. */
  method Partition(tris: seq<Tri>, b1: Box, b2: Box) returns (l: seq<Tri>, r: seq<Tri>, lb: Box, rb: Box)
    ensures l == LeftOf(tris, b1) && r == RightOf(tris, b1, b2)
    ensures lb == BoundsOf(l) && rb == BoundsOf(r)
  {
    l, r, lb, rb := [], [], EMPTY, EMPTY;
    for i := 0 to |tris|
      invariant l == LeftOf(tris[..i], b1) && r == RightOf(tris[..i], b1, b2)
      invariant lb == BoundsOf(l) && rb == BoundsOf(r)
    {
      hide AddTriangle, ClipOr, ClipAnd;
      assert tris[..i + 1][..i] == tris[..i];
      var tri := tris[i];
      var orCode := ClipOr(b1, tri);
      if MayContain(b1, tri) {
        lb := AddTriangle(lb, tri);
        l := l + [tri];
      }
      if orCode != 0 && MayContain(b2, tri) {
        rb := AddTriangle(rb, tri);
        r := r + [tri];
      }
    }
    assert tris[..|tris|] == tris;
  }

  // ----- The tree under construction

  /** The child holds the triangle and its box holds the point. */
  ghost predicate Holds(nodes: seq<Node>, held: seq<seq<Tri>>, c: nat, tri: Tri, p: Vec) {
    0 < c < |nodes| && c < |held| && tri in held[c] && Contains(nodes[c].bounds, p)
  }

  /** Every point that a triangle of node i has in the box of node i is also held by a child. */
  ghost predicate PassesOn(nodes: seq<Node>, held: seq<seq<Tri>>, i: nat)
    requires i < |nodes| == |held|
  {
    forall tri, p :: tri in held[i] && InHull(tri, p) && Contains(nodes[i].bounds, p) ==>
      Holds(nodes, held, nodes[i].left, tri, p) || Holds(nodes, held, nodes[i].right, tri, p)
  }

  /** A child link is absent or leads to a later node that holds only triangles of its parent. */
  ghost predicate LinkOk(held: seq<seq<Tri>>, i: nat, c: nat)
    requires i < |held|
  {
    c != 0 ==> i < c < |held| && forall tri :: tri in held[c] ==> tri in held[i]
  }

  /** Every triangle of node i is also held by a child. */
  ghost predicate Distributes(held: seq<seq<Tri>>, i: nat, left: nat, right: nat)
    requires i < |held|
  {
    forall tri :: tri in held[i] ==> InChild(held, left, tri) || InChild(held, right, tri)
  }

  ghost predicate InChild(held: seq<seq<Tri>>, c: nat, tri: Tri) { 0 < c < |held| && tri in held[c] }

  ghost predicate IsLeaf(nodes: seq<Node>, held: seq<seq<Tri>>, i: nat)
    requires i < |nodes| == |held|
  {
    nodes[i].left == 0 && nodes[i].right == 0 && nodes[i].triangles == held[i]
  }

  ghost predicate IsInner(nodes: seq<Node>, held: seq<seq<Tri>>, i: nat)
    requires i < |nodes| == |held|
  {
    && nodes[i].triangles == []
    && LinkOk(held, i, nodes[i].left) && LinkOk(held, i, nodes[i].right)
    && (nodes[i].left != 0 && nodes[i].right != 0 ==> nodes[i].left != nodes[i].right)
    && PassesOn(nodes, held, i) && Distributes(held, i, nodes[i].left, nodes[i].right)
  }

  ghost predicate IsDone(nodes: seq<Node>, held: seq<seq<Tri>>, i: nat)
    requires i < |nodes| == |held|
  {
    IsLeaf(nodes, held, i) || IsInner(nodes, held, i)
  }

  ghost predicate IsPending(stack: seq<Pending>, i: nat) { exists k :: 0 <= k < |stack| && stack[k].index == i }

  ghost predicate PendingOk(nodes: seq<Node>, held: seq<seq<Tri>>, e: Pending) {
    && e.index < |nodes| == |held| && e.depth <= MAX_DEPTH
    && held[e.index] == e.triangles && nodes[e.index] == Node([], 0, 0, nodes[e.index].bounds)
  }

  /** c is linked to as a child of node i. */
  ghost predicate ChildOf(nodes: seq<Node>, i: nat, c: nat)
    requires i < |nodes|
  {
    c != 0 && (nodes[i].left == c || nodes[i].right == c)
  }

  ghost predicate HasParent(nodes: seq<Node>, c: nat) { exists i :: 0 <= i < c && i < |nodes| && ChildOf(nodes, i, c) }

  /** Every node but the root has exactly one parent, and an earlier one. */
  ghost predicate OneParent(nodes: seq<Node>) {
    && (forall c :: 0 < c < |nodes| ==> HasParent(nodes, c))
    && (forall i, j, c: nat :: 0 <= i < j < |nodes| && ChildOf(nodes, i, c) ==> !ChildOf(nodes, j, c))
    && (forall i, c: nat :: 0 <= i < |nodes| && ChildOf(nodes, i, c) ==> c < |nodes|)
  }

  /** The box of a node that holds triangles is proper and excludes none of them. */
  ghost predicate BoxOk(box: Box, tris: seq<Tri>) {
    (tris != [] ==> Proper(box)) && forall tri :: tri in tris ==> !Excludes(box, tri)
  }

  ghost predicate Growing(nodes: seq<Node>, held: seq<seq<Tri>>, stack: seq<Pending>) {
    && |nodes| == |held| > 0
    && (forall i :: 0 <= i < |nodes| ==> IsPending(stack, i) || IsDone(nodes, held, i))
    && (forall k :: 0 <= k < |stack| ==> PendingOk(nodes, held, stack[k]))
    && (forall j, k :: 0 <= j < k < |stack| ==> stack[j].index != stack[k].index)
    && (forall i :: 0 <= i < |nodes| ==> BoxOk(nodes[i].bounds, held[i]))
    && OneParent(nodes)
  }

  /** The tree keeps what it was built from: the root holds the input, and its box holds their points. */
  ghost predicate RootOk(nodes: seq<Node>, held: seq<seq<Tri>>, input: seq<Tri>) {
    |nodes| == |held| > 0 && held[0] == input && nodes[0].bounds == BoundsOf(input)
  }

  /** Nodes stay done while nodes are appended and other nodes get their links or triangles. */
  lemma DoneKept(nodes: seq<Node>, held: seq<seq<Tri>>, nodes': seq<Node>, held': seq<seq<Tri>>, i: nat)
    requires i < |nodes| == |held| <= |nodes'| == |held'| && IsDone(nodes, held, i) && nodes'[i] == nodes[i]
    requires held <= held' && forall k :: 0 <= k < |nodes| ==> nodes'[k].bounds == nodes[k].bounds
    ensures IsDone(nodes', held', i)
  {
    hide Contains, InHull;
    if IsInner(nodes, held, i) {
      forall tri, p | tri in held'[i] && InHull(tri, p) && Contains(nodes'[i].bounds, p)
        ensures Holds(nodes', held', nodes'[i].left, tri, p) || Holds(nodes', held', nodes'[i].right, tri, p)
      {
        assert Holds(nodes, held, nodes[i].left, tri, p) || Holds(nodes, held, nodes[i].right, tri, p);
      }
    }
  }

  /** The front entry becomes a leaf. */
  lemma LeafStep(nodes: seq<Node>, held: seq<seq<Tri>>, stack: seq<Pending>)
    requires Growing(nodes, held, stack) && stack != []
    ensures var e := stack[0];
            Growing(nodes[e.index := nodes[e.index].(triangles := e.triangles)], held, stack[1..])
  {
    hide Contains, InHull, BoxOk, IsInner;
    var e := stack[0];
    assert PendingOk(nodes, held, e);
    var nodes' := nodes[e.index := nodes[e.index].(triangles := e.triangles)];
    forall i | 0 <= i < |nodes'| ensures IsPending(stack[1..], i) || IsDone(nodes', held, i) {
      if i == e.index {
        assert IsLeaf(nodes', held, i);
      } else if IsPending(stack, i) {
        var k :| 0 <= k < |stack| && stack[k].index == i;
        assert stack[1..][k - 1].index == i;
      } else {
        DoneKept(nodes, held, nodes', held, i);
      }
    }
    forall k | 0 <= k < |stack[1..]| ensures PendingOk(nodes', held, stack[1..][k]) {
      assert PendingOk(nodes, held, stack[k + 1]);
    }
    forall i, c: nat | 0 <= i < |nodes'| ensures ChildOf(nodes', i, c) <==> ChildOf(nodes, i, c) {}
    forall c | 0 < c < |nodes'| ensures HasParent(nodes', c) {
      assert HasParent(nodes, c);
      var i :| 0 <= i < c && i < |nodes| && ChildOf(nodes, i, c);
      assert ChildOf(nodes', i, c);
    }
    forall i | 0 <= i < |nodes'| ensures BoxOk(nodes'[i].bounds, held[i]) { assert nodes'[i].bounds == nodes[i].bounds; }
  }

  /** The index that a child gets when n nodes exist; an empty child is not added. */
  function ChildIndex(tris: seq<Tri>, n: nat): nat { if tris == [] then 0 else n }

  function ChildNodes(tris: seq<Tri>, box: Box): seq<Node> { if tris == [] then [] else [Node([], 0, 0, box)] }

  function ChildEntries(tris: seq<Tri>, n: nat, depth: nat): seq<Pending> {
    if tris == [] then [] else [Pending(n, depth, tris)]
  }

  ghost function ChildHeld(tris: seq<Tri>): seq<seq<Tri>> { if tris == [] then [] else [tris] }

  /** What a split gives: the children's triangles are the node's, none is lost, their boxes are proper and
      exclude none of theirs, and every point that a triangle has in the node's box is passed on with the
      triangle. */
  ghost predicate Halves(bounds: Box, tris: seq<Tri>, l: seq<Tri>, r: seq<Tri>, lb: Box, rb: Box) {
    && (forall tri :: tri in l || tri in r ==> tri in tris)
    && (forall tri :: tri in tris ==> tri in l || tri in r)
    && BoxOk(lb, l) && BoxOk(rb, r)
    && (forall tri, p :: tri in tris && InHull(tri, p) && Contains(bounds, p) ==>
          (tri in l && Contains(lb, p)) || (tri in r && Contains(rb, p)))
  }

  /** The tree and the queue after the front entry has been split into up to two children. */
  ghost predicate Replaced(nodes: seq<Node>, held: seq<seq<Tri>>, stack: seq<Pending>, nodes': seq<Node>, held': seq<seq<Tri>>, stack': seq<Pending>,
                           l: seq<Tri>, r: seq<Tri>, lb: Box, rb: Box)
    requires stack != [] && stack[0].index < |nodes| == |held|
  {
    var e, n, rest := stack[0], |nodes|, |stack| - 1;
    var n2 := n + |ChildHeld(l)|;
    && |nodes'| == |held'| == n2 + |ChildHeld(r)| && |stack'| == rest + |ChildHeld(l)| + |ChildHeld(r)|
    && held <= held'
    && (forall i :: 0 <= i < n && i != e.index ==> nodes'[i] == nodes[i])
    && nodes'[e.index] == Node([], ChildIndex(l, n), ChildIndex(r, n2), nodes[e.index].bounds)
    && (forall k :: 0 <= k < rest ==> stack'[k] == stack[k + 1])
    && (l != [] ==> nodes'[n] == Node([], 0, 0, lb) && held'[n] == l && stack'[rest] == Pending(n, e.depth + 1, l))
    && (r != [] ==> nodes'[n2] == Node([], 0, 0, rb) && held'[n2] == r && stack'[|stack'| - 1] == Pending(n2, e.depth + 1, r))
  }

  lemma ReplacedDone(nodes: seq<Node>, held: seq<seq<Tri>>, stack: seq<Pending>, nodes': seq<Node>, held': seq<seq<Tri>>, stack': seq<Pending>,
                     l: seq<Tri>, r: seq<Tri>, lb: Box, rb: Box, i: nat)
    requires Growing(nodes, held, stack) && stack != [] && PendingOk(nodes, held, stack[0])
    requires Halves(nodes[stack[0].index].bounds, stack[0].triangles, l, r, lb, rb)
    requires Replaced(nodes, held, stack, nodes', held', stack', l, r, lb, rb) && i < |nodes'|
    ensures IsPending(stack', i) || IsDone(nodes', held', i)
  {
    hide Contains, InHull, BoxOk, IsInner, IsLeaf, OneParent;
    var e, n := stack[0], |nodes|;
    if i == e.index {
      SplitStepDone(nodes, held, nodes', held', e, l, r);
    } else if i < n {
      if IsPending(stack, i) {
        var k :| 0 <= k < |stack| && stack[k].index == i;
        assert stack'[k - 1].index == i;
      } else {
        DoneKept(nodes, held, nodes', held', i);
      }
    } else {
      assert i == n && l != [] ==> stack'[|stack| - 1].index == i;
      assert !(i == n && l != []) ==> stack'[|stack'| - 1].index == i;
    }
  }

  lemma ReplacedPending(nodes: seq<Node>, held: seq<seq<Tri>>, stack: seq<Pending>, nodes': seq<Node>, held': seq<seq<Tri>>, stack': seq<Pending>,
                        l: seq<Tri>, r: seq<Tri>, lb: Box, rb: Box)
    requires Growing(nodes, held, stack) && stack != [] && PendingOk(nodes, held, stack[0]) && stack[0].depth < MAX_DEPTH
    requires Replaced(nodes, held, stack, nodes', held', stack', l, r, lb, rb)
    ensures forall k :: 0 <= k < |stack'| ==> PendingOk(nodes', held', stack'[k])
    ensures forall j, k :: 0 <= j < k < |stack'| ==> stack'[j].index != stack'[k].index
  {
    hide IsDone, OneParent, BoxOk, Halves;
    var rest := |stack| - 1;
    forall k | 0 <= k < rest ensures PendingOk(nodes', held', stack'[k]) && stack'[k].index < |nodes| {
      assert stack'[k] == stack[k + 1] && PendingOk(nodes, held, stack[k + 1]);
    }
  }

  /** Splitting keeps the invariant of the loop. */
  lemma ReplacedGrows(nodes: seq<Node>, held: seq<seq<Tri>>, stack: seq<Pending>, nodes': seq<Node>, held': seq<seq<Tri>>, stack': seq<Pending>,
                      l: seq<Tri>, r: seq<Tri>, lb: Box, rb: Box)
    requires Growing(nodes, held, stack) && stack != [] && PendingOk(nodes, held, stack[0]) && stack[0].depth < MAX_DEPTH
    requires Halves(nodes[stack[0].index].bounds, stack[0].triangles, l, r, lb, rb)
    requires Replaced(nodes, held, stack, nodes', held', stack', l, r, lb, rb)
    ensures Growing(nodes', held', stack')
  {
    var n := |nodes|;
    forall i | 0 <= i < |nodes'| ensures IsPending(stack', i) || IsDone(nodes', held', i) {
      ReplacedDone(nodes, held, stack, nodes', held', stack', l, r, lb, rb, i);
    }
    hide IsPending, IsDone, OneParent, BoxOk;
    ReplacedPending(nodes, held, stack, nodes', held', stack', l, r, lb, rb);
    SplitStepParents(nodes, nodes', stack[0].index, ChildIndex(l, n), ChildIndex(r, n + |ChildHeld(l)|));
    hide PendingOk;
    forall i | 0 <= i < |nodes'| ensures BoxOk(nodes'[i].bounds, held'[i]) {
      assert i < n ==> held'[i] == held[i] && nodes'[i].bounds == nodes[i].bounds;
    }
  }

  /** The front entry is split: its triangles are passed on to up to two children, queued at the end. */
  lemma SplitStep(nodes: seq<Node>, held: seq<seq<Tri>>, stack: seq<Pending>, l: seq<Tri>, r: seq<Tri>, lb: Box, rb: Box)
    requires Growing(nodes, held, stack) && stack != [] && stack[0].depth < MAX_DEPTH
    requires stack[0].index < |nodes| && Halves(nodes[stack[0].index].bounds, stack[0].triangles, l, r, lb, rb)
    ensures var e, n := stack[0], |nodes|;
            var n2 := n + |ChildNodes(l, lb)|;
            Growing((nodes + ChildNodes(l, lb) + ChildNodes(r, rb))[e.index := Node([], ChildIndex(l, n), ChildIndex(r, n2), nodes[e.index].bounds)],
                    held + ChildHeld(l) + ChildHeld(r),
                    stack[1..] + ChildEntries(l, n, e.depth + 1) + ChildEntries(r, n2, e.depth + 1))
  {
    var e, n := stack[0], |nodes|;
    assert PendingOk(nodes, held, e) && |nodes| == |held|;
    hide Growing, Halves, PendingOk;
    var n2 := n + |ChildNodes(l, lb)|;
    var nodes' := (nodes + ChildNodes(l, lb) + ChildNodes(r, rb))[e.index := Node([], ChildIndex(l, n), ChildIndex(r, n2), nodes[e.index].bounds)];
    var held' := held + ChildHeld(l) + ChildHeld(r);
    var stack' := stack[1..] + ChildEntries(l, n, e.depth + 1) + ChildEntries(r, n2, e.depth + 1);
    SplitReplaces(nodes, held, stack, l, r, lb, rb, n2);
    hide Replaced;
    ReplacedGrows(nodes, held, stack, nodes', held', stack', l, r, lb, rb);
  }

  lemma SplitReplaces(nodes: seq<Node>, held: seq<seq<Tri>>, stack: seq<Pending>, l: seq<Tri>, r: seq<Tri>, lb: Box, rb: Box, n2: nat)
    requires stack != [] && stack[0].index < |nodes| == |held| && n2 == |nodes| + (if l == [] then 0 else 1)
    ensures var e, n := stack[0], |nodes|;
            Replaced(nodes, held, stack,
                     (nodes + ChildNodes(l, lb) + ChildNodes(r, rb))[e.index := Node([], ChildIndex(l, n), ChildIndex(r, n2), nodes[e.index].bounds)],
                     held + ChildHeld(l) + ChildHeld(r),
                     stack[1..] + ChildEntries(l, n, e.depth + 1) + ChildEntries(r, n2, e.depth + 1), l, r, lb, rb)
  {
  }

  lemma SplitStepDone(nodes: seq<Node>, held: seq<seq<Tri>>, nodes': seq<Node>, held': seq<seq<Tri>>, e: Pending, l: seq<Tri>, r: seq<Tri>)
    requires PendingOk(nodes, held, e) && |nodes'| == |held'| && held <= held' && e.index < |nodes| < |nodes'| + 1
    requires forall tri :: tri in l || tri in r <==> tri in e.triangles
    requires nodes'[e.index].triangles == [] && nodes'[e.index].bounds == nodes[e.index].bounds
    requires nodes'[e.index].left == ChildIndex(l, |nodes|) && (l != [] ==> |nodes| < |nodes'| && held'[|nodes|] == l)
    requires var n2 := |nodes| + |ChildHeld(l)|;
             nodes'[e.index].right == ChildIndex(r, n2) && (r != [] ==> n2 < |nodes'| && held'[n2] == r)
    requires forall tri, p :: tri in e.triangles && InHull(tri, p) && Contains(nodes[e.index].bounds, p) ==>
               || (tri in l && Contains(nodes'[nodes'[e.index].left].bounds, p))
               || (tri in r && Contains(nodes'[nodes'[e.index].right].bounds, p))
    ensures IsInner(nodes', held', e.index)
  {
    hide Contains, InHull;
    forall tri, p | tri in held'[e.index] && InHull(tri, p) && Contains(nodes'[e.index].bounds, p)
      ensures Holds(nodes', held', nodes'[e.index].left, tri, p) || Holds(nodes', held', nodes'[e.index].right, tri, p)
    {
      assert tri in e.triangles;
    }
  }

  /** Only the split node gets links; all others are as before. */
  lemma OldLink(nodes: seq<Node>, nodes': seq<Node>, at: nat, i: nat, c: nat)
    requires OneParent(nodes) && i < |nodes'| && i != at && |nodes| <= |nodes'| && ChildOf(nodes', i, c)
    requires i < |nodes| ==> nodes'[i] == nodes[i]
    requires i >= |nodes| ==> nodes'[i].left == 0 && nodes'[i].right == 0
    ensures i < |nodes| && ChildOf(nodes, i, c) && c < |nodes|
  {
    assert i < |nodes|;
    assert ChildOf(nodes, i, c);
  }

  lemma SplitStepParents(nodes: seq<Node>, nodes': seq<Node>, at: nat, left: nat, right: nat)
    requires OneParent(nodes) && at < |nodes| <= |nodes'| && nodes[at].left == 0 && nodes[at].right == 0
    requires forall i :: 0 <= i < |nodes| && i != at ==> nodes'[i] == nodes[i]
    requires forall i :: |nodes| <= i < |nodes'| ==> nodes'[i].left == 0 && nodes'[i].right == 0
    requires nodes'[at].left == left && nodes'[at].right == right
    requires (left != 0 ==> |nodes| <= left < |nodes'|) && (right != 0 ==> |nodes| <= right < |nodes'|)
    requires left != right || left == 0
    requires |nodes'| == |nodes| + (if left == 0 then 0 else 1) + (if right == 0 then 0 else 1)
    ensures OneParent(nodes')
  {
    forall i, c: nat | 0 <= i < |nodes'| && i != at && ChildOf(nodes', i, c) ensures i < |nodes| && ChildOf(nodes, i, c) && c < |nodes| {
      OldLink(nodes, nodes', at, i, c);
    }
    forall c | 0 < c < |nodes'| ensures HasParent(nodes', c) {
      if c < |nodes| {
        assert HasParent(nodes, c);
        var i :| 0 <= i < c && i < |nodes| && ChildOf(nodes, i, c);
        assert i != at && nodes'[i] == nodes[i];
        assert ChildOf(nodes', i, c);
      } else {
        assert c == left || c == right;
        assert ChildOf(nodes', at, c);
      }
    }
    forall i, j, c: nat | 0 <= i < j < |nodes'| && ChildOf(nodes', i, c) ensures !ChildOf(nodes', j, c) {
      assert i != at ==> ChildOf(nodes, i, c) && c < |nodes|;
      assert j != at && ChildOf(nodes', j, c) ==> c < |nodes|;
    }
  }

  /** A triangle that a proper box does not exclude goes to a half of it. */
  lemma GoesSomewhere(bounds: Box, axis: Axis, tri: Tri)
    requires Proper(bounds) && !Excludes(bounds, tri)
    ensures var (b1, b2) := Split(bounds, axis); MayContain(b1, tri) || GoesRight(b1, b2, tri)
  {
    var (b1, b2) := Split(bounds, axis);
    SplitCovers(bounds, axis, bounds.lo);
    ClipCodes(b1, tri);
    ClipCodes(b2, tri);
    hide ClipOr, ClipAnd, MayContain;
    assert ContainsTri(b1, tri) ==> !Excludes(b1, tri);
  }

  /** The box of a child excludes none of the triangles that its half does not exclude. */
  lemma ChildBoxOk(tris: seq<Tri>, half: Box)
    requires Proper(half) && forall tri :: tri in tris ==> MayContain(half, tri)
    ensures BoxOk(ChildBounds(tris, half), tris)
  {
    forall tri | tri in tris ensures !Excludes(ChildBounds(tris, half), tri) && Proper(ChildBounds(tris, half)) {
      BoundsHold(tris, tri);
      ClipCodes(half, tri);
      hide MayContain, BoundsOf;
      ClampExcludes(BoundsOf(tris), half, tri);
    }
    if tris != [] { assert tris[0] in tris; }
  }

  lemma ClampExcludes(box: Box, half: Box, tri: Tri)
    requires Proper(box) && Proper(half) && ContainsTri(box, tri) && !Excludes(half, tri)
    ensures Proper(Clamp(box, half)) && !Excludes(Clamp(box, half), tri)
  {
  }

  lemma SplitSound(bounds: Box, axis: Axis, tris: seq<Tri>)
    requires Proper(bounds) && BoxOk(bounds, tris)
    ensures var (b1, b2) := Split(bounds, axis);
            var (l, r) := (LeftOf(tris, b1), RightOf(tris, b1, b2));
            Halves(bounds, tris, l, r, ChildBounds(l, b1), ChildBounds(r, b2))
  {
    hide Split, Contains, InHull, LeftOf, RightOf, ChildBounds, Proper, MayContain, ClipOr, Excludes;
    var (b1, b2) := Split(bounds, axis);
    var (l, r) := (LeftOf(tris, b1), RightOf(tris, b1, b2));
    SplitCovers(bounds, axis, bounds.lo);
    forall tri ensures tri in l <==> tri in tris && MayContain(b1, tri) { LeftMembers(tris, b1, tri); }
    forall tri ensures tri in r <==> tri in tris && GoesRight(b1, b2, tri) { RightMembers(tris, b1, b2, tri); }
    forall tri | tri in tris ensures tri in l || tri in r { GoesSomewhere(bounds, axis, tri); }
    ChildBoxOk(l, b1);
    ChildBoxOk(r, b2);
    hide BoxOk;
    forall tri, p | tri in tris && InHull(tri, p) && Contains(bounds, p)
      ensures (tri in l && Contains(ChildBounds(l, b1), p)) || (tri in r && Contains(ChildBounds(r, b2), p))
    {
      SplitPassesOn(bounds, axis, tris, tri, p);
    }
  }

  // ----- Termination and the triangle count

  /** A pending node outweighs the children it may be replaced by. */
  ghost function Weight(depth: nat): (w: nat)
    requires depth <= MAX_DEPTH
    ensures w > 0
  {
    Pow2(MAX_DEPTH + 1 - depth) - 1
  }

  ghost predicate Shallow(stack: seq<Pending>) { forall k :: 0 <= k < |stack| ==> stack[k].depth <= MAX_DEPTH }

  ghost function TotalWeight(stack: seq<Pending>): nat
    requires Shallow(stack)
  {
    if stack == [] then 0 else Weight(stack[0].depth) + TotalWeight(stack[1..])
  }

  lemma {:induction false} WeightAppend(stack: seq<Pending>, e: Pending)
    requires Shallow(stack)
    requires e.depth <= MAX_DEPTH
    ensures TotalWeight(stack + [e]) == TotalWeight(stack) + Weight(e.depth)
  {
    hide Weight;
    if stack == [] {
      assert TotalWeight([]) == 0 && [e][1..] == [];
    } else {
      WeightAppend(stack[1..], e);
      assert (stack + [e])[1..] == stack[1..] + [e];
    }
  }

  lemma WeightHalves(depth: nat)
    requires depth < MAX_DEPTH
    ensures Weight(depth) == 2 * Weight(depth + 1) + 1
  {
  }

  lemma ShallowChild(stack: seq<Pending>, tris: seq<Tri>, n: nat, d: nat)
    requires d <= MAX_DEPTH && Shallow(stack)
    ensures Shallow(stack + ChildEntries(tris, n, d))
  {
    var entries := ChildEntries(tris, n, d);
    assert forall k :: 0 <= k < |entries| ==> entries[k].depth == d;
    hide ChildEntries;
  }

  /** An entry that is split weighs more than the two that take its place, so building ends. */
  lemma SplitWeighsLess(stack: seq<Pending>, rest: seq<Pending>, mid: seq<Pending>, stack': seq<Pending>, l: seq<Tri>, r: seq<Tri>,
                        n: nat, n2: nat)
    requires stack != [] && Shallow(stack) && stack[0].depth < MAX_DEPTH
    requires rest == stack[1..] && mid == rest + ChildEntries(l, n, stack[0].depth + 1)
    requires stack' == mid + ChildEntries(r, n2, stack[0].depth + 1)
    ensures Shallow(stack') && TotalWeight(stack') < TotalWeight(stack)
  {
    hide Weight, TotalWeight, ChildEntries, Shallow;
    var d := stack[0].depth;
    WeightHalves(d);
    WeightFirst(stack, rest);
    WeightOfChild(rest, mid, l, n, d + 1);
    WeightOfChild(mid, stack', r, n2, d + 1);
  }

  lemma WeightFirst(stack: seq<Pending>, rest: seq<Pending>)
    requires stack != [] && Shallow(stack) && rest == stack[1..]
    ensures stack[0].depth <= MAX_DEPTH && Shallow(rest)
    ensures TotalWeight(stack) == Weight(stack[0].depth) + TotalWeight(rest)
  {
    hide Weight;
  }

  lemma WeightOfChild(stack: seq<Pending>, after: seq<Pending>, tris: seq<Tri>, n: nat, d: nat)
    requires d <= MAX_DEPTH && Shallow(stack) && after == stack + ChildEntries(tris, n, d)
    ensures Shallow(after) && TotalWeight(after) <= TotalWeight(stack) + Weight(d)
  {
    hide TotalWeight, Weight, Shallow;
    ShallowChild(stack, tris, n, d);
    if tris != [] {
      WeightAppend(stack, Pending(n, d, tris));
    } else {
      assert after == stack;
    }
  }

  /** The number of triangles kept in the first n nodes. */
  ghost function Kept(nodes: seq<Node>): nat {
    if nodes == [] then 0 else Kept(nodes[..|nodes| - 1]) + |nodes[|nodes| - 1].triangles|
  }

  lemma {:induction false} KeptUpdate(nodes: seq<Node>, i: nat, node: Node)
    requires i < |nodes|
    ensures Kept(nodes[i := node]) == Kept(nodes) - |nodes[i].triangles| + |node.triangles|
  {
    var front := nodes[..|nodes| - 1];
    if i < |front| {
      KeptUpdate(front, i, node);
      assert nodes[i := node][..|nodes| - 1] == front[i := node];
    } else {
      assert nodes[i := node][..|nodes| - 1] == front;
    }
  }

  lemma KeptAppend(nodes: seq<Node>, node: Node)
    ensures Kept(nodes + [node]) == Kept(nodes) + |node.triangles|
  {
    assert (nodes + [node])[..|nodes|] == nodes;
  }

  // ----- One split, whole

  function SplitNodes(nodes: seq<Node>, e: Pending, axis: Axis): seq<Node>
    requires e.index < |nodes|
  {
    var (b1, b2) := Split(nodes[e.index].bounds, axis);
    var (l, r) := (LeftOf(e.triangles, b1), RightOf(e.triangles, b1, b2));
    var n := |nodes|;
    var n2 := n + (if l == [] then 0 else 1);
    (nodes + ChildNodes(l, ChildBounds(l, b1)) + ChildNodes(r, ChildBounds(r, b2)))[
      e.index := Node([], ChildIndex(l, n), ChildIndex(r, n2), nodes[e.index].bounds)]
  }

  ghost function SplitHeld(held: seq<seq<Tri>>, nodes: seq<Node>, e: Pending, axis: Axis): seq<seq<Tri>>
    requires e.index < |nodes|
  {
    var (b1, b2) := Split(nodes[e.index].bounds, axis);
    held + ChildHeld(LeftOf(e.triangles, b1)) + ChildHeld(RightOf(e.triangles, b1, b2))
  }

  /** The queue after its front entry was split. */
  ghost function Queue(stack: seq<Pending>, nodes: seq<Node>, axis: Axis): seq<Pending>
    requires stack != [] && stack[0].index < |nodes|
  {
    var e, n := stack[0], |nodes|;
    var (b1, b2) := Split(nodes[e.index].bounds, axis);
    var (l, r) := (LeftOf(e.triangles, b1), RightOf(e.triangles, b1, b2));
    stack[1..] + ChildEntries(l, n, e.depth + 1) + ChildEntries(r, n + (if l == [] then 0 else 1), e.depth + 1)
  }

  lemma SplitTurn(nodes: seq<Node>, held: seq<seq<Tri>>, stack: seq<Pending>, axis: Axis)
    requires Growing(nodes, held, stack) && stack != [] && stack[0].triangles != [] && stack[0].depth < MAX_DEPTH
    ensures PendingOk(nodes, held, stack[0])
    ensures Growing(SplitNodes(nodes, stack[0], axis), SplitHeld(held, nodes, stack[0], axis), Queue(stack, nodes, axis))
  {
    hide Growing, Split, Halves, LeftOf, RightOf, ChildBounds, Proper, Excludes;
    FrontOk(nodes, held, stack);
    var e := stack[0];
    var (b1, b2) := Split(nodes[e.index].bounds, axis);
    var (l, r) := (LeftOf(e.triangles, b1), RightOf(e.triangles, b1, b2));
    SplitSound(nodes[e.index].bounds, axis, e.triangles);
    SplitStep(nodes, held, stack, l, r, ChildBounds(l, b1), ChildBounds(r, b2));
  }

  lemma SplitTurnWeighsLess(nodes: seq<Node>, held: seq<seq<Tri>>, stack: seq<Pending>, axis: Axis)
    requires Growing(nodes, held, stack) && stack != [] && stack[0].depth < MAX_DEPTH
    ensures PendingOk(nodes, held, stack[0])
    ensures Shallow(stack)
    ensures Shallow(Queue(stack, nodes, axis))
    ensures TotalWeight(Queue(stack, nodes, axis)) < TotalWeight(stack)
  {
    hide Growing, Split, LeftOf, RightOf, Weight, TotalWeight;
    FrontOk(nodes, held, stack);
    var e := stack[0];
    var (b1, b2) := Split(nodes[e.index].bounds, axis);
    var (l, r) := (LeftOf(e.triangles, b1), RightOf(e.triangles, b1, b2));
    var mid := stack[1..] + ChildEntries(l, |nodes|, e.depth + 1);
    SplitWeighsLess(stack, stack[1..], mid, Queue(stack, nodes, axis), l, r, |nodes|, |nodes| + (if l == [] then 0 else 1));
  }

  lemma FrontOk(nodes: seq<Node>, held: seq<seq<Tri>>, stack: seq<Pending>)
    requires Growing(nodes, held, stack) && stack != []
    ensures PendingOk(nodes, held, stack[0]) && BoxOk(nodes[stack[0].index].bounds, stack[0].triangles)
    ensures Shallow(stack)
  {
    hide IsDone, OneParent, Proper, Excludes;
    forall k | 0 <= k < |stack| ensures stack[k].depth <= MAX_DEPTH { assert PendingOk(nodes, held, stack[k]); }
    assert PendingOk(nodes, held, stack[0]);
  }

  lemma SetTwice<T>(a: seq<T>, b: seq<T>, i: nat, x: T, y: T)
    requires i < |a|
    ensures (a[i := x] + b)[i := y] == (a + b)[i := y]
  {
  }

  // ----- When a node is split, and where

  /** Why a node keeps its triangles. */
  ghost predicate KeepsRight(node: Node, tris: seq<Tri>, depth: nat) {
    && node.left == 0 && node.right == 0 && node.triangles == tris
    && (|tris| <= MAX_TRIANGLES_PER_NODE || LongestAxis(Extent(node.bounds)).1 <= MIN_AXIS_LENGTH || depth == MAX_DEPTH)
  }

  /** The link leads to a node with these triangles, this box and this depth, or nowhere if there are none. */
  ghost predicate ChildFits(nodes: seq<Node>, held: seq<seq<Tri>>, depths: seq<nat>, c: nat, tris: seq<Tri>, box: Box, depth: nat)
    requires |nodes| == |held| == |depths|
  {
    if tris == [] then c == 0 else 0 < c < |nodes| && held[c] == tris && nodes[c].bounds == box && depths[c] == depth
  }

  /** Why a node is split, and into what. */
  ghost predicate SplitsRight(nodes: seq<Node>, held: seq<seq<Tri>>, depths: seq<nat>, i: nat)
    requires i < |nodes| == |held| == |depths|
  {
    var (axis, length) := LongestAxis(Extent(nodes[i].bounds));
    var (b1, b2) := Split(nodes[i].bounds, axis);
    var (l, r) := (LeftOf(held[i], b1), RightOf(held[i], b1, b2));
    && nodes[i].triangles == [] && |held[i]| > MAX_TRIANGLES_PER_NODE && length > MIN_AXIS_LENGTH && depths[i] < MAX_DEPTH
    && ChildFits(nodes, held, depths, nodes[i].left, l, ChildBounds(l, b1), depths[i] + 1)
    && ChildFits(nodes, held, depths, nodes[i].right, r, ChildBounds(r, b2), depths[i] + 1)
  }

  ghost predicate Divided(nodes: seq<Node>, held: seq<seq<Tri>>, depths: seq<nat>, stack: seq<Pending>) {
    && |nodes| == |held| == |depths| > 0 && depths[0] == 0
    && (forall k :: 0 <= k < |stack| ==> stack[k].index < |depths| && depths[stack[k].index] == stack[k].depth)
    && forall i :: 0 <= i < |nodes| ==> IsPending(stack, i) || KeepsRight(nodes[i], held[i], depths[i]) || SplitsRight(nodes, held, depths, i)
  }

  /** What a later step leaves of a node that has been split. */
  lemma SplitKept(nodes: seq<Node>, held: seq<seq<Tri>>, depths: seq<nat>, nodes': seq<Node>, held': seq<seq<Tri>>, depths': seq<nat>, i: nat)
    requires i < |nodes| == |held| == |depths| && |nodes'| == |held'| == |depths'| && SplitsRight(nodes, held, depths, i)
    requires held <= held' && depths <= depths' && nodes'[i] == nodes[i]
    requires forall k :: 0 <= k < |nodes| ==> nodes'[k].bounds == nodes[k].bounds
    ensures SplitsRight(nodes', held', depths', i)
  {
    hide LongestAxis, Split, LeftOf, RightOf, ChildBounds;
  }

  lemma LeafDivides(nodes: seq<Node>, held: seq<seq<Tri>>, depths: seq<nat>, stack: seq<Pending>)
    requires Growing(nodes, held, stack) && Divided(nodes, held, depths, stack) && stack != []
    requires PendingOk(nodes, held, stack[0])
    requires var e := stack[0];
             || |e.triangles| <= MAX_TRIANGLES_PER_NODE
             || LongestAxis(Extent(nodes[e.index].bounds)).1 <= MIN_AXIS_LENGTH
             || e.depth == MAX_DEPTH
    ensures var e := stack[0];
            Divided(nodes[e.index := nodes[e.index].(triangles := e.triangles)], held, depths, stack[1..])
  {
    hide IsDone, OneParent, BoxOk, LongestAxis, SplitsRight;
    var e := stack[0];
    var nodes' := nodes[e.index := nodes[e.index].(triangles := e.triangles)];
    forall i | 0 <= i < |nodes'|
      ensures IsPending(stack[1..], i) || KeepsRight(nodes'[i], held[i], depths[i]) || SplitsRight(nodes', held, depths, i)
    {
      if i == e.index {
        assert KeepsRight(nodes'[i], held[i], depths[i]);
      } else if IsPending(stack, i) {
        var k :| 0 <= k < |stack| && stack[k].index == i;
        assert stack[1..][k - 1].index == i;
      } else if SplitsRight(nodes, held, depths, i) {
        SplitKept(nodes, held, depths, nodes', held, depths, i);
      }
    }
  }

  /** The depths after the front entry has been split into up to two children. */
  ghost function ChildDepths(depths: seq<nat>, n: nat, depth: nat): (r: seq<nat>)
    requires |depths| <= n
    ensures |r| == n && depths <= r && forall i :: |depths| <= i < n ==> r[i] == depth
  {
    depths + seq(n - |depths|, _ => depth)
  }

  lemma ReplacedDivides(nodes: seq<Node>, held: seq<seq<Tri>>, depths: seq<nat>, stack: seq<Pending>,
                        nodes': seq<Node>, held': seq<seq<Tri>>, stack': seq<Pending>, l: seq<Tri>, r: seq<Tri>, lb: Box, rb: Box)
    requires Growing(nodes, held, stack) && Divided(nodes, held, depths, stack) && stack != [] && PendingOk(nodes, held, stack[0])
    requires Replaced(nodes, held, stack, nodes', held', stack', l, r, lb, rb)
    requires SplitsRight(nodes', held', ChildDepths(depths, |nodes'|, stack[0].depth + 1), stack[0].index)
    ensures Divided(nodes', held', ChildDepths(depths, |nodes'|, stack[0].depth + 1), stack')
  {
    hide IsDone, OneParent, BoxOk, SplitsRight, KeepsRight, IsPending;
    var depths' := ChildDepths(depths, |nodes'|, stack[0].depth + 1);
    hide ChildDepths;
    forall i | 0 <= i < |nodes'|
      ensures IsPending(stack', i) || KeepsRight(nodes'[i], held'[i], depths'[i]) || SplitsRight(nodes', held', depths', i)
    {
      ReplacedKeeps(nodes, held, depths, stack, nodes', held', depths', stack', l, r, lb, rb, i);
    }
    hide Growing;
    forall k | 0 <= k < |stack'| ensures stack'[k].index < |depths'| && depths'[stack'[k].index] == stack'[k].depth {
      assert k < |stack| - 1 ==> stack'[k] == stack[k + 1];
    }
  }

  lemma ReplacedKeeps(nodes: seq<Node>, held: seq<seq<Tri>>, depths: seq<nat>, stack: seq<Pending>, nodes': seq<Node>, held': seq<seq<Tri>>,
                      depths': seq<nat>, stack': seq<Pending>, l: seq<Tri>, r: seq<Tri>, lb: Box, rb: Box, i: nat)
    requires |nodes| == |held| == |depths| && stack != [] && stack[0].index < |nodes| && Divided(nodes, held, depths, stack)
    requires Replaced(nodes, held, stack, nodes', held', stack', l, r, lb, rb) && i < |nodes'| == |depths'| && depths <= depths'
    requires SplitsRight(nodes', held', depths', stack[0].index)
    ensures IsPending(stack', i) || KeepsRight(nodes'[i], held'[i], depths'[i]) || SplitsRight(nodes', held', depths', i)
  {
    hide SplitsRight, KeepsRight;
    var e, n := stack[0], |nodes|;
    if i >= n {
      assert i == n && l != [] ==> stack'[|stack| - 1].index == i;
      assert !(i == n && l != []) ==> stack'[|stack'| - 1].index == i;
    } else if i != e.index {
      if IsPending(stack, i) {
        var k :| 0 <= k < |stack| && stack[k].index == i;
        assert stack'[k - 1].index == i;
      } else if SplitsRight(nodes, held, depths, i) {
        SplitKept(nodes, held, depths, nodes', held', depths', i);
      }
    }
  }

  lemma ReplacedSplits(nodes: seq<Node>, held: seq<seq<Tri>>, depths: seq<nat>, stack: seq<Pending>,
                       nodes': seq<Node>, held': seq<seq<Tri>>, depths': seq<nat>, stack': seq<Pending>, l: seq<Tri>, r: seq<Tri>, lb: Box, rb: Box)
    requires |nodes| == |held| == |depths| > 0 && stack != [] && PendingOk(nodes, held, stack[0])
    requires Replaced(nodes, held, stack, nodes', held', stack', l, r, lb, rb)
    requires |depths'| == |nodes'| && depths <= depths' && forall i :: |nodes| <= i < |nodes'| ==> depths'[i] == stack[0].depth + 1
    requires depths[stack[0].index] == stack[0].depth
    requires var e := stack[0];
             var (axis, length) := LongestAxis(Extent(nodes[e.index].bounds));
             var (b1, b2) := Split(nodes[e.index].bounds, axis);
             && |e.triangles| > MAX_TRIANGLES_PER_NODE && length > MIN_AXIS_LENGTH && e.depth < MAX_DEPTH
             && l == LeftOf(e.triangles, b1) && r == RightOf(e.triangles, b1, b2) && lb == ChildBounds(l, b1) && rb == ChildBounds(r, b2)
    ensures SplitsRight(nodes', held', depths', stack[0].index)
  {
    hide LongestAxis, Split, LeftOf, RightOf, ChildBounds;
  }

  lemma TurnReplaces(nodes: seq<Node>, held: seq<seq<Tri>>, stack: seq<Pending>, axis: Axis)
    requires stack != [] && stack[0].index < |nodes| == |held|
    ensures var e := stack[0];
            var (b1, b2) := Split(nodes[e.index].bounds, axis);
            var (l, r) := (LeftOf(e.triangles, b1), RightOf(e.triangles, b1, b2));
            Replaced(nodes, held, stack, SplitNodes(nodes, e, axis), SplitHeld(held, nodes, e, axis), Queue(stack, nodes, axis), l, r,
                     ChildBounds(l, b1), ChildBounds(r, b2))
  {
    hide Replaced, Split, LeftOf, RightOf, ChildBounds;
    var e := stack[0];
    var (b1, b2) := Split(nodes[e.index].bounds, axis);
    var (l, r) := (LeftOf(e.triangles, b1), RightOf(e.triangles, b1, b2));
    SplitReplaces(nodes, held, stack, l, r, ChildBounds(l, b1), ChildBounds(r, b2), |nodes| + (if l == [] then 0 else 1));
  }

  /** The front entry is split along its longest axis. */
  lemma SplitDivides(nodes: seq<Node>, held: seq<seq<Tri>>, depths: seq<nat>, stack: seq<Pending>)
    requires Growing(nodes, held, stack) && Divided(nodes, held, depths, stack) && stack != [] && PendingOk(nodes, held, stack[0])
    requires |stack[0].triangles| > MAX_TRIANGLES_PER_NODE && stack[0].depth < MAX_DEPTH
    requires LongestAxis(Extent(nodes[stack[0].index].bounds)).1 > MIN_AXIS_LENGTH
    ensures var axis := LongestAxis(Extent(nodes[stack[0].index].bounds)).0;
            var nodes' := SplitNodes(nodes, stack[0], axis);
            && |nodes'| >= |depths|
            && Divided(nodes', SplitHeld(held, nodes, stack[0], axis), ChildDepths(depths, |nodes'|, stack[0].depth + 1), Queue(stack, nodes, axis))
  {
    var e := stack[0];
    assert |nodes| == |held| == |depths|;
    hide Growing, Divided, LongestAxis, Extent, Split, LeftOf, RightOf, ChildBounds, SplitNodes, SplitHeld, Queue;
    var axis := LongestAxis(Extent(nodes[e.index].bounds)).0;
    var (b1, b2) := Split(nodes[e.index].bounds, axis);
    var (l, r) := (LeftOf(e.triangles, b1), RightOf(e.triangles, b1, b2));
    var (nodes', held', stack') := (SplitNodes(nodes, e, axis), SplitHeld(held, nodes, e, axis), Queue(stack, nodes, axis));
    TurnReplaces(nodes, held, stack, axis);
    PendingDepth(nodes, held, depths, stack);
    var (lb, rb) := (ChildBounds(l, b1), ChildBounds(r, b2));
    assert |nodes'| >= |depths| by { }
    hide PendingOk, Replaced, SplitsRight;
    ReplacedSplits(nodes, held, depths, stack, nodes', held', ChildDepths(depths, |nodes'|, e.depth + 1), stack', l, r, lb, rb);
    ReplacedDivides(nodes, held, depths, stack, nodes', held', stack', l, r, lb, rb);
  }

  lemma PendingDepth(nodes: seq<Node>, held: seq<seq<Tri>>, depths: seq<nat>, stack: seq<Pending>)
    requires Divided(nodes, held, depths, stack) && stack != []
    ensures stack[0].index < |depths| && depths[stack[0].index] == stack[0].depth
  {
  }

  // ----- The builder

  /** The one pending entry has become a leaf. */
  ghost predicate OneLeaf(nodes: seq<Node>, held: seq<seq<Tri>>, stack: seq<Pending>, nodes': seq<Node>, held': seq<seq<Tri>>)
    requires |stack| == 1
  {
    && stack[0].index < |nodes| && held' == held
    && nodes' == nodes[stack[0].index := nodes[stack[0].index].(triangles := stack[0].triangles)]
  }

  class Builder {
    var nodes: seq<Node>
    var stack: seq<Pending>
    var triangleCount: nat
    ghost var held: seq<seq<Tri>>

    constructor ()
      ensures nodes == [] && stack == [] && triangleCount == 0 && held == []
    {
      nodes, stack, triangleCount, held := [], [], 0, [];
    }

    /** bsp_tree_add_node */
    method AddNode(box: Box, tris: seq<Tri>, depth: nat) returns (index: nat)
      modifies this
      ensures index == |old(nodes)| && triangleCount == old(triangleCount)
      ensures nodes == old(nodes) + [Node([], 0, 0, box)] && stack == old(stack) + [Pending(index, depth, tris)]
      ensures held == old(held) + [tris] && Kept(nodes) == Kept(old(nodes))
    {
      KeptAppend(nodes, Node([], 0, 0, box));
      index := |nodes|;
      nodes := nodes + [Node([], 0, 0, box)];
      stack := stack + [Pending(index, depth, tris)];
      held := held + [tris];
    }

    ghost predicate Valid(input: seq<Tri>)
      reads this
    {
      Growing(nodes, held, stack) && RootOk(nodes, held, input) && triangleCount == Kept(nodes)
    }

    /** One turn of bsp_tree_recurse for an entry that is kept as a leaf. */
    method MakeLeaf(ghost input: seq<Tri>)
      requires Valid(input) && stack != []
      modifies this
      ensures Valid(input) && stack == old(stack)[1..] && held == old(held)
      ensures var se := old(stack)[0];
              se.index < |old(nodes)| && nodes == old(nodes)[se.index := old(nodes)[se.index].(triangles := se.triangles)]
    {
      hide IsDone, OneParent, BoxOk;
      LeafStep(nodes, held, stack);
      var se := stack[0];
      assert PendingOk(nodes, held, se);
      KeptUpdate(nodes, se.index, nodes[se.index].(triangles := se.triangles));
      nodes := nodes[se.index := nodes[se.index].(triangles := se.triangles)];
      triangleCount := triangleCount + |se.triangles|;
      stack := stack[1..];
    }

    /** A child with triangles gets a node with its clamped bounds and a place in the queue. */
    method AddChild(tris: seq<Tri>, bounds: Box, half: Box, depth: nat) returns (index: nat)
      modifies this
      ensures index == ChildIndex(tris, |old(nodes)|) && triangleCount == old(triangleCount) && Kept(nodes) == Kept(old(nodes))
      ensures nodes == old(nodes) + ChildNodes(tris, Clamp(bounds, half))
      ensures stack == old(stack) + ChildEntries(tris, |old(nodes)|, depth) && held == old(held) + ChildHeld(tris)
    {
      index := 0;
      if tris != [] {
        index := AddNode(Clamp(bounds, half), tris, depth);
      }
    }

    /** One turn of bsp_tree_recurse for an entry that is split. */
    method SplitNode(ghost input: seq<Tri>, axis: Axis)
      requires Valid(input) && stack != [] && stack[0].triangles != [] && stack[0].depth < MAX_DEPTH
      modifies this
      ensures Valid(input) && old(stack)[0].index < |old(nodes)|
      ensures stack == Queue(old(stack), old(nodes), axis)
      ensures nodes == SplitNodes(old(nodes), old(stack)[0], axis) && held == SplitHeld(old(held), old(nodes), old(stack)[0], axis)
    {
      hide Growing, Split, LeftOf, RightOf, BoundsOf, Clamp, Kept;
      SplitTurn(nodes, held, stack, axis);
      var se := stack[0];
      ghost var nodes0, held0, stack0 := nodes, held, stack;
      var bounds := nodes[se.index].bounds;
      var (b1, b2) := Split(bounds, axis);
      var l, r, lb, rb := Partition(se.triangles, b1, b2);
      var left := AddChild(l, lb, b1, se.depth + 1);
      KeptUpdate(nodes, se.index, nodes[se.index].(left := left));
      nodes := nodes[se.index := nodes[se.index].(left := left)];
      var right := AddChild(r, rb, b2, se.depth + 1);
      KeptUpdate(nodes, se.index, nodes[se.index].(right := right));
      nodes := nodes[se.index := nodes[se.index].(right := right)];
      stack := stack[1..];
      SetTwice(nodes0 + ChildNodes(l, ChildBounds(l, b1)), ChildNodes(r, ChildBounds(r, b2)), se.index,
               nodes0[se.index].(left := left), Node([], left, right, bounds));
      assert nodes == SplitNodes(nodes0, se, axis);
      assert held == SplitHeld(held0, nodes0, se, axis);
      assert stack == Queue(stack0, nodes0, axis);
    }

    /** bsp_tree_recurse; `depths` are the depths of the nodes. */
    method Recurse(ghost input: seq<Tri>, ghost depths: seq<nat>) returns (ghost depths': seq<nat>)
      requires Valid(input) && Divided(nodes, held, depths, stack)
      modifies this
      ensures Valid(input) && stack == [] && Divided(nodes, held, depths', [])
      ensures |old(stack)| == 1 && |old(stack)[0].triangles| <= MAX_TRIANGLES_PER_NODE ==> OneLeaf(old(nodes), old(held), old(stack), nodes, held)
    {
      hide IsDone, OneParent, Weight, TotalWeight, Divided, BoxOk, SplitNodes, SplitHeld, LongestAxis, Extent, RootOk, Kept;
      depths' := depths;
      ghost var small := |stack| == 1 && |stack[0].triangles| <= MAX_TRIANGLES_PER_NODE;
      while stack != []
        invariant Valid(input) && Divided(nodes, held, depths', stack)
        invariant small && stack != [] ==> stack == old(stack) && nodes == old(nodes) && held == old(held)
        invariant small && stack == [] ==> OneLeaf(old(nodes), old(held), old(stack), nodes, held)
        invariant Shallow(stack)
        decreases TotalWeight(stack)
      {
        var se := stack[0];
        assert PendingOk(nodes, held, se);
        var (axis, length) := LongestAxis(Extent(nodes[se.index].bounds));
        if |se.triangles| <= MAX_TRIANGLES_PER_NODE || length <= MIN_AXIS_LENGTH || se.depth >= MAX_DEPTH {
          LeafDivides(nodes, held, depths', stack);
          WeightFirst(stack, stack[1..]);
          MakeLeaf(input);
        } else {
          SplitTurnWeighsLess(nodes, held, stack, axis);
          SplitDivides(nodes, held, depths', stack);
          depths' := ChildDepths(depths', |SplitNodes(nodes, se, axis)|, se.depth + 1);
          SplitNode(input, axis);
        }
      }
    }

    /** bsp_tree_generate: the tree of a list of triangles, and the bounds that the column grid is laid over. */
    method Generate(tris: seq<Tri>) returns (box: Box)
      requires nodes == [] && stack == [] && triangleCount == 0 && held == []
      modifies this
      ensures IsTree(nodes, held, tris) && triangleCount == Kept(nodes) && box == BoundsOf(tris)
      ensures WellDivided(nodes, held)
      ensures |tris| <= MAX_TRIANGLES_PER_NODE ==> nodes == [Node(tris, 0, 0, BoundsOf(tris))] && held == [tris]
    {
      box := EMPTY;
      for i := 0 to |tris|
        invariant unchanged(this) && box == BoundsOf(tris[..i])
      {
        assert tris[..i + 1][..i] == tris[..i];
        box := AddTriangle(box, tris[i]);
      }
      assert tris[..|tris|] == tris;
      var _ := AddNode(box, tris, 0);
      RootStarts(tris);
      RootDivided(tris);
      assert nodes == [Node([], 0, 0, box)] && held == [tris] && stack == [Pending(0, 0, tris)];
      hide Growing, BoundsOf, Divided, WellDivided;
      ghost var depths := Recurse(tris, [0]);
      DividedIsWell(nodes, held, depths);
    }
  }

  lemma RootStarts(tris: seq<Tri>)
    ensures Growing([Node([], 0, 0, BoundsOf(tris))], [tris], [Pending(0, 0, tris)])
  {
    forall tri | tri in tris ensures !Excludes(BoundsOf(tris), tri) && Proper(BoundsOf(tris)) { BoundsHold(tris, tri); }
    if tris != [] { assert tris[0] in tris; }
    hide BoundsOf, Excludes;
    var stack := [Pending(0, 0, tris)];
    assert stack[0].index == 0;
  }

  lemma RootDivided(tris: seq<Tri>)
    ensures Divided([Node([], 0, 0, BoundsOf(tris))], [tris], [0], [Pending(0, 0, tris)])
  {
    hide BoundsOf, SplitsRight, KeepsRight;
    assert [Pending(0, 0, tris)][0].index == 0;
  }

  // ----- The finished tree

  /** A tree for the input: no node is pending. */
  ghost predicate IsTree(nodes: seq<Node>, held: seq<seq<Tri>>, input: seq<Tri>) {
    Growing(nodes, held, []) && RootOk(nodes, held, input)
  }

  /** Some path from node i leads through boxes that hold p to a leaf that keeps the triangle. */
  ghost predicate Reaches(nodes: seq<Node>, i: nat, tri: Tri, p: Vec)
    decreases |nodes| - i
  {
    && i < |nodes| && Contains(nodes[i].bounds, p)
    && (|| tri in nodes[i].triangles
        || (i < nodes[i].left && Reaches(nodes, nodes[i].left, tri, p))
        || (i < nodes[i].right && Reaches(nodes, nodes[i].right, tri, p)))
  }

  lemma {:induction false} HeldReaches(nodes: seq<Node>, held: seq<seq<Tri>>, i: nat, tri: Tri, p: Vec)
    requires Growing(nodes, held, []) && i < |nodes| && tri in held[i] && InHull(tri, p) && Contains(nodes[i].bounds, p)
    ensures Reaches(nodes, i, tri, p)
    decreases |nodes| - i
  {
    hide InHull, Contains, OneParent;
    assert IsDone(nodes, held, i);
    if !IsLeaf(nodes, held, i) {
      assert IsInner(nodes, held, i) && PassesOn(nodes, held, i);
      if Holds(nodes, held, nodes[i].left, tri, p) {
        HeldReaches(nodes, held, nodes[i].left, tri, p);
      } else {
        HeldReaches(nodes, held, nodes[i].right, tri, p);
      }
    }
  }

  /** Every point of every input triangle lies in all boxes of a path to a leaf that keeps the triangle. */
  lemma EveryPointReachesALeaf(nodes: seq<Node>, held: seq<seq<Tri>>, input: seq<Tri>, tri: Tri, u: real, v: real)
    requires IsTree(nodes, held, input) && tri in input && Inside(u, v)
    ensures Reaches(nodes, 0, tri, OnPlane(tri, u, v))
  {
    var p := OnPlane(tri, u, v);
    InsideIsInHull(tri, u, v);
    hide OnPlane, InHull, Contains, Growing, BoundsOf, ContainsTri;
    BoundsHold(input, tri);
    HullInBox(BoundsOf(input), tri, p);
    HeldReaches(nodes, held, 0, tri, p);
  }

  /** Some leaf keeps the triangle on a path from node i. */
  ghost predicate KeptUnder(nodes: seq<Node>, i: nat, tri: Tri)
    decreases |nodes| - i
  {
    && i < |nodes|
    && (|| tri in nodes[i].triangles
        || (i < nodes[i].left && KeptUnder(nodes, nodes[i].left, tri))
        || (i < nodes[i].right && KeptUnder(nodes, nodes[i].right, tri)))
  }

  /** The triangles kept under a node are exactly those that it was given. */
  lemma {:induction false} KeptIsHeld(nodes: seq<Node>, held: seq<seq<Tri>>, i: nat, tri: Tri)
    requires Growing(nodes, held, []) && i < |nodes|
    ensures KeptUnder(nodes, i, tri) <==> tri in held[i]
    decreases |nodes| - i
  {
    hide OneParent, PassesOn, BoxOk;
    assert IsDone(nodes, held, i);
    if !IsLeaf(nodes, held, i) {
      assert IsInner(nodes, held, i);
      if nodes[i].left != 0 { KeptIsHeld(nodes, held, nodes[i].left, tri); }
      if nodes[i].right != 0 { KeptIsHeld(nodes, held, nodes[i].right, tri); }
    }
  }

  /** No triangle is lost and none is made up: the leaves of a tree keep exactly the input. */
  lemma NothingLost(nodes: seq<Node>, held: seq<seq<Tri>>, input: seq<Tri>, tri: Tri)
    requires IsTree(nodes, held, input)
    ensures KeptUnder(nodes, 0, tri) <==> tri in input
  {
    hide Growing, BoundsOf;
    GrowingNonEmpty(nodes, held);
    KeptIsHeld(nodes, held, 0, tri);
  }

  lemma GrowingNonEmpty(nodes: seq<Node>, held: seq<seq<Tri>>)
    requires Growing(nodes, held, [])
    ensures |nodes| == |held| > 0
  {
  }

  /** The shape of a finished tree: every triangle of an inner node goes to a child, and every node but the
      root has exactly one parent, which comes before it. */
  lemma TreeShape(nodes: seq<Node>, held: seq<seq<Tri>>, input: seq<Tri>)
    requires IsTree(nodes, held, input)
    ensures forall i :: 0 <= i < |nodes| ==> IsLeaf(nodes, held, i) || Distributes(held, i, nodes[i].left, nodes[i].right)
    ensures forall c :: 0 < c < |nodes| ==> HasOnlyParent(nodes, c)
  {
    hide Proper, Excludes, BoundsOf, PassesOn;
    forall i | 0 <= i < |nodes| ensures IsLeaf(nodes, held, i) || Distributes(held, i, nodes[i].left, nodes[i].right) {
      assert IsDone(nodes, held, i);
    }
    forall c | 0 < c < |nodes| ensures HasOnlyParent(nodes, c) {
      assert HasParent(nodes, c);
      var i :| 0 <= i < c && i < |nodes| && ChildOf(nodes, i, c);
      assert IsOnlyParent(nodes, i, c);
    }
  }

  ghost predicate HasOnlyParent(nodes: seq<Node>, c: nat) { exists i :: 0 <= i < c && IsOnlyParent(nodes, i, c) }

  ghost predicate IsOnlyParent(nodes: seq<Node>, i: nat, c: nat) {
    i < |nodes| && ChildOf(nodes, i, c) && forall j :: 0 <= j < |nodes| && ChildOf(nodes, j, c) ==> j == i
  }

  // ----- How deep the finished tree goes, and where it is divided

  /** Node i has d ancestors. */
  ghost predicate HasAncestors(nodes: seq<Node>, i: nat, d: nat)
    decreases d
  {
    if d == 0 then i == 0 else exists p: nat :: p < i && p < |nodes| && ChildOf(nodes, p, i) && HasAncestors(nodes, p, d - 1)
  }

  /** The triangles of a child, if there is one. */
  ghost function Under(held: seq<seq<Tri>>, c: nat): seq<Tri> { if 0 < c < |held| then held[c] else [] }

  /** The bounds of a child's triangles, with both corners raised to those of its half where they lie lower. */
  ghost predicate Raised(box: Box, b: Box, half: Box) {
    && box.lo == Vec(if half.lo.x > b.lo.x then half.lo.x else b.lo.x, if half.lo.y > b.lo.y then half.lo.y else b.lo.y,
                     if half.lo.z > b.lo.z then half.lo.z else b.lo.z)
    && box.hi == Vec(if half.hi.x > b.hi.x then half.hi.x else b.hi.x, if half.hi.y > b.hi.y then half.hi.y else b.hi.y,
                     if half.hi.z > b.hi.z then half.hi.z else b.hi.z)
  }

  /** The child c of node i has the given triangles of the node, each as often as the node has it. */
  ghost predicate ChildTakes(nodes: seq<Node>, held: seq<seq<Tri>>, i: nat, c: nat, half: Box, goes: Tri -> bool)
    requires i < |nodes| == |held|
  {
    && (c != 0 ==> i < c < |nodes| && held[c] != [] && Raised(nodes[c].bounds, BoundsOf(held[c]), half))
    && forall tri :: multiset(Under(held, c))[tri] == if goes(tri) then multiset(held[i])[tri] else 0
  }

  /** Node i is divided into two halves: what the lower does not exclude goes left; what the lower does not hold whole
      and the upper does not exclude goes right. */
  ghost predicate CutInto(nodes: seq<Node>, held: seq<seq<Tri>>, i: nat, lower: Box, upper: Box)
    requires i < |nodes| == |held|
  {
    && ChildTakes(nodes, held, i, nodes[i].left, lower, (tri: Tri) => !Excludes(lower, tri))
    && ChildTakes(nodes, held, i, nodes[i].right, upper, (tri: Tri) => !ContainsTri(lower, tri) && !Excludes(upper, tri))
  }

  function OnAxis(axis: Axis, p: Vec): real {
    match axis
    case AxisX => p.x
    case AxisY => p.y
    case AxisZ => p.z
  }

  /** The two halves of a box, cut at the middle of a side. */
  function Cut(box: Box, axis: Axis): (Box, Box) {
    var (lo, hi) := (box.lo, box.hi);
    match axis
    case AxisX => (Box(lo, Vec((lo.x + hi.x) / 2.0, hi.y, hi.z)), Box(Vec((lo.x + hi.x) / 2.0, lo.y, lo.z), hi))
    case AxisY => (Box(lo, Vec(hi.x, (lo.y + hi.y) / 2.0, hi.z)), Box(Vec(lo.x, (lo.y + hi.y) / 2.0, lo.z), hi))
    case AxisZ => (Box(lo, Vec(hi.x, hi.y, (lo.z + hi.z) / 2.0)), Box(Vec(lo.x, lo.y, (lo.z + hi.z) / 2.0), hi))
  }

  /** Node i is cut at the middle of its longest side, the first of equals, which is longer than 0.01. */
  ghost predicate CutAtMiddle(nodes: seq<Node>, held: seq<seq<Tri>>, i: nat)
    requires i < |nodes| == |held|
  {
    var box := nodes[i].bounds;
    var (x, y, z) := (box.hi.x - box.lo.x, box.hi.y - box.lo.y, box.hi.z - box.lo.z);
    var axis := if x >= y && x >= z then AxisX else if y >= z then AxisY else AxisZ;
    && OnAxis(axis, box.hi) - OnAxis(axis, box.lo) > 0.01
    && CutInto(nodes, held, i, Cut(box, axis).0, Cut(box, axis).1)
  }

  /** No side of the box is longer than 0.01. */
  predicate Tiny(box: Box) { box.hi.x - box.lo.x <= 0.01 && box.hi.y - box.lo.y <= 0.01 && box.hi.z - box.lo.z <= 0.01 }

  /** A node without children keeps its triangles, because they are at most four, its box is tiny, or it has 16
      ancestors; one with children had more than four, fewer ancestors, and is cut at the middle of a longest side. */
  ghost predicate WellDivided(nodes: seq<Node>, held: seq<seq<Tri>>) {
    && |nodes| == |held| > 0
    && forall i :: 0 <= i < |nodes| ==>
         if nodes[i].left == 0 && nodes[i].right == 0 then
           nodes[i].triangles == held[i] && (|held[i]| <= 4 || Tiny(nodes[i].bounds) || HasAncestors(nodes, i, 16))
         else
           && nodes[i].triangles == [] && |held[i]| > 4 && (exists d :: 0 <= d < 16 && HasAncestors(nodes, i, d))
           && CutAtMiddle(nodes, held, i)
  }

  lemma {:induction false} DepthIsAncestors(nodes: seq<Node>, held: seq<seq<Tri>>, depths: seq<nat>, i: nat)
    requires Growing(nodes, held, []) && Divided(nodes, held, depths, []) && i < |nodes|
    ensures HasAncestors(nodes, i, depths[i])
  {
    hide IsDone, BoxOk, SplitsRight, KeepsRight;
    if i > 0 {
      assert HasParent(nodes, i);
      var p :| 0 <= p < i && p < |nodes| && ChildOf(nodes, p, i);
      assert KeepsRight(nodes[p], held[p], depths[p]) || SplitsRight(nodes, held, depths, p);
      ChildIsDeeper(nodes, held, depths, p, i);
      DepthIsAncestors(nodes, held, depths, p);
    }
  }

  lemma ChildIsDeeper(nodes: seq<Node>, held: seq<seq<Tri>>, depths: seq<nat>, p: nat, c: nat)
    requires p < |nodes| == |held| == |depths| && c < |nodes| && ChildOf(nodes, p, c)
    requires KeepsRight(nodes[p], held[p], depths[p]) || SplitsRight(nodes, held, depths, p)
    ensures depths[c] == depths[p] + 1
  {
    hide LongestAxis, Extent, Split, LeftOf, RightOf, ChildBounds;
  }

  lemma LongestSide(e: Vec)
    ensures LongestAxis(e).0 == (if e.x >= e.y && e.x >= e.z then AxisX else if e.y >= e.z then AxisY else AxisZ)
    ensures LongestAxis(e).1 == (if e.x >= e.y && e.x >= e.z then e.x else if e.y >= e.z then e.y else e.z)
  {
  }

  lemma {:induction false} LeftCounts(tris: seq<Tri>, b1: Box, tri: Tri)
    ensures multiset(LeftOf(tris, b1))[tri] == if MayContain(b1, tri) then multiset(tris)[tri] else 0
  {
    if tris != [] {
      hide MayContain;
      LeftCounts(tris[..|tris| - 1], b1, tri);
      assert tris == tris[..|tris| - 1] + [tris[|tris| - 1]];
    }
  }

  lemma {:induction false} RightCounts(tris: seq<Tri>, b1: Box, b2: Box, tri: Tri)
    ensures multiset(RightOf(tris, b1, b2))[tri] == if GoesRight(b1, b2, tri) then multiset(tris)[tri] else 0
  {
    if tris != [] {
      hide GoesRight;
      RightCounts(tris[..|tris| - 1], b1, b2, tri);
      assert tris == tris[..|tris| - 1] + [tris[|tris| - 1]];
    }
  }

  lemma ClampRaises(b: Box, half: Box)
    ensures Raised(Clamp(b, half), b, half)
  {
  }

  /** What is passed to the lower half, in plain terms. */
  lemma LowerTakes(nodes: seq<Node>, held: seq<seq<Tri>>, depths: seq<nat>, i: nat, l: seq<Tri>, b1: Box)
    requires i < |nodes| == |held| == |depths| && Proper(b1) && l == LeftOf(held[i], b1) && (nodes[i].left != 0 ==> i < nodes[i].left)
    requires ChildFits(nodes, held, depths, nodes[i].left, l, ChildBounds(l, b1), depths[i] + 1)
    ensures ChildTakes(nodes, held, i, nodes[i].left, b1, (tri: Tri) => !Excludes(b1, tri))
  {
    hide LeftOf, BoundsOf, Excludes, Contains, Clamp, MayContain, Raised, Proper;
    forall tri ensures multiset(l)[tri] == if !Excludes(b1, tri) then multiset(held[i])[tri] else 0 {
      LeftCounts(held[i], b1, tri);
      ClipCodes(b1, tri);
    }
    ClampRaises(BoundsOf(l), b1);
  }

  lemma UpperTakes(nodes: seq<Node>, held: seq<seq<Tri>>, depths: seq<nat>, i: nat, r: seq<Tri>, b1: Box, b2: Box)
    requires i < |nodes| == |held| == |depths| && Proper(b1) && Proper(b2) && r == RightOf(held[i], b1, b2)
    requires nodes[i].right != 0 ==> i < nodes[i].right
    requires ChildFits(nodes, held, depths, nodes[i].right, r, ChildBounds(r, b2), depths[i] + 1)
    ensures ChildTakes(nodes, held, i, nodes[i].right, b2, (tri: Tri) => !ContainsTri(b1, tri) && !Excludes(b2, tri))
  {
    hide RightOf, BoundsOf, Excludes, Clamp, MayContain, ClipOr, Raised, Proper, ContainsTri;
    forall tri ensures multiset(r)[tri] == if !ContainsTri(b1, tri) && !Excludes(b2, tri) then multiset(held[i])[tri] else 0 {
      RightCounts(held[i], b1, b2, tri);
      ClipCodes(b1, tri);
      ClipCodes(b2, tri);
    }
    ClampRaises(BoundsOf(r), b2);
  }

  lemma SplitTakes(nodes: seq<Node>, held: seq<seq<Tri>>, depths: seq<nat>, i: nat)
    requires i < |nodes| == |held| == |depths| && SplitsRight(nodes, held, depths, i) && Proper(nodes[i].bounds)
    requires (nodes[i].left != 0 ==> i < nodes[i].left) && (nodes[i].right != 0 ==> i < nodes[i].right)
    ensures var axis := LongestAxis(Extent(nodes[i].bounds)).0;
            CutInto(nodes, held, i, Split(nodes[i].bounds, axis).0, Split(nodes[i].bounds, axis).1)
  {
    var axis := LongestAxis(Extent(nodes[i].bounds)).0;
    SplitCovers(nodes[i].bounds, axis, nodes[i].bounds.lo);
    hide LongestAxis, Split, LeftOf, RightOf, ChildBounds, Proper, Extent, ChildTakes, ChildFits, Excludes, ContainsTri, Contains;
    var (b1, b2) := Split(nodes[i].bounds, axis);
    LowerTakes(nodes, held, depths, i, LeftOf(held[i], b1), b1);
    UpperTakes(nodes, held, depths, i, RightOf(held[i], b1, b2), b1, b2);
  }

  lemma SplitIsCut(box: Box, axis: Axis)
    requires Proper(box)
    ensures Split(box, axis) == Cut(box, axis)
  {
  }

  lemma NodeIsWell(nodes: seq<Node>, held: seq<seq<Tri>>, depths: seq<nat>, i: nat)
    requires Growing(nodes, held, []) && Divided(nodes, held, depths, []) && i < |nodes|
    ensures if nodes[i].left == 0 && nodes[i].right == 0 then
              nodes[i].triangles == held[i] && (|held[i]| <= 4 || Tiny(nodes[i].bounds) || HasAncestors(nodes, i, 16))
            else
              && nodes[i].triangles == [] && |held[i]| > 4 && depths[i] < 16 && HasAncestors(nodes, i, depths[i])
              && CutAtMiddle(nodes, held, i)
  {
    DepthIsAncestors(nodes, held, depths, i);
    LongestSide(Extent(nodes[i].bounds));
    NodeDone(nodes, held, i);
    assert KeepsRight(nodes[i], held[i], depths[i]) || SplitsRight(nodes, held, depths, i);
    hide Growing, Divided, LongestAxis, HasAncestors, CutAtMiddle, SplitsRight;
    if SplitsRight(nodes, held, depths, i) {
      SplitNeeds(nodes, held, depths, i);
      SplitIsWell(nodes, held, depths, i);
    }
  }

  lemma NodeDone(nodes: seq<Node>, held: seq<seq<Tri>>, i: nat)
    requires Growing(nodes, held, []) && i < |nodes|
    ensures |nodes| == |held|
    ensures (nodes[i].left != 0 ==> i < nodes[i].left) && (nodes[i].right != 0 ==> i < nodes[i].right)
    ensures held[i] != [] ==> Proper(nodes[i].bounds)
    ensures nodes[i].left == 0 && nodes[i].right == 0 ==> nodes[i].triangles == held[i]
  {
    hide OneParent, Proper, Excludes, PassesOn;
    assert IsDone(nodes, held, i) && BoxOk(nodes[i].bounds, held[i]);
    if held[i] != [] { assert held[i][0] in held[i]; }
  }

  lemma SplitNeeds(nodes: seq<Node>, held: seq<seq<Tri>>, depths: seq<nat>, i: nat)
    requires i < |nodes| == |held| == |depths| && SplitsRight(nodes, held, depths, i)
    ensures nodes[i].triangles == [] && |held[i]| > 4 && depths[i] < 16 && LongestAxis(Extent(nodes[i].bounds)).1 > 0.01
  {
    hide LongestAxis, Split, LeftOf, RightOf, ChildBounds, ChildFits;
  }

  lemma SplitIsWell(nodes: seq<Node>, held: seq<seq<Tri>>, depths: seq<nat>, i: nat)
    requires i < |nodes| == |held| == |depths| && SplitsRight(nodes, held, depths, i) && Proper(nodes[i].bounds)
    requires (nodes[i].left != 0 ==> i < nodes[i].left) && (nodes[i].right != 0 ==> i < nodes[i].right)
    ensures CutAtMiddle(nodes, held, i)
  {
    SplitNeeds(nodes, held, depths, i);
    LongestSide(Extent(nodes[i].bounds));
    hide LongestAxis, Split, CutInto, SplitsRight, Proper, Cut;
    SplitTakes(nodes, held, depths, i);
    SplitIsCut(nodes[i].bounds, LongestAxis(Extent(nodes[i].bounds)).0);
  }

  lemma DividedIsWell(nodes: seq<Node>, held: seq<seq<Tri>>, depths: seq<nat>)
    requires Growing(nodes, held, []) && Divided(nodes, held, depths, [])
    ensures WellDivided(nodes, held)
  {
    hide Growing, HasAncestors, CutAtMiddle, Tiny;
    assert |nodes| == |held| == |depths| > 0;
    hide Divided;
    forall i | 0 <= i < |nodes|
      ensures if nodes[i].left == 0 && nodes[i].right == 0 then
                nodes[i].triangles == held[i] && (|held[i]| <= 4 || Tiny(nodes[i].bounds) || HasAncestors(nodes, i, 16))
              else
                && nodes[i].triangles == [] && |held[i]| > 4 && (exists d :: 0 <= d < 16 && HasAncestors(nodes, i, d))
                && CutAtMiddle(nodes, held, i)
    {
      NodeIsWell(nodes, held, depths, i);
    }
  }

  // ----- The bounds are tight

  /** The coordinates of the corners of the triangles on one axis. */
  ghost function Coords(tris: seq<Tri>, axis: Axis): set<real> {
    if tris == [] then {}
    else
      var last := tris[|tris| - 1];
      Coords(tris[..|tris| - 1], axis) + {OnAxis(axis, last.a), OnAxis(axis, last.b), OnAxis(axis, last.c)}
  }

  ghost predicate IsLeast(v: real, among: set<real>) { v in among && forall x :: x in among ==> v <= x }

  ghost predicate IsGreatest(v: real, among: set<real>) { v in among && forall x :: x in among ==> v >= x }

  /** On every axis the bounds of a list run from the least to the greatest coordinate of a corner, or of the
      coordinates 999999 and -999999 that they start from. */
  lemma {:induction false} BoundsTight(tris: seq<Tri>, axis: Axis)
    ensures IsLeast(OnAxis(axis, BoundsOf(tris).lo), Coords(tris, axis) + {999999.0})
    ensures IsGreatest(OnAxis(axis, BoundsOf(tris).hi), Coords(tris, axis) + {-999999.0})
  {
    if tris != [] {
      var (front, last) := (tris[..|tris| - 1], tris[|tris| - 1]);
      BoundsTight(front, axis);
      AddReaches(BoundsOf(front), last, axis);
      hide AddTriangle, OnAxis, IsLeast, IsGreatest;
      var (a, b, c) := (OnAxis(axis, last.a), OnAxis(axis, last.b), OnAxis(axis, last.c));
      LeastNext(OnAxis(axis, BoundsOf(front).lo), OnAxis(axis, BoundsOf(tris).lo), Coords(front, axis), a, b, c);
      GreatestNext(OnAxis(axis, BoundsOf(front).hi), OnAxis(axis, BoundsOf(tris).hi), Coords(front, axis), a, b, c);
    }
  }

  lemma LeastNext(v: real, v': real, among: set<real>, a: real, b: real, c: real)
    requires IsLeast(v, among + {999999.0}) && IsLeast(v', {v, a, b, c})
    ensures IsLeast(v', among + {a, b, c} + {999999.0})
  {
  }

  lemma GreatestNext(v: real, v': real, among: set<real>, a: real, b: real, c: real)
    requires IsGreatest(v, among + {-999999.0}) && IsGreatest(v', {v, a, b, c})
    ensures IsGreatest(v', among + {a, b, c} + {-999999.0})
  {
  }

  lemma AddReaches(box: Box, tri: Tri, axis: Axis)
    ensures IsLeast(OnAxis(axis, AddTriangle(box, tri).lo), {OnAxis(axis, box.lo), OnAxis(axis, tri.a), OnAxis(axis, tri.b), OnAxis(axis, tri.c)})
    ensures IsGreatest(OnAxis(axis, AddTriangle(box, tri).hi), {OnAxis(axis, box.hi), OnAxis(axis, tri.a), OnAxis(axis, tri.b), OnAxis(axis, tri.c)})
  {
  }
}
