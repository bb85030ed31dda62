/** The line-of-sight query on a loaded map (`line_of_sight_map.c`). */
module LineOfSight {
  import opened Arrays
  import opened Bits
  import opened Geometry
  import opened Aabb
  import opened RayBox
  import T = BspTree

  /** A loaded node names its triangles by a slice of the triangle array. */
  datatype LosNode = LosNode(count: nat, left: nat, right: nat, bounds: Box, first: nat)

  datatype LosMap = LosMap(nodes: seq<LosNode>, triangles: seq<Tri>)

  /** The loaded map has the links, boxes and triangles of the built tree. */
  ghost predicate Mirrors(m: LosMap, nodes: seq<T.Node>) {
    && |m.nodes| == |nodes|
    && forall i :: 0 <= i < |nodes| ==> NodeMirrors(m.nodes[i], m.triangles, nodes[i])
  }

  ghost predicate NodeMirrors(n: LosNode, triangles: seq<Tri>, node: T.Node) {
    && n.left == node.left && n.right == node.right && n.bounds == node.bounds
    && n.first + n.count <= |triangles| && triangles[n.first..n.first + n.count] == node.triangles
  }

  /** The first hit of a line in a list, as the inner loop of the query looks for it. */
  method AnyHit(start: Vec, dir: Vec, tris: seq<Tri>) returns (hit: bool)
    ensures hit <==> exists tri :: tri in tris && LineHitsTriangle(start, dir, tri).At?
  {
    for i := 0 to |tris|
      invariant forall k :: 0 <= k < i ==> LineHitsTriangle(start, dir, tris[k]).Miss?
    {
      if LineHitsTriangle(start, dir, tris[i]).At? {
        return true;
      }
    }
    return false;
  }

  // ----- Termination: a node outweighs its two later children

  ghost function StackWeight(stack: seq<nat>, n: nat): nat
    requires forall k :: 0 <= k < |stack| ==> stack[k] < n
  {
    if stack == [] then 0 else StackWeight(stack[..|stack| - 1], n) + Pow2(n - stack[|stack| - 1])
  }

  lemma {:induction false} Pow2Grows(a: nat, b: nat)
    requires a <= b
    ensures Pow2(a) <= Pow2(b)
    decreases b
  {
    if a < b { Pow2Grows(a, b - 1); }
  }

  lemma ChildrenWeighLess(n: nat, i: nat, l: nat, r: nat)
    requires i < l < n && i < r < n && l != r
    ensures Pow2(n - l) + Pow2(n - r) < Pow2(n - i)
  {
    var (a, b) := (if l < r then l else r, if l < r then r else l);
    Pow2Grows(n - a, n - i - 1);
    Pow2Grows(n - b, n - i - 2);
  }

  lemma WeightPush(stack: seq<nat>, x: nat, n: nat)
    requires x < n && forall k :: 0 <= k < |stack| ==> stack[k] < n
    ensures StackWeight(stack + [x], n) == StackWeight(stack, n) + Pow2(n - x)
  {
    assert (stack + [x])[..|stack|] == stack;
  }

  // ----- Each node is visited at most once

  /** Every node visited or waiting, except the root, is the child of a visited one. */
  ghost predicate Explored(nodes: seq<T.Node>, visits: seq<nat>, stack: seq<nat>) {
    && NoRepeats(visits + stack)
    && (forall x :: x in visits || x in stack ==> x < |nodes|)
    && (forall x :: (x in visits || x in stack) && x != 0 ==> HasParentIn(nodes, visits, x))
  }

  ghost predicate HasParentIn(nodes: seq<T.Node>, visits: seq<nat>, x: nat) {
    exists i :: i in visits && i < |nodes| && T.ChildOf(nodes, i, x)
  }

  lemma MoveLast(visits: seq<nat>, stack: seq<nat>, x: nat)
    requires NoRepeats(visits + (stack + [x]))
    ensures x !in visits && NoRepeats(visits + [x] + stack)
  {
    var before, after := visits + (stack + [x]), visits + [x] + stack;
    var n := |visits|;
    assert before[|before| - 1] == x;
    forall i | 0 <= i < n ensures visits[i] != x { assert before[i] == visits[i]; }
    forall i, j | 0 <= i < j < |after| ensures after[i] != after[j] {
      assert after[i] == before[if i < n then i else if i == n then |before| - 1 else i - 1];
      assert after[j] == before[if j < n then j else if j == n then |before| - 1 else j - 1];
    }
  }

  /** Popping a node. */
  lemma Visit(nodes: seq<T.Node>, visits: seq<nat>, stack: seq<nat>, x: nat)
    requires Explored(nodes, visits, stack + [x])
    ensures x !in visits && x < |nodes| && Explored(nodes, visits + [x], stack)
  {
    MoveLast(visits, stack, x);
    hide NoRepeats, HasParentIn;
    var visits' := visits + [x];
    assert (stack + [x])[|stack|] == x;
    forall y | y in visits' || y in stack ensures y < |nodes| && (y != 0 ==> HasParentIn(nodes, visits', y)) {
      assert y in visits || y in stack + [x];
      if y != 0 { ParentKept(nodes, visits, x, y); }
    }
  }

  lemma ParentKept(nodes: seq<T.Node>, visits: seq<nat>, x: nat, y: nat)
    requires HasParentIn(nodes, visits, y)
    ensures HasParentIn(nodes, visits + [x], y)
  {
    var i :| i in visits && i < |nodes| && T.ChildOf(nodes, i, y);
    assert i in visits + [x];
  }

  /** The children of a node that is not yet visited are neither visited nor waiting. */
  lemma ChildIsNew(nodes: seq<T.Node>, visits: seq<nat>, stack: seq<nat>, x: nat, c: nat)
    requires Explored(nodes, visits, stack) && T.OneParent(nodes) && x < |nodes| && x !in visits && T.ChildOf(nodes, x, c)
    ensures c !in visits && c !in stack
  {
    assert c in visits || c in stack ==> HasParentIn(nodes, visits, c);
  }

  lemma Push(nodes: seq<T.Node>, visits: seq<nat>, stack: seq<nat>, x: nat, c: nat)
    requires Explored(nodes, visits, stack) && x in visits && x < |nodes| && T.ChildOf(nodes, x, c) && c < |nodes|
    requires c !in visits && c !in stack
    ensures Explored(nodes, visits, stack + [c])
  {
    var before, after := visits + stack, visits + (stack + [c]);
    assert after == before + [c];
    forall y | y in visits || y in stack + [c] ensures y < |nodes| && (y != 0 ==> HasParentIn(nodes, visits, y)) {
      assert y == c || y in visits || y in stack;
    }
  }

  // ----- The query

  /** A crossing of the segment with a triangle. */
  ghost predicate Blocks(start: Vec, dir: Vec, distance: real, tri: Tri) {
    LineHitsTriangle(start, dir, tri).At? && LineHitsTriangle(start, dir, tri).t < distance
  }

  ghost predicate SomeBlocks(input: seq<Tri>, start: Vec, dir: Vec, distance: real) {
    exists tri :: tri in input && Blocks(start, dir, distance, tri)
  }

  /** Some triangle of the list is hit at distance `from` or beyond. */
  ghost predicate SomeHitFrom(tris: seq<Tri>, start: Vec, dir: Vec, from: real) {
    exists tri :: tri in tris && LineHitsTriangle(start, dir, tri).At? && LineHitsTriangle(start, dir, tri).t >= from
  }

  /** Some path from node i, through boxes that the segment test accepts, leads to a node that keeps a triangle
      hit at distance `from` or beyond. */
  ghost predicate Stopped(nodes: seq<T.Node>, i: nat, start: Vec, dir: Vec, distance: real, from: real)
    decreases |nodes| - i
  {
    && i < |nodes| && SegmentMeets(nodes[i].bounds, start, dir, distance)
    && (|| SomeHitFrom(nodes[i].triangles, start, dir, from)
        || (i < nodes[i].left && Stopped(nodes, nodes[i].left, start, dir, distance, from))
        || (i < nodes[i].right && Stopped(nodes, nodes[i].right, start, dir, distance, from)))
  }

  /** A path of boxes that holds a hit within the distance stops the query. */
  lemma {:induction false} ReachedIsStopped(nodes: seq<T.Node>, i: nat, start: Vec, dir: Vec, distance: real, tri: Tri)
    requires distance > 0.00001 && Blocks(start, dir, distance, tri)
    requires T.Reaches(nodes, i, tri, Along(start, dir, LineHitsTriangle(start, dir, tri).t))
    ensures Stopped(nodes, i, start, dir, distance, 0.0)
    decreases |nodes| - i
  {
    var t := LineHitsTriangle(start, dir, tri).t;
    assert t > 0.0 by { HitInHull(start, dir, tri); }
    hide LineHitsTriangle, Along, Contains, SegmentMeets;
    SegmentMeetsBox(nodes[i].bounds, start, dir, distance, t);
    if tri !in nodes[i].triangles {
      if i < nodes[i].left && T.Reaches(nodes, nodes[i].left, tri, Along(start, dir, t)) {
        ReachedIsStopped(nodes, nodes[i].left, start, dir, distance, tri);
      } else {
        ReachedIsStopped(nodes, nodes[i].right, start, dir, distance, tri);
      }
    }
  }

  /** What stops the query is a triangle of the node, hit within the distance or beyond it. */
  lemma {:induction false} StoppedByHeld(nodes: seq<T.Node>, held: seq<seq<Tri>>, i: nat, start: Vec, dir: Vec, distance: real, from: real)
    requires T.Growing(nodes, held, []) && Stopped(nodes, i, start, dir, distance, from)
    ensures SomeHitFrom(held[i], start, dir, from)
    ensures SomeBlocks(held[i], start, dir, distance) || Stopped(nodes, i, start, dir, distance, distance)
    decreases |nodes| - i
  {
    hide LineHitsTriangle, SegmentMeets, T.Growing;
    NodeLinks(nodes, held, i);
    if SomeHitFrom(nodes[i].triangles, start, dir, from) {
      var tri :| tri in nodes[i].triangles && LineHitsTriangle(start, dir, tri).At? && LineHitsTriangle(start, dir, tri).t >= from;
      assert tri in held[i];
      assert Blocks(start, dir, distance, tri) || SomeHitFrom(nodes[i].triangles, start, dir, distance);
    } else {
      var c := if i < nodes[i].left && Stopped(nodes, nodes[i].left, start, dir, distance, from) then nodes[i].left else nodes[i].right;
      StoppedByHeld(nodes, held, c, start, dir, distance, from);
      assert forall tri :: tri in held[c] ==> tri in held[i];
    }
  }

  lemma {:induction false} StoppedEarlier(nodes: seq<T.Node>, i: nat, start: Vec, dir: Vec, distance: real)
    requires Stopped(nodes, i, start, dir, distance, distance)
    ensures Stopped(nodes, i, start, dir, distance, 0.0)
    decreases |nodes| - i
  {
    hide LineHitsTriangle, RayEntry;
    if !SomeHitFrom(nodes[i].triangles, start, dir, distance) {
      if i < nodes[i].left && Stopped(nodes, nodes[i].left, start, dir, distance, distance) {
        StoppedEarlier(nodes, nodes[i].left, start, dir, distance);
      } else {
        StoppedEarlier(nodes, nodes[i].right, start, dir, distance);
      }
    }
  }

  /** What stops the query in a tree: a triangle hit within the distance, or one beyond it that is kept behind
      boxes that the segment enters. */
  lemma StoppedIff(nodes: seq<T.Node>, held: seq<seq<Tri>>, input: seq<Tri>, start: Vec, dir: Vec, distance: real)
    requires T.IsTree(nodes, held, input) && distance > 0.00001
    ensures Stopped(nodes, 0, start, dir, distance, 0.0)
            <==> SomeBlocks(input, start, dir, distance) || Stopped(nodes, 0, start, dir, distance, distance)
  {
    hide LineHitsTriangle, Stopped, T.Growing, Along, OnPlane, Blocks;
    forall tri | tri in input && Blocks(start, dir, distance, tri) ensures Stopped(nodes, 0, start, dir, distance, 0.0) {
      ReachedFromRoot(nodes, held, input, start, dir, distance, tri);
    }
    if Stopped(nodes, 0, start, dir, distance, distance) { StoppedEarlier(nodes, 0, start, dir, distance); }
    if Stopped(nodes, 0, start, dir, distance, 0.0) { StoppedByHeld(nodes, held, 0, start, dir, distance, 0.0); }
  }

  lemma ReachedFromRoot(nodes: seq<T.Node>, held: seq<seq<Tri>>, input: seq<Tri>, start: Vec, dir: Vec, distance: real, tri: Tri)
    requires T.IsTree(nodes, held, input) && distance > 0.00001 && tri in input && Blocks(start, dir, distance, tri)
    ensures Stopped(nodes, 0, start, dir, distance, 0.0)
  {
    hide LineHitsTriangle, Stopped, T.IsTree, Along, OnPlane;
    var u, v := HitIsOnTriangle(start, dir, tri);
    T.EveryPointReachesALeaf(nodes, held, input, tri, u, v);
    ReachedIsStopped(nodes, 0, start, dir, distance, tri);
  }

  /** When the query agrees with a scan for triangles hit within the distance: if one is hit, or if none beyond
      the distance is kept behind boxes that the segment enters. */
  lemma SightIsScanIff(nodes: seq<T.Node>, held: seq<seq<Tri>>, input: seq<Tri>, start: Vec, dir: Vec, distance: real)
    requires T.IsTree(nodes, held, input) && distance > 0.00001
    ensures (Stopped(nodes, 0, start, dir, distance, 0.0) <==> SomeBlocks(input, start, dir, distance))
            <==> SomeBlocks(input, start, dir, distance) || !Stopped(nodes, 0, start, dir, distance, distance)
  {
    hide Stopped, T.IsTree, SomeBlocks;
    StoppedIff(nodes, held, input, start, dir, distance);
  }

  /** In particular it agrees if the line hits nothing at the distance or beyond. */
  lemma NothingBehind(nodes: seq<T.Node>, held: seq<seq<Tri>>, input: seq<Tri>, start: Vec, dir: Vec, distance: real)
    requires T.IsTree(nodes, held, input) && distance > 0.00001 && !SomeHitFrom(input, start, dir, distance)
    ensures Stopped(nodes, 0, start, dir, distance, 0.0) <==> SomeBlocks(input, start, dir, distance)
  {
    hide Stopped, T.Growing, SomeBlocks, LineHitsTriangle;
    StoppedIff(nodes, held, input, start, dir, distance);
    if Stopped(nodes, 0, start, dir, distance, distance) { StoppedByHeld(nodes, held, 0, start, dir, distance, distance); }
  }

  /** The point where a triangle is hit lies ahead, in the triangle's hull. */
  lemma HitInHull(start: Vec, dir: Vec, tri: Tri)
    requires LineHitsTriangle(start, dir, tri).At?
    ensures var t := LineHitsTriangle(start, dir, tri).t;
            t > 0.0 && InHull(tri, Along(start, dir, t))
  {
    hide LineHitsTriangle, OnPlane, Along, InHull;
    var u, v := HitIsOnTriangle(start, dir, tri);
    InsideIsInHull(tri, u, v);
  }

  /** The links of a finished node, and where the triangles of a finished tree come from. */
  lemma NodeLinks(nodes: seq<T.Node>, held: seq<seq<Tri>>, x: nat)
    requires T.Growing(nodes, held, []) && x < |nodes|
    ensures nodes[x].left != 0 ==> x < nodes[x].left < |nodes|
    ensures nodes[x].right != 0 ==> x < nodes[x].right < |nodes|
    ensures nodes[x].left != 0 && nodes[x].right != 0 ==> nodes[x].left != nodes[x].right
    ensures forall tri :: tri in nodes[x].triangles ==> tri in held[x]
    ensures nodes[x].left != 0 ==> forall tri :: tri in held[nodes[x].left] ==> tri in held[x]
    ensures nodes[x].right != 0 ==> forall tri :: tri in held[nodes[x].right] ==> tri in held[x]
    ensures T.OneParent(nodes) && |held| == |nodes|
  {
    hide T.OneParent, T.PassesOn, T.Distributes, T.BoxOk;
    assert T.IsDone(nodes, held, x);
  }

  function Link(c: nat): seq<nat> { if c == 0 then [] else [c] }

  // ----- The query

  /** Some stacked node leads to a stop. */
  ghost predicate SomeStopped(nodes: seq<T.Node>, stack: seq<nat>, start: Vec, dir: Vec, distance: real) {
    exists k :: 0 <= k < |stack| && Stopped(nodes, stack[k], start, dir, distance, 0.0)
  }

  lemma StoppedPush(nodes: seq<T.Node>, stack: seq<nat>, x: nat, start: Vec, dir: Vec, distance: real)
    ensures SomeStopped(nodes, stack + [x], start, dir, distance)
            <==> SomeStopped(nodes, stack, start, dir, distance) || Stopped(nodes, x, start, dir, distance, 0.0)
  {
    hide Stopped;
    var all := stack + [x];
    if SomeStopped(nodes, stack, start, dir, distance) {
      var k :| 0 <= k < |stack| && Stopped(nodes, stack[k], start, dir, distance, 0.0);
      assert all[k] == stack[k];
    }
    assert all[|stack|] == x;
  }

  /** Replacing a node whose box is entered and none of whose own triangles is hit by its children. */
  lemma StoppedByChild(nodes: seq<T.Node>, stack: seq<nat>, x: nat, start: Vec, dir: Vec, distance: real)
    requires x < |nodes| && (nodes[x].left != 0 ==> x < nodes[x].left) && (nodes[x].right != 0 ==> x < nodes[x].right)
    requires SegmentMeets(nodes[x].bounds, start, dir, distance)
    requires forall tri :: tri in nodes[x].triangles ==> LineHitsTriangle(start, dir, tri).Miss?
    ensures SomeStopped(nodes, stack + Link(nodes[x].right) + Link(nodes[x].left), start, dir, distance)
            <==> SomeStopped(nodes, stack + [x], start, dir, distance)
  {
    hide LineHitsTriangle, SegmentMeets, SomeStopped;
    var (l, r) := (nodes[x].left, nodes[x].right);
    var mid := stack + Link(r);
    StoppedPush(nodes, stack, x, start, dir, distance);
    if r != 0 { StoppedPush(nodes, stack, r, start, dir, distance); } else { assert mid == stack; }
    if l != 0 { StoppedPush(nodes, mid, l, start, dir, distance); } else { assert mid + Link(l) == mid; }
  }

  /** The invariant of the query loop. */
  ghost predicate Querying(nodes: seq<T.Node>, visits: seq<nat>, stack: seq<nat>, start: Vec, dir: Vec, distance: real) {
    && (forall k :: 0 <= k < |stack| ==> stack[k] < |nodes|)
    && Explored(nodes, visits, stack)
    && (Stopped(nodes, 0, start, dir, distance, 0.0) <==> SomeStopped(nodes, stack, start, dir, distance))
  }

  lemma QueryStarts(nodes: seq<T.Node>, start: Vec, dir: Vec, distance: real)
    requires nodes != []
    ensures Querying(nodes, [], [0], start, dir, distance)
  {
    hide Stopped;
    StoppedPush(nodes, [], 0, start, dir, distance);
    assert [] + [0] == [0];
  }

  lemma QueryPops(nodes: seq<T.Node>, visits: seq<nat>, stack: seq<nat>, x: nat, start: Vec, dir: Vec, distance: real)
    requires Querying(nodes, visits, stack + [x], start, dir, distance)
    ensures x < |nodes| && Explored(nodes, visits + [x], stack) && x !in visits
    ensures forall k :: 0 <= k < |stack| ==> stack[k] < |nodes|
    ensures StackWeight(stack, |nodes|) < StackWeight(stack + [x], |nodes|)
    ensures Stopped(nodes, x, start, dir, distance, 0.0) ==> Stopped(nodes, 0, start, dir, distance, 0.0)
    ensures !Stopped(nodes, x, start, dir, distance, 0.0) ==> Querying(nodes, visits + [x], stack, start, dir, distance)
  {
    hide StackWeight, Stopped;
    forall k | 0 <= k < |stack| ensures stack[k] < |nodes| { assert (stack + [x])[k] == stack[k]; }
    assert (stack + [x])[|stack|] == x;
    Visit(nodes, visits, stack, x);
    WeightPush(stack, x, |nodes|);
    StoppedPush(nodes, stack, x, start, dir, distance);
  }

  /** Replacing a node by its children. */
  lemma QueryPushes(nodes: seq<T.Node>, held: seq<seq<Tri>>, visits: seq<nat>, stack: seq<nat>, x: nat, start: Vec, dir: Vec, distance: real)
    requires T.Growing(nodes, held, []) && Querying(nodes, visits, stack + [x], start, dir, distance) && x < |nodes|
    requires SegmentMeets(nodes[x].bounds, start, dir, distance)
    requires forall tri :: tri in nodes[x].triangles ==> LineHitsTriangle(start, dir, tri).Miss?
    ensures var stack' := stack + Link(nodes[x].right) + Link(nodes[x].left);
            && Querying(nodes, visits + [x], stack', start, dir, distance)
            && (forall k :: 0 <= k < |stack'| ==> stack'[k] < |nodes|)
            && (forall k :: 0 <= k < |stack + [x]| ==> (stack + [x])[k] < |nodes|)
            && StackWeight(stack', |nodes|) < StackWeight(stack + [x], |nodes|)
  {
    hide T.Growing, LineHitsTriangle, Explored, StackWeight, Stopped, SomeStopped, SegmentMeets;
    QueryPops(nodes, visits, stack, x, start, dir, distance);
    NodeLinks(nodes, held, x);
    StoppedByChild(nodes, stack, x, start, dir, distance);
    var (l, r) := (nodes[x].left, nodes[x].right);
    var mid := stack + Link(r);
    assert x in visits + [x];
    if r != 0 {
      ChildIsNew(nodes, visits, stack + [x], x, r);
      Push(nodes, visits + [x], stack, x, r);
    } else {
      assert mid == stack;
    }
    if l != 0 {
      ChildIsNew(nodes, visits, stack + [x], x, l);
      Push(nodes, visits + [x], mid, x, l);
    } else {
      assert mid + Link(l) == mid;
    }
    PushesWeighLess(stack, |nodes|, x, l, r);
    var stack' := stack + Link(r) + Link(l);
    assert stack' == mid + Link(l) && Explored(nodes, visits + [x], stack');
  }

  lemma PushesWeighLess(stack: seq<nat>, n: nat, x: nat, l: nat, r: nat)
    requires x < n && (forall k :: 0 <= k < |stack| ==> stack[k] < n)
    requires (l != 0 ==> x < l < n) && (r != 0 ==> x < r < n) && (l != 0 && r != 0 ==> l != r)
    ensures var stack' := stack + Link(r) + Link(l);
            && (forall k :: 0 <= k < |stack'| ==> stack'[k] < n)
            && StackWeight(stack', n) < StackWeight(stack + [x], n)
  {
    hide StackWeight;
    WeightPush(stack, x, n);
    var mid := stack + Link(r);
    if r != 0 { WeightPush(stack, r, n); Pow2Grows(n - r + 1, n - x); } else { assert mid == stack; }
    if l != 0 { WeightPush(mid, l, n); Pow2Grows(n - l + 1, n - x); } else { assert mid + Link(l) == mid; }
    if l != 0 && r != 0 { ChildrenWeighLess(n, x, l, r); }
  }

  /** los_map_points_are_in_line_of_sight, for a direction of length 1: the view is blocked exactly if some path
      through boxes that the segment enters leads to a triangle that the line hits, at whatever distance; and no
      node is visited twice. */
  method PointsAreInLineOfSight(m: LosMap, start: Vec, dir: Vec, distance: real,
                                ghost nodes: seq<T.Node>, ghost held: seq<seq<Tri>>, ghost input: seq<Tri>)
    returns (visible: bool, ghost visits: seq<nat>)
    requires Dot(dir, dir) == 1.0
    requires m.nodes != [] ==> T.IsTree(nodes, held, input) && Mirrors(m, nodes)
    ensures visible <==> m.nodes == [] || !Stopped(nodes, 0, start, dir, distance, 0.0)
    ensures NoRepeats(visits)
  {
    visits := [];
    if m.nodes == [] || distance < EPSILON {
      return true, [];
    }
    var stack: seq<nat> := [0];
    QueryStarts(nodes, start, dir, distance);
    hide LineHitsTriangle, RayEntry, Along, T.Growing, NoRepeats, Querying, StackWeight, Explored;
    while stack != []
      invariant forall k :: 0 <= k < |stack| ==> stack[k] < |nodes|
      invariant Querying(nodes, visits, stack, start, dir, distance)
      decreases StackWeight(stack, |nodes|)
    {
      var x := stack[|stack| - 1];
      ghost var visits0, stack0 := visits, stack[..|stack| - 1];
      assert stack == stack0 + [x];
      stack, visits := stack[..|stack| - 1], visits + [x];
      QueryPops(nodes, visits0, stack0, x, start, dir, distance);
      assert NodeMirrors(m.nodes[x], m.triangles, nodes[x]);
      var near := SegmentHitsBox(m.nodes[x].bounds, start, dir, distance);
      if !near {
        continue;
      }
      var blocked := AnyHit(start, dir, m.triangles[m.nodes[x].first..m.nodes[x].first + m.nodes[x].count]);
      if blocked {
        HitIsStop(nodes, x, start, dir, distance);
        VisitsOnce(nodes, visits, stack);
        return false, visits;
      }
      if m.nodes[x].right != 0 {
        stack := stack + [m.nodes[x].right];
      }
      if m.nodes[x].left != 0 {
        stack := stack + [m.nodes[x].left];
      }
      assert stack == stack0 + Link(nodes[x].right) + Link(nodes[x].left);
      QueryPushes(nodes, held, visits0, stack0, x, start, dir, distance);
    }
    QueryEnds(nodes, visits, start, dir, distance);
    visible := true;
  }

  lemma HitIsStop(nodes: seq<T.Node>, x: nat, start: Vec, dir: Vec, distance: real)
    requires x < |nodes| && SegmentMeets(nodes[x].bounds, start, dir, distance)
    requires exists tri :: tri in nodes[x].triangles && LineHitsTriangle(start, dir, tri).At?
    ensures Stopped(nodes, x, start, dir, distance, 0.0)
  {
    hide LineHitsTriangle, SegmentMeets;
    var tri :| tri in nodes[x].triangles && LineHitsTriangle(start, dir, tri).At?;
    HitInHull(start, dir, tri);
  }

  lemma VisitsOnce(nodes: seq<T.Node>, visits: seq<nat>, stack: seq<nat>)
    requires Explored(nodes, visits, stack)
    ensures NoRepeats(visits)
  {
    forall i, j | 0 <= i < j < |visits| ensures visits[i] != visits[j] {
      assert (visits + stack)[i] == visits[i] && (visits + stack)[j] == visits[j];
    }
  }

  lemma QueryEnds(nodes: seq<T.Node>, visits: seq<nat>, start: Vec, dir: Vec, distance: real)
    requires Querying(nodes, visits, [], start, dir, distance)
    ensures NoRepeats(visits) && !Stopped(nodes, 0, start, dir, distance, 0.0)
  {
    hide NoRepeats, Stopped;
    VisitsOnce(nodes, visits, []);
  }

  // ----- A wall behind the target

  const WALL: Tri := Tri(Vec(0.0, 0.0, 0.0), Vec(4.0, 4.0, 0.0), Vec(4.0, 0.0, 4.0))
  const EYE: Vec := Vec(-1.0, 1.0, 1.0)
  const AHEAD: Vec := Vec(1.0, 0.0, 0.0)

  lemma WallBounds()
    ensures T.BoundsOf([WALL]) == Box(Vec(0.0, 0.0, 0.0), Vec(4.0, 4.0, 4.0))
  {
    assert [WALL][..0] == [];
  }

  lemma WallIsHit()
    ensures LineHitsTriangle(EYE, AHEAD, WALL) == At(3.0)
  {
    hide LineHitsTriangle, Det, Along, OnPlane;
    WallFaces();
    WallMeets();
    OnTriangleIsHit(EYE, AHEAD, WALL, 3.0, 0.25, 0.25);
  }

  lemma WallEdges()
    ensures Minus(WALL.b, WALL.a) == Vec(4.0, 4.0, 0.0) && Minus(WALL.c, WALL.a) == Vec(4.0, 0.0, 4.0)
  {
    assert WALL.a == Vec(0.0, 0.0, 0.0);
    MinusOrigin(WALL.b);
    MinusOrigin(WALL.c);
    hide Minus;
  }

  lemma MinusOrigin(v: Vec)
    ensures Minus(v, Vec(0.0, 0.0, 0.0)) == v
  {
  }

  lemma WallFaces()
    ensures Det(AHEAD, WALL) == -16.0
  {
    WallEdges();
    hide Minus;
    assert Cross(AHEAD, Vec(4.0, 0.0, 4.0)) == Vec(0.0, -4.0, 0.0);
    hide Cross;
    assert Dot(Vec(4.0, 4.0, 0.0), Vec(0.0, -4.0, 0.0)) == -16.0;
  }

  lemma WallMeets()
    ensures Along(EYE, AHEAD, 3.0) == OnPlane(WALL, 0.25, 0.25)
  {
    WallEdges();
    hide Minus;
    assert Times(3.0, 1.0) == 3.0 && Times(3.0, 0.0) == 0.0;
    assert Times(0.25, 4.0) == 1.0 && Times(0.25, 0.0) == 0.0;
    hide Times;
  }

  /** The line enters the wall's box after 1 and meets the wall after 3. */
  lemma BoxIsEntered()
    ensures RayEntry(Box(Vec(0.0, 0.0, 0.0), Vec(4.0, 4.0, 4.0)), EYE, AHEAD) == EnteredAt(1.0)
  {
    var box := Box(Vec(0.0, 0.0, 0.0), Vec(4.0, 4.0, 4.0));
    assert !InSlab(box, 0, Coord(EYE, 0));
    assert NearTime(box, EYE, AHEAD, 0) == 1.0 && NearTime(box, EYE, AHEAD, 1) == -1.0 && NearTime(box, EYE, AHEAD, 2) == -1.0;
  }

  /** A target between the box and the wall counts as hidden: no triangle crosses the segment, and still the
      query is stopped. */
  lemma WallBehindStops()
    ensures !SomeBlocks([WALL], EYE, AHEAD, 2.0) && Dot(AHEAD, AHEAD) == 1.0
    ensures Stopped([T.Node([WALL], 0, 0, T.BoundsOf([WALL]))], 0, EYE, AHEAD, 2.0, 0.0)
  {
    WallBounds();
    WallIsHit();
    BoxIsEntered();
    hide LineHitsTriangle, RayEntry;
    var nodes := [T.Node([WALL], 0, 0, T.BoundsOf([WALL]))];
    assert WALL in nodes[0].triangles;
  }

  // ----- A wall far behind the target

  function FloorTri(k: real): Tri { Tri(Vec(0.0, k, 0.0), Vec(1.0, k, 0.0), Vec(0.0, k + 1.0, 0.0)) }

  const FAR_WALL: Tri := Tri(Vec(100.0, -10.0, -10.0), Vec(100.0, 30.0, -10.0), Vec(100.0, -10.0, 30.0))
  const HALL: seq<Tri> := [FloorTri(0.0), FloorTri(1.0), FloorTri(2.0), FloorTri(3.0), FAR_WALL]
  const LOOKOUT: Vec := Vec(-1.0, 5.0, 5.0)

  lemma BoundsNext(tris: seq<Tri>, t: Tri)
    ensures T.BoundsOf(tris + [t]) == AddTriangle(T.BoundsOf(tris), t)
  {
    assert (tris + [t])[..|tris|] == tris;
  }

  lemma HallBounds()
    ensures T.BoundsOf(HALL) == Box(Vec(0.0, -10.0, -10.0), Vec(100.0, 30.0, 30.0))
  {
    var (a, b, c, d) := (FloorTri(0.0), FloorTri(1.0), FloorTri(2.0), FloorTri(3.0));
    BoundsNext([], a);
    BoundsNext([a], b);
    BoundsNext([a, b], c);
    BoundsNext([a, b, c], d);
    BoundsNext([a, b, c, d], FAR_WALL);
    assert [] + [a] == [a] && [a] + [b] == [a, b] && [a, b] + [c] == [a, b, c] && [a, b, c] + [d] == [a, b, c, d];
    assert [a, b, c, d] + [FAR_WALL] == HALL;
  }

  lemma ParallelMisses(start: Vec, dir: Vec, tri: Tri)
    requires Det(dir, tri) == 0.0
    ensures LineHitsTriangle(start, dir, tri) == Miss
  {
    hide Minus, Cross, Dot;
  }

  lemma FloorEdges(k: real)
    ensures Minus(FloorTri(k).b, FloorTri(k).a) == Vec(1.0, 0.0, 0.0) && Minus(FloorTri(k).c, FloorTri(k).a) == Vec(0.0, 1.0, 0.0)
  {
  }

  lemma FloorNormal()
    ensures Cross(AHEAD, Vec(0.0, 1.0, 0.0)) == Vec(0.0, 0.0, 1.0) && Dot(Vec(1.0, 0.0, 0.0), Vec(0.0, 0.0, 1.0)) == 0.0
  {
  }

  /** The line runs along the plane of the floor, which it therefore misses. */
  lemma FloorIsMissed(k: real)
    ensures LineHitsTriangle(LOOKOUT, AHEAD, FloorTri(k)) == Miss
  {
    hide Minus, Cross, Dot, LineHitsTriangle, FloorTri;
    FloorEdges(k);
    FloorNormal();
    ParallelMisses(LOOKOUT, AHEAD, FloorTri(k));
  }

  /** The root is cut at x = 50: the floor goes left, the wall right. */
  lemma HallIsCut(nodes: seq<T.Node>, held: seq<seq<Tri>>)
    requires T.RootOk(nodes, held, HALL) && T.WellDivided(nodes, held)
    ensures nodes[0].triangles == []
    ensures T.CutInto(nodes, held, 0, Box(Vec(0.0, -10.0, -10.0), Vec(50.0, 30.0, 30.0)), Box(Vec(50.0, -10.0, -10.0), Vec(100.0, 30.0, 30.0)))
  {
    HallBounds();
    hide T.BoundsOf, T.CutInto;
    assert !T.HasAncestors(nodes, 0, 16);
    assert T.CutAtMiddle(nodes, held, 0);
  }

  lemma FloorGoesLeft(nodes: seq<T.Node>, held: seq<seq<Tri>>, tri: Tri)
    requires |nodes| == |held| > 0 && held[0] == HALL
    requires T.CutInto(nodes, held, 0, Box(Vec(0.0, -10.0, -10.0), Vec(50.0, 30.0, 30.0)), Box(Vec(50.0, -10.0, -10.0), Vec(100.0, 30.0, 30.0)))
    ensures nodes[0].left != 0 ==> nodes[0].left < |nodes| && (tri in held[nodes[0].left] ==> LineHitsTriangle(LOOKOUT, AHEAD, tri).Miss?)
    ensures nodes[0].right != 0 ==> nodes[0].right < |nodes| && (tri in held[nodes[0].right] ==> tri == FAR_WALL)
  {
    FloorIsMissed(0.0);
    FloorIsMissed(1.0);
    FloorIsMissed(2.0);
    FloorIsMissed(3.0);
    hide LineHitsTriangle, T.BoundsOf, T.Raised;
    var (l, r) := (T.Under(held, nodes[0].left), T.Under(held, nodes[0].right));
    assert tri in l ==> multiset(l)[tri] > 0;
    assert tri in r ==> multiset(r)[tri] > 0;
    assert multiset(HALL)[tri] > 0 ==> tri in HALL;
  }

  lemma {:induction false} CoordsOfCopies(tris: seq<Tri>, tri: Tri)
    requires forall t :: t in tris ==> t == tri
    ensures T.Coords(tris, AxisX) <= {tri.a.x, tri.b.x, tri.c.x}
  {
    if tris != [] {
      var front := tris[..|tris| - 1];
      forall t | t in front ensures t == tri { assert t in tris; }
      assert tris[|tris| - 1] in tris;
      CoordsOfCopies(front, tri);
    }
  }

  /** The box of the wall is not entered before 101. */
  lemma FarBoxIsFar(box: Box, tris: seq<Tri>, half: Box)
    requires T.Raised(box, T.BoundsOf(tris), half) && forall t :: t in tris ==> t == FAR_WALL
    ensures !SegmentMeets(box, LOOKOUT, AHEAD, 2.0)
  {
    T.BoundsTight(tris, AxisX);
    CoordsOfCopies(tris, FAR_WALL);
    assert box.lo.x >= 100.0;
    hide T.BoundsOf, T.Coords;
    assert NearTime(box, LOOKOUT, AHEAD, 0) >= 101.0;
    hide NearTime;
  }

  /** A target in front of a wall far away is seen, in every tree that is divided as it should be: the wall lies in
      another half, whose box the segment does not enter. */
  lemma FarWallIsPassed(nodes: seq<T.Node>, held: seq<seq<Tri>>)
    requires T.IsTree(nodes, held, HALL) && T.WellDivided(nodes, held)
    ensures !Stopped(nodes, 0, LOOKOUT, AHEAD, 2.0, 0.0)
  {
    HallIsCut(nodes, held);
    forall tri
      ensures nodes[0].left != 0 ==> nodes[0].left < |nodes| && (tri in held[nodes[0].left] ==> LineHitsTriangle(LOOKOUT, AHEAD, tri).Miss?)
      ensures nodes[0].right != 0 ==> nodes[0].right < |nodes| && (tri in held[nodes[0].right] ==> tri == FAR_WALL)
    {
      FloorGoesLeft(nodes, held, tri);
    }
    hide LineHitsTriangle, SegmentMeets, T.Growing, T.WellDivided, T.BoundsOf, T.Raised, Excludes, ContainsTri;
    var (l, r) := (nodes[0].left, nodes[0].right);
    if 0 < l && Stopped(nodes, l, LOOKOUT, AHEAD, 2.0, 0.0) {
      StoppedByHeld(nodes, held, l, LOOKOUT, AHEAD, 2.0, 0.0);
    }
    if 0 < r {
      FarBoxIsFar(nodes[r].bounds, held[r], Box(Vec(50.0, -10.0, -10.0), Vec(100.0, 30.0, 30.0)));
    }
  }
}
