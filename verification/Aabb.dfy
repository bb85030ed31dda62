/** Axis-aligned boxes (`aabb.c`), over reals. */
module Aabb {
  import opened Geometry

  const FAR: real := 999999.0

  datatype Box = Box(lo: Vec, hi: Vec)

  datatype Axis = AxisX | AxisY | AxisZ

  /** aabb_init: a box that no point has been added to. */
  const EMPTY: Box := Box(Vec(FAR, FAR, FAR), Vec(-FAR, -FAR, -FAR))

  function Min(a: real, b: real): real { if a < b then a else b }

  function Max(a: real, b: real): real { if a > b then a else b }

  ghost predicate Proper(box: Box) { box.lo.x <= box.hi.x && box.lo.y <= box.hi.y && box.lo.z <= box.hi.z }

  /** aabb_contains_point */
  predicate Contains(box: Box, p: Vec) {
    && p.x >= box.lo.x && p.y >= box.lo.y && p.z >= box.lo.z
    && p.x <= box.hi.x && p.y <= box.hi.y && p.z <= box.hi.z
  }

  /** aabb_init_from_corners */
  function FromCorners(a: Vec, b: Vec): Box {
    Box(Vec(Min(a.x, b.x), Min(a.y, b.y), Min(a.z, b.z)), Vec(Max(a.x, b.x), Max(a.y, b.y), Max(a.z, b.z)))
  }

  /** aabb_add_internal_point */
  function AddPoint(box: Box, p: Vec): Box {
    Box(Vec(Min(p.x, box.lo.x), Min(p.y, box.lo.y), Min(p.z, box.lo.z)),
        Vec(Max(p.x, box.hi.x), Max(p.y, box.hi.y), Max(p.z, box.hi.z)))
  }

  function AddTriangle(box: Box, tri: Tri): Box { AddPoint(AddPoint(AddPoint(box, tri.a), tri.b), tri.c) }

  function Extent(box: Box): Vec { Minus(box.hi, box.lo) }

  function Center(box: Box): Vec {
    Vec((box.lo.x + box.hi.x) * 0.5, (box.lo.y + box.hi.y) * 0.5, (box.lo.z + box.hi.z) * 0.5)
  }

  /** aabb_clamp, as written: it raises both corners. */
  function Clamp(box: Box, to: Box): Box {
    Box(Vec(Max(to.lo.x, box.lo.x), Max(to.lo.y, box.lo.y), Max(to.lo.z, box.lo.z)),
        Vec(Max(to.hi.x, box.hi.x), Max(to.hi.y, box.hi.y), Max(to.hi.z, box.hi.z)))
  }

  /** aabb_split */
  function Split(box: Box, axis: Axis): (Box, Box) {
    var c := Center(box);
    match axis
    case AxisX => (FromCorners(box.lo, Vec(c.x, box.hi.y, box.hi.z)), FromCorners(Vec(c.x, box.lo.y, box.lo.z), box.hi))
    case AxisY => (FromCorners(box.lo, Vec(box.hi.x, c.y, box.hi.z)), FromCorners(Vec(box.lo.x, c.y, box.lo.z), box.hi))
    case AxisZ => (FromCorners(box.lo, Vec(box.hi.x, box.hi.y, c.z)), FromCorners(Vec(box.lo.x, box.lo.y, c.z), box.hi))
  }

  // ----- Clip codes

  /** aabb_clip_vector: one bit per side that the point lies beyond. */
  function ClipVector(box: Box, p: Vec): bv8 {
    (if p.x < box.lo.x then 1 else if p.x > box.hi.x then 2 else 0)
    | (if p.y < box.lo.y then 4 else if p.y > box.hi.y then 8 else 0)
    | (if p.z < box.lo.z then 16 else if p.z > box.hi.z then 32 else 0)
  }

  /** aabb_clip_triangle: the codes of the corners joined by or, and by and. */
  function ClipOr(box: Box, tri: Tri): bv8 { ClipVector(box, tri.a) | ClipVector(box, tri.b) | ClipVector(box, tri.c) }

  function ClipAnd(box: Box, tri: Tri): bv8 { ClipVector(box, tri.a) & ClipVector(box, tri.b) & ClipVector(box, tri.c) }

  /** aabb_contains_triangle_precise: not all corners beyond the same side. */
  predicate MayContain(box: Box, tri: Tri) { ClipAnd(box, tri) == 0 }

  /** aabb_excludes_triangle */
  predicate Excludes(box: Box, tri: Tri) {
    || (tri.a.x < box.lo.x && tri.b.x < box.lo.x && tri.c.x < box.lo.x)
    || (tri.a.y < box.lo.y && tri.b.y < box.lo.y && tri.c.y < box.lo.y)
    || (tri.a.z < box.lo.z && tri.b.z < box.lo.z && tri.c.z < box.lo.z)
    || (tri.a.x > box.hi.x && tri.b.x > box.hi.x && tri.c.x > box.hi.x)
    || (tri.a.y > box.hi.y && tri.b.y > box.hi.y && tri.c.y > box.hi.y)
    || (tri.a.z > box.hi.z && tri.b.z > box.hi.z && tri.c.z > box.hi.z)
  }

  /** The point lies within the bounds of the triangle's corners on every axis. */
  ghost predicate InHull(tri: Tri, p: Vec) {
    && Min(Min(tri.a.x, tri.b.x), tri.c.x) <= p.x <= Max(Max(tri.a.x, tri.b.x), tri.c.x)
    && Min(Min(tri.a.y, tri.b.y), tri.c.y) <= p.y <= Max(Max(tri.a.y, tri.b.y), tri.c.y)
    && Min(Min(tri.a.z, tri.b.z), tri.c.z) <= p.z <= Max(Max(tri.a.z, tri.b.z), tri.c.z)
  }

  ghost predicate ContainsTri(box: Box, tri: Tri) { Contains(box, tri.a) && Contains(box, tri.b) && Contains(box, tri.c) }

  /** The clip codes agree with the direct test, and no code at all means that the box holds the triangle. */
  lemma ClipCodes(box: Box, tri: Tri)
    requires Proper(box)
    ensures MayContain(box, tri) <==> !Excludes(box, tri)
    ensures ClipOr(box, tri) == 0 <==> ContainsTri(box, tri)
  {
    ClipBits(box, tri.a);
    ClipBits(box, tri.b);
    ClipBits(box, tri.c);
    hide ClipVector;
    AndBits(ClipVector(box, tri.a), ClipVector(box, tri.b), ClipVector(box, tri.c));
  }

  lemma ClipBits(box: Box, p: Vec)
    requires Proper(box)
    ensures var k := ClipVector(box, p);
            && k & 0xC0 == 0
            && (k & 1 != 0 <==> p.x < box.lo.x) && (k & 2 != 0 <==> p.x > box.hi.x)
            && (k & 4 != 0 <==> p.y < box.lo.y) && (k & 8 != 0 <==> p.y > box.hi.y)
            && (k & 16 != 0 <==> p.z < box.lo.z) && (k & 32 != 0 <==> p.z > box.hi.z)
  {
  }

  lemma AndBits(a: bv8, b: bv8, c: bv8)
    requires a & 0xC0 == 0 && b & 0xC0 == 0 && c & 0xC0 == 0
    ensures a & b & c != 0 <==>
            || (a & 1 != 0 && b & 1 != 0 && c & 1 != 0) || (a & 2 != 0 && b & 2 != 0 && c & 2 != 0)
            || (a & 4 != 0 && b & 4 != 0 && c & 4 != 0) || (a & 8 != 0 && b & 8 != 0 && c & 8 != 0)
            || (a & 16 != 0 && b & 16 != 0 && c & 16 != 0) || (a & 32 != 0 && b & 32 != 0 && c & 32 != 0)
    ensures a | b | c == 0 <==> a == 0 && b == 0 && c == 0
    ensures a == 0 <==> a & 1 == 0 && a & 2 == 0 && a & 4 == 0 && a & 8 == 0 && a & 16 == 0 && a & 32 == 0
    ensures b == 0 <==> b & 1 == 0 && b & 2 == 0 && b & 4 == 0 && b & 8 == 0 && b & 16 == 0 && b & 32 == 0
    ensures c == 0 <==> c & 1 == 0 && c & 2 == 0 && c & 4 == 0 && c & 8 == 0 && c & 16 == 0 && c & 32 == 0
  {
  }

  /** A box that holds a point of the hull does not exclude the triangle. */
  lemma PointKeepsTriangle(box: Box, tri: Tri, p: Vec)
    requires InHull(tri, p) && Contains(box, p)
    ensures !Excludes(box, tri)
  {
  }

  /** A box excludes a triangle exactly if it has no point in common with the bounds of its corners. */
  lemma ExcludesIff(box: Box, tri: Tri)
    requires Proper(box)
    ensures Excludes(box, tri) <==> !exists p :: InHull(tri, p) && Contains(box, p)
  {
    var p := Vec(Max(box.lo.x, Min(Min(tri.a.x, tri.b.x), tri.c.x)), Max(box.lo.y, Min(Min(tri.a.y, tri.b.y), tri.c.y)),
                 Max(box.lo.z, Min(Min(tri.a.z, tri.b.z), tri.c.z)));
    if !Excludes(box, tri) { assert InHull(tri, p) && Contains(box, p); }
    forall p | InHull(tri, p) && Contains(box, p) ensures !Excludes(box, tri) { PointKeepsTriangle(box, tri, p); }
  }

  /** A point of the triangle lies in its hull. */
  lemma InsideIsInHull(tri: Tri, u: real, v: real)
    requires Inside(u, v)
    ensures InHull(tri, OnPlane(tri, u, v))
  {
    hide Min, Max, Times;
    Weighted(tri.a.x, tri.b.x, tri.c.x, u, v);
    Weighted(tri.a.y, tri.b.y, tri.c.y, u, v);
    Weighted(tri.a.z, tri.b.z, tri.c.z, u, v);
  }

  lemma Weighted(a: real, b: real, c: real, u: real, v: real)
    requires Inside(u, v)
    ensures Min(Min(a, b), c) <= a + Times(u, b - a) + Times(v, c - a) <= Max(Max(a, b), c)
  {
    WeightedBounds(Min(Min(a, b), c), Max(Max(a, b), c), a, b, c, u, v);
  }

  lemma WeightedBounds(lo: real, hi: real, a: real, b: real, c: real, u: real, v: real)
    requires Inside(u, v) && lo <= a <= hi && lo <= b <= hi && lo <= c <= hi
    ensures lo <= a + u * (b - a) + v * (c - a) <= hi
  {
    var w := 1.0 - u - v;
    NotNegative(w, a - lo);
    NotNegative(u, b - lo);
    NotNegative(v, c - lo);
    NotNegative(w, hi - a);
    NotNegative(u, hi - b);
    NotNegative(v, hi - c);
    Regroup(a, b, c, u, v, lo);
    Regroup(a, b, c, u, v, hi);
  }

  lemma NotNegative(x: real, y: real)
    requires x >= 0.0 && y >= 0.0
    ensures x * y >= 0.0
  {
  }

  /** The weighted mean as a distance from m. */
  lemma Regroup(a: real, b: real, c: real, u: real, v: real, m: real)
    ensures a + u * (b - a) + v * (c - a) - m == (1.0 - u - v) * (a - m) + u * (b - m) + v * (c - m)
    ensures m - (a + u * (b - a) + v * (c - a)) == (1.0 - u - v) * (m - a) + u * (m - b) + v * (m - c)
  {
  }

  /** The halves of a split cover the box, whatever the axis. */
  lemma SplitCovers(box: Box, axis: Axis, p: Vec)
    requires Proper(box)
    ensures Proper(Split(box, axis).0) && Proper(Split(box, axis).1)
    ensures Contains(box, p) ==> Contains(Split(box, axis).0, p) || Contains(Split(box, axis).1, p)
  {
  }

  /** A clamped box keeps every point of both boxes, and stays proper. */
  lemma ClampKeeps(box: Box, to: Box, p: Vec)
    requires Proper(box) && Proper(to)
    ensures Proper(Clamp(box, to))
    ensures Contains(box, p) && Contains(to, p) ==> Contains(Clamp(box, to), p)
  {
  }
}
