/** Vectors, triangles and the line/triangle test (`geometry.h`, `line_of_sight_map.c`), over reals. */
module Geometry {

  const EPSILON: real := 0.00001

  datatype Vec = Vec(x: real, y: real, z: real)

  datatype Tri = Tri(a: Vec, b: Vec, c: Vec)

  datatype Hit = Miss | At(t: real)

  function Minus(p: Vec, q: Vec): Vec { Vec(p.x - q.x, p.y - q.y, p.z - q.z) }

  function Dot(p: Vec, q: Vec): real { p.x * q.x + p.y * q.y + p.z * q.z }

  function Cross(p: Vec, q: Vec): Vec {
    Vec(p.y * q.z - p.z * q.y, p.z * q.x - p.x * q.z, p.x * q.y - p.y * q.x)
  }

  function Times(a: real, b: real): real { a * b }

  /** The point at distance t along a line. */
  function Along(start: Vec, dir: Vec, t: real): Vec {
    Vec(start.x + Times(t, dir.x), start.y + Times(t, dir.y), start.z + Times(t, dir.z))
  }

  /** The point of the plane of a triangle with edge coordinates u and v. */
  function OnPlane(tri: Tri, u: real, v: real): Vec {
    var e1, e2 := Minus(tri.b, tri.a), Minus(tri.c, tri.a);
    Vec(tri.a.x + Times(u, e1.x) + Times(v, e2.x), tri.a.y + Times(u, e1.y) + Times(v, e2.y), tri.a.z + Times(u, e1.z) + Times(v, e2.z))
  }

  /** The determinant that is near 0 when the line runs along the plane of the triangle. */
  function Det(dir: Vec, tri: Tri): real {
    Dot(Minus(tri.b, tri.a), Cross(dir, Minus(tri.c, tri.a)))
  }

  function Recip(a: real): real
    requires a != 0.0
  {
    1.0 / a
  }

  /** The decisions of the line/triangle test on the four products it forms. */
  function Decide(a: real, su: real, sv: real, st: real): Hit {
    if -EPSILON < a < EPSILON then Miss
    else
      var f := Recip(a);
      var u := f * su;
      if u < 0.0 || u > 1.0 then Miss
      else
        var v := f * sv;
        if v < 0.0 || u + v > 1.0 then Miss
        else
          var t := f * st;
          if t <= 0.0 then Miss else At(t)
  }

  /** los_map_line_intersects_triangle */
  function LineHitsTriangle(start: Vec, dir: Vec, tri: Tri): Hit {
    var e1, e2, s := Minus(tri.b, tri.a), Minus(tri.c, tri.a), Minus(start, tri.a);
    var h, q := Cross(dir, e2), Cross(s, e1);
    Decide(Dot(e1, h), Dot(s, h), Dot(dir, q), Dot(e2, q))
  }

  /** Coordinates of a point of the (closed) triangle. */
  ghost predicate Inside(u: real, v: real) { u >= 0.0 && v >= 0.0 && u + v <= 1.0 }

  // ----- The test means what it should

  /** Cramer's rule, one way: the products that the test forms solve a*s + t*d = u*e1 + v*e2. */
  lemma CramerSolves(s: Vec, d: Vec, e1: Vec, e2: Vec)
    ensures var a, u, v, t := Dot(e1, Cross(d, e2)), Dot(s, Cross(d, e2)), Dot(d, Cross(s, e1)), Dot(e2, Cross(s, e1));
            && a * s.x + t * d.x == u * e1.x + v * e2.x
            && a * s.y + t * d.y == u * e1.y + v * e2.y
            && a * s.z + t * d.z == u * e1.z + v * e2.z
  {
  }

  lemma TripleTurns(p: Vec, q: Vec, r: Vec)
    ensures Dot(p, Cross(q, r)) == Dot(q, Cross(r, p))
  {
  }

  lemma TripleProduct(p: Vec, q: Vec, r: Vec)
    ensures Dot(p, Cross(q, r)) == Dot(q, Cross(r, p)) == Dot(r, Cross(p, q))
    ensures Dot(p, Cross(p, q)) == 0.0 && Dot(q, Cross(p, q)) == 0.0
  {
    TripleTurns(p, q, r);
    TripleTurns(q, r, p);
  }

  function Combine(u: real, p: Vec, v: real, q: Vec, t: real, r: Vec): Vec {
    Vec(Times(u, p.x) + Times(v, q.x) - Times(t, r.x), Times(u, p.y) + Times(v, q.y) - Times(t, r.y), Times(u, p.z) + Times(v, q.z) - Times(t, r.z))
  }

  lemma DotLinear(u: real, p: Vec, v: real, q: Vec, t: real, r: Vec, w: Vec)
    ensures Dot(Combine(u, p, v, q, t, r), w) == u * Dot(p, w) + v * Dot(q, w) - t * Dot(r, w)
  {
  }

  /** Cramer's rule, the other way: any solution is the one that the products give. */
  lemma CramerUnique(d: Vec, e1: Vec, e2: Vec, u: real, v: real, t: real)
    ensures var s := Combine(u, e1, v, e2, t, d);
            var a := Dot(e1, Cross(d, e2));
            && Dot(s, Cross(d, e2)) == u * a
            && Dot(d, Cross(s, e1)) == v * a
            && Dot(e2, Cross(s, e1)) == t * a
  {
    hide Dot, Cross, Combine;
    var s := Combine(u, e1, v, e2, t, d);
    DotLinear(u, e1, v, e2, t, d, Cross(d, e2));
    TripleProduct(d, e2, e1);
    // d . (s x e1) == s . (e1 x d)  and  e2 . (s x e1) == s . (e1 x e2)
    TripleProduct(d, s, e1);
    DotLinear(u, e1, v, e2, t, d, Cross(e1, d));
    TripleProduct(e1, d, e2);
    TripleProduct(e2, s, e1);
    DotLinear(u, e1, v, e2, t, d, Cross(e1, e2));
    TripleProduct(e1, e2, d);
    CrossFlips(d, e2);
    DotOfNegated(e1, Cross(d, e2), Cross(e2, d));
  }

  lemma CrossFlips(p: Vec, q: Vec)
    ensures Cross(q, p) == Vec(-Cross(p, q).x, -Cross(p, q).y, -Cross(p, q).z)
  {
  }

  lemma DotOfNegated(p: Vec, q: Vec, r: Vec)
    requires r == Vec(-q.x, -q.y, -q.z)
    ensures Dot(p, r) == -Dot(p, q)
  {
  }

  /** A hit at t is a point of the triangle. */
  lemma HitIsOnTriangle(start: Vec, dir: Vec, tri: Tri) returns (u: real, v: real)
    requires LineHitsTriangle(start, dir, tri).At?
    ensures var t := LineHitsTriangle(start, dir, tri).t;
            t > 0.0 && Inside(u, v) && Along(start, dir, t) == OnPlane(tri, u, v)
  {
    var e1, e2, s := Minus(tri.b, tri.a), Minus(tri.c, tri.a), Minus(start, tri.a);
    hide Dot, Cross, Decide, Along, OnPlane;
    var (a, su, sv, st) := (Dot(e1, Cross(dir, e2)), Dot(s, Cross(dir, e2)), Dot(dir, Cross(s, e1)), Dot(e2, Cross(s, e1)));
    DecideMeans(a, su, sv, st);
    hide Recip, Times, Minus;
    u, v := Recip(a) * su, Recip(a) * sv;
    CramerSolves(s, dir, e1, e2);
    Scaled(a, s.x, dir.x, e1.x, e2.x, st, su, sv);
    Scaled(a, s.y, dir.y, e1.y, e2.y, st, su, sv);
    Scaled(a, s.z, dir.z, e1.z, e2.z, st, su, sv);
    Meets(start, dir, tri, Recip(a) * st, u, v);
  }

  /** The equation s + t*d = u*e1 + v*e2 says that the line meets the plane. */
  lemma Meets(start: Vec, dir: Vec, tri: Tri, t: real, u: real, v: real)
    ensures Along(start, dir, t) == OnPlane(tri, u, v)
            <==> Minus(start, tri.a) == Combine(u, Minus(tri.b, tri.a), v, Minus(tri.c, tri.a), t, dir)
  {
    hide Times;
  }

  lemma DecideMeans(a: real, su: real, sv: real, st: real)
    requires Decide(a, su, sv, st).At?
    ensures a != 0.0 && Inside(Recip(a) * su, Recip(a) * sv) && Decide(a, su, sv, st).t == Recip(a) * st > 0.0
  {
    hide Recip;
  }

  /** Dividing one coordinate of a*s + t*d = u*e1 + v*e2 by a. */
  lemma Scaled(a: real, s: real, d: real, e1: real, e2: real, t: real, u: real, v: real)
    requires a != 0.0 && a * s + t * d == u * e1 + v * e2
    ensures var f := Recip(a); s == Times(f * u, e1) + Times(f * v, e2) - Times(f * t, d)
  {
    var f := Recip(a);
    assert f * (a * s + t * d) == f * (u * e1 + v * e2);
    assert f * a == 1.0;
    assert f * (a * s) == (f * a) * s;
    assert f * (t * d) == (f * t) * d && f * (u * e1) == (f * u) * e1 && f * (v * e2) == (f * v) * e2;
  }

  /** The test reports exactly the crossings of the line with the triangle at t > 0, except where the
      line runs almost along the plane of the triangle. */
  lemma HitIff(start: Vec, dir: Vec, tri: Tri, t: real)
    ensures LineHitsTriangle(start, dir, tri) == At(t) <==>
            && !(-0.00001 < Det(dir, tri) < 0.00001)
            && t > 0.0
            && exists u, v :: Inside(u, v) && Along(start, dir, t) == OnPlane(tri, u, v)
  {
    if LineHitsTriangle(start, dir, tri) == At(t) {
      var u, v := HitIsOnTriangle(start, dir, tri);
    }
    if !(-0.00001 < Det(dir, tri) < 0.00001) && t > 0.0 {
      forall u, v | Inside(u, v) && Along(start, dir, t) == OnPlane(tri, u, v)
        ensures LineHitsTriangle(start, dir, tri) == At(t)
      {
        OnTriangleIsHit(start, dir, tri, t, u, v);
      }
    }
  }

  lemma OnTriangleIsHit(start: Vec, dir: Vec, tri: Tri, t: real, u: real, v: real)
    requires !(-0.00001 < Det(dir, tri) < 0.00001) && t > 0.0
    requires Inside(u, v) && Along(start, dir, t) == OnPlane(tri, u, v)
    ensures LineHitsTriangle(start, dir, tri) == At(t)
  {
    hide Dot, Cross, Combine, OnPlane, Along, Minus, Decide;
    var e1, e2, s := Minus(tri.b, tri.a), Minus(tri.c, tri.a), Minus(start, tri.a);
    Meets(start, dir, tri, t, u, v);
    CramerUnique(dir, e1, e2, u, v, t);
    DecideHit(Dot(e1, Cross(dir, e2)), u, v, t, Dot(s, Cross(dir, e2)), Dot(dir, Cross(s, e1)), Dot(e2, Cross(s, e1)));
  }

  lemma DecideHit(a: real, u: real, v: real, t: real, su: real, sv: real, st: real)
    requires !(-0.00001 < a < 0.00001) && Inside(u, v) && t > 0.0
    requires su == u * a && sv == v * a && st == t * a
    ensures Decide(a, su, sv, st) == At(t)
  {
    hide Recip, Decide;
    Undo(a, u, su);
    Undo(a, v, sv);
    Undo(a, t, st);
    DecideFrom(a, u, v, t, su, sv, st);
  }

  lemma DecideFrom(a: real, u: real, v: real, t: real, su: real, sv: real, st: real)
    requires !(-0.00001 < a < 0.00001) && Inside(u, v) && t > 0.0
    requires Recip(a) * su == u && Recip(a) * sv == v && Recip(a) * st == t
    ensures Decide(a, su, sv, st) == At(t)
  {
    hide Recip;
  }

  lemma Undo(a: real, x: real, scaled: real)
    requires a != 0.0 && scaled == x * a
    ensures Recip(a) * scaled == x
  {
    assert Recip(a) * (x * a) == (Recip(a) * a) * x;
  }
}
