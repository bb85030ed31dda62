/** The ray and segment tests against a box (`aabb.c`), over reals. */
module RayBox {
  import opened Geometry
  import opened Aabb

  function Coord(v: Vec, i: nat): real
    requires i < 3
  {
    if i == 0 then v.x else if i == 1 then v.y else v.z
  }

  /** One coordinate after time t. */
  function Move(o: real, d: real, t: real): real { o + t * d }

  lemma MoveAlong(origin: Vec, dir: Vec, t: real)
    ensures forall k :: 0 <= k < 3 ==> Coord(Along(origin, dir, t), k) == Move(Coord(origin, k), Coord(dir, k), t)
  {
  }

  /** The coordinate is between those of the corners of the box. */
  ghost predicate InSlab(box: Box, k: nat, x: real)
    requires k < 3
  {
    Coord(box.lo, k) <= x <= Coord(box.hi, k)
  }

  lemma ContainsByAxis(box: Box, p: Vec)
    ensures Contains(box, p) <==> forall k :: 0 <= k < 3 ==> InSlab(box, k, Coord(p, k))
  {
    assert InSlab(box, 0, Coord(p, 0)) <==> box.lo.x <= p.x <= box.hi.x;
    assert InSlab(box, 1, Coord(p, 1)) <==> box.lo.y <= p.y <= box.hi.y;
    assert InSlab(box, 2, Coord(p, 2)) <==> box.lo.z <= p.z <= box.hi.z;
  }

  // ----- One axis

  /** The plane at m, reached from o at speed d. */
  function Reach(o: real, d: real, m: real): real
    requires d != 0.0
  {
    (m - o) / d
  }

  lemma ReachArrives(o: real, d: real, m: real)
    requires d != 0.0
    ensures o + Reach(o, d, m) * d == m
  {
  }

  lemma Signs(a: real, b: real)
    ensures (a >= 0.0 && b >= 0.0) || (a <= 0.0 && b <= 0.0) ==> a * b >= 0.0
    ensures (a >= 0.0 && b <= 0.0) || (a <= 0.0 && b >= 0.0) ==> a * b <= 0.0
    ensures (a > 0.0 && b > 0.0) || (a < 0.0 && b < 0.0) ==> a * b > 0.0
    ensures (a > 0.0 && b < 0.0) || (a < 0.0 && b > 0.0) ==> a * b < 0.0
  {
  }

  /** A coordinate that starts below m and is at or above m at time t crosses m before t. */
  lemma CrossesUp(o: real, d: real, m: real, t: real)
    requires o < m <= o + t * d && t >= 0.0
    ensures d > 0.0 && 0.0 < Reach(o, d, m) <= t
  {
    Signs(t, d);
    var r := Reach(o, d, m);
    ReachArrives(o, d, m);
    Signs(r, d);
    Signs(r - t, d);
  }

  lemma CrossesDown(o: real, d: real, m: real, t: real)
    requires o > m >= o + t * d && t >= 0.0
    ensures d < 0.0 && 0.0 < Reach(o, d, m) <= t
  {
    Signs(t, d);
    var r := Reach(o, d, m);
    ReachArrives(o, d, m);
    Signs(r, d);
    Signs(r - t, d);
  }

  lemma Monotone(o: real, d: real, s: real, r: real)
    requires s <= r
    ensures if d >= 0.0 then Move(o, d, s) <= Move(o, d, r) else Move(o, d, r) <= Move(o, d, s)
  {
    Signs(r - s, d);
    assert (r - s) * d == r * d - s * d;
  }

  /** Between two times at which a coordinate lies in a range it lies in the range. */
  lemma StaysBetween(o: real, d: real, s: real, r: real, t: real, lo: real, hi: real)
    requires s <= r <= t && lo <= Move(o, d, s) <= hi && lo <= Move(o, d, t) <= hi
    ensures lo <= Move(o, d, r) <= hi
  {
    hide Move;
    Monotone(o, d, s, r);
    Monotone(o, d, r, t);
  }

  /** What the first loop of the ray test finds for one axis: the time at which the near plane is
      reached (-1 if there is none), and that plane. */
  ghost predicate AxisDone(lo: real, hi: real, o: real, d: real, maxT: real, at: real) {
    if o < lo then at == lo && maxT == (if d != 0.0 then Reach(o, d, lo) else -1.0)
    else if o > hi then at == hi && maxT == (if d != 0.0 then Reach(o, d, hi) else -1.0)
    else maxT == -1.0
  }

  /** If the ray is in the slab of one axis at time t, it has entered by maxT <= t and stays in it. */
  lemma AxisEntered(lo: real, hi: real, o: real, d: real, maxT: real, at: real, r: real, t: real)
    requires AxisDone(lo, hi, o, d, maxT, at) && t >= 0.0 && lo <= Move(o, d, t) <= hi
    ensures !(lo <= o <= hi) ==> 0.0 < maxT <= t
    ensures lo <= o <= hi ==> maxT == -1.0
    ensures maxT <= r <= t && 0.0 <= r ==> lo <= Move(o, d, r) <= hi
  {
    if o < lo {
      CrossesUp(o, d, lo, t);
      ReachArrives(o, d, lo);
      if maxT <= r <= t { StaysBetween(o, d, maxT, r, t, lo, hi); }
    } else if o > hi {
      CrossesDown(o, d, hi, t);
      ReachArrives(o, d, hi);
      if maxT <= r <= t { StaysBetween(o, d, maxT, r, t, lo, hi); }
    } else {
      if 0.0 <= r <= t {
        assert o + 0.0 * d == o;
        StaysBetween(o, d, 0.0, r, t, lo, hi);
      }
    }
  }

  // ----- The ray test

  /** The time at which the near plane of one axis is reached; -1 if the ray starts in the slab or never
      reaches it. */
  ghost function NearTime(box: Box, origin: Vec, dir: Vec, k: nat): real
    requires k < 3
  {
    var (lo, hi, o, d) := (Coord(box.lo, k), Coord(box.hi, k), Coord(origin, k), Coord(dir, k));
    if d == 0.0 then -1.0
    else if o < lo then Reach(o, d, lo)
    else if o > hi then Reach(o, d, hi)
    else -1.0
  }

  /** The axis whose near plane is reached last; the first of equals. */
  ghost function LatestAxis(box: Box, origin: Vec, dir: Vec): (which: nat)
    ensures which < 3 && forall k :: 0 <= k < 3 ==> NearTime(box, origin, dir, k) <= NearTime(box, origin, dir, which)
    ensures forall k :: 0 <= k < which ==> NearTime(box, origin, dir, k) < NearTime(box, origin, dir, which)
  {
    var (x, y, z) := (NearTime(box, origin, dir, 0), NearTime(box, origin, dir, 1), NearTime(box, origin, dir, 2));
    if z > x && z > y then 2 else if y > x then 1 else 0
  }

  datatype Entry = Missed | EnteredAt(r: real)

  /** When the ray test takes the ray to enter the box: by the latest near plane, if the ray is then within the
      tolerance of the box on the other two axes. */
  ghost function RayEntry(box: Box, origin: Vec, dir: Vec): Entry {
    var which := LatestAxis(box, origin, dir);
    var r := NearTime(box, origin, dir, which);
    if !StartsOutside(box, origin) then EnteredAt(0.0)
    else if r >= 0.0 && forall k :: 0 <= k < 3 && k != which ==> NearSlab(box, k, Move(Coord(origin, k), Coord(dir, k), r)) then EnteredAt(r)
    else Missed
  }

  /** The segment test accepts the box: the ray enters it before the end of a segment longer than the tolerance. */
  ghost predicate SegmentMeets(box: Box, origin: Vec, dir: Vec, distance: real) {
    distance > 0.00001 && RayEntry(box, origin, dir).EnteredAt? && RayEntry(box, origin, dir).r < distance
  }

  /** The point lies in the box grown by the tolerance. */
  ghost predicate Near(box: Box, p: Vec) {
    forall k :: 0 <= k < 3 ==> NearSlab(box, k, Coord(p, k))
  }

  /** The first loop is done on every axis. */
  ghost predicate AllDone(box: Box, origin: Vec, dir: Vec, maxT: seq<real>, point: seq<real>) {
    && |maxT| == 3 && |point| == 3
    && forall k :: 0 <= k < 3 ==>
         AxisDone(Coord(box.lo, k), Coord(box.hi, k), Coord(origin, k), Coord(dir, k), maxT[k], point[k])
  }

  lemma DoneTimes(box: Box, origin: Vec, dir: Vec, maxT: seq<real>, point: seq<real>, k: nat)
    requires AllDone(box, origin, dir, maxT, point) && k < 3
    ensures maxT[k] == NearTime(box, origin, dir, k)
  {
    assert AxisDone(Coord(box.lo, k), Coord(box.hi, k), Coord(origin, k), Coord(dir, k), maxT[k], point[k]);
  }

  /** The near plane reached last is a point of the ray on the box. */
  lemma LatestPlane(box: Box, origin: Vec, dir: Vec, maxT: seq<real>, point: seq<real>, which: nat)
    requires AllDone(box, origin, dir, maxT, point) && which < 3 && maxT[which] >= 0.0
    ensures point[which] == Move(Coord(origin, which), Coord(dir, which), maxT[which])
    ensures Proper(box) ==> InSlab(box, which, point[which])
  {
    var o, d := Coord(origin, which), Coord(dir, which);
    assert AxisDone(Coord(box.lo, which), Coord(box.hi, which), o, d, maxT[which], point[which]);
    if d != 0.0 {
      ReachArrives(o, d, point[which]);
    }
  }

  ghost predicate StartsOutside(box: Box, origin: Vec) {
    exists k :: 0 <= k < 3 && !InSlab(box, k, Coord(origin, k))
  }

  /** If the ray is in the box at time t, then by the latest near plane it is in the box on every axis. */
  lemma EnteredByLatest(box: Box, origin: Vec, dir: Vec, maxT: seq<real>, point: seq<real>, which: nat, t: real)
    requires AllDone(box, origin, dir, maxT, point) && which < 3
    requires forall k :: 0 <= k < 3 ==> maxT[k] <= maxT[which]
    requires StartsOutside(box, origin) && t >= 0.0 && Contains(box, Along(origin, dir, t))
    ensures 0.0 < maxT[which] <= t
    ensures forall k :: 0 <= k < 3 ==> InSlab(box, k, Move(Coord(origin, k), Coord(dir, k), maxT[which]))
  {
    hide Move, Along, AxisDone, Coord, Contains;
    var r := maxT[which];
    ContainsByAxis(box, Along(origin, dir, t));
    MoveAlong(origin, dir, t);
    forall k | 0 <= k < 3
      ensures !InSlab(box, k, Coord(origin, k)) ==> 0.0 < maxT[k] <= t
      ensures InSlab(box, k, Coord(origin, k)) ==> maxT[k] == -1.0
      ensures 0.0 <= r <= t ==> InSlab(box, k, Move(Coord(origin, k), Coord(dir, k), r))
    {
      assert InSlab(box, k, Coord(Along(origin, dir, t), k));
      AxisEntered(Coord(box.lo, k), Coord(box.hi, k), Coord(origin, k), Coord(dir, k), maxT[k], point[k], r, t);
    }
  }

  ghost function NearPlane(box: Box, origin: Vec, k: nat): real
    requires k < 3
  {
    if Coord(origin, k) < Coord(box.lo, k) then Coord(box.lo, k) else Coord(box.hi, k)
  }

  /** A ray with a point in the box is taken to enter it, and no later than at that point. */
  lemma EntersNoLater(box: Box, origin: Vec, dir: Vec, t: real)
    requires t >= 0.0 && Contains(box, Along(origin, dir, t))
    ensures RayEntry(box, origin, dir).EnteredAt? && 0.0 <= RayEntry(box, origin, dir).r <= t
  {
    hide Along, Move, Contains;
    if StartsOutside(box, origin) {
      var which := LatestAxis(box, origin, dir);
      var maxT := [NearTime(box, origin, dir, 0), NearTime(box, origin, dir, 1), NearTime(box, origin, dir, 2)];
      var point := [NearPlane(box, origin, 0), NearPlane(box, origin, 1), NearPlane(box, origin, 2)];
      forall k | 0 <= k < 3 ensures maxT[k] == NearTime(box, origin, dir, k) && point[k] == NearPlane(box, origin, k) {}
      hide Coord;
      assert AllDone(box, origin, dir, maxT, point);
      EnteredByLatest(box, origin, dir, maxT, point, which, t);
      assert forall k :: 0 <= k < 3 ==> InSlab(box, k, Move(Coord(origin, k), Coord(dir, k), maxT[which]));
    }
  }

  /** A segment with a point in the box is accepted. */
  lemma SegmentMeetsBox(box: Box, origin: Vec, dir: Vec, distance: real, t: real)
    requires distance > 0.00001 && 0.0 <= t < distance && Contains(box, Along(origin, dir, t))
    ensures SegmentMeets(box, origin, dir, distance)
  {
    hide RayEntry, Along, Contains;
    EntersNoLater(box, origin, dir, t);
  }

  /** The first loop of the ray test. */
  method NearPlanes(box: Box, origin: Vec, dir: Vec) returns (inside: bool, maxT: seq<real>, point: seq<real>)
    ensures AllDone(box, origin, dir, maxT, point)
    ensures inside <==> !StartsOutside(box, origin)
  {
    inside, maxT, point := true, [-1.0, -1.0, -1.0], [0.0, 0.0, 0.0];
    for i := 0 to 3
      invariant |maxT| == 3 && |point| == 3
      invariant forall k :: i <= k < 3 ==> maxT[k] == -1.0
      invariant forall k :: 0 <= k < i ==>
                  AxisDone(Coord(box.lo, k), Coord(box.hi, k), Coord(origin, k), Coord(dir, k), maxT[k], point[k])
      invariant inside <==> forall k :: 0 <= k < i ==> InSlab(box, k, Coord(origin, k))
    {
      if Coord(origin, i) < Coord(box.lo, i) {
        point, inside := point[i := Coord(box.lo, i)], false;
        if Coord(dir, i) != 0.0 {
          maxT := maxT[i := Reach(Coord(origin, i), Coord(dir, i), Coord(box.lo, i))];
        }
      } else if Coord(origin, i) > Coord(box.hi, i) {
        point, inside := point[i := Coord(box.hi, i)], false;
        if Coord(dir, i) != 0.0 {
          maxT := maxT[i := Reach(Coord(origin, i), Coord(dir, i), Coord(box.hi, i))];
        }
      }
    }
  }

  /** The coordinate is in the slab grown by the tolerance. */
  ghost predicate NearSlab(box: Box, k: nat, x: real)
    requires k < 3
  {
    Coord(box.lo, k) - 0.00001 <= x <= Coord(box.hi, k) + 0.00001
  }

  /** The second loop: the point of the ray at time r, unless it misses the box on some axis. */
  method PointAt(box: Box, origin: Vec, dir: Vec, start: seq<real>, which: nat, r: real) returns (hit: bool, at: Vec)
    requires |start| == 3 && which < 3 && start[which] == Move(Coord(origin, which), Coord(dir, which), r)
    ensures hit <==> forall k :: 0 <= k < 3 && k != which ==> NearSlab(box, k, Move(Coord(origin, k), Coord(dir, k), r))
    ensures hit ==> at == Along(origin, dir, r)
  {
    hide Along, Move;
    var point := start;
    for i := 0 to 3
      invariant |point| == 3 && point[which] == Move(Coord(origin, which), Coord(dir, which), r)
      invariant forall k :: 0 <= k < i ==> point[k] == Move(Coord(origin, k), Coord(dir, k), r)
      invariant forall k :: 0 <= k < i && k != which ==> NearSlab(box, k, Move(Coord(origin, k), Coord(dir, k), r))
    {
      if i == which {
        continue;
      }
      point := point[i := Move(Coord(origin, i), Coord(dir, i), r)];
      if point[i] < Coord(box.lo, i) - EPSILON || point[i] > Coord(box.hi, i) + EPSILON {
        return false, origin;
      }
    }
    MoveAlong(origin, dir, r);
    at := Vec(point[0], point[1], point[2]);
    assert forall k :: 0 <= k < 3 ==> Coord(at, k) == Coord(Along(origin, dir, r), k);
    assert Coord(at, 0) == Coord(Along(origin, dir, r), 0) && Coord(at, 1) == Coord(Along(origin, dir, r), 1)
        && Coord(at, 2) == Coord(Along(origin, dir, r), 2);
    return true, at;
  }

  /** aabb_intersected_by_ray: it computes when the ray enters.  A hit is a point of the ray, in the box up to
      the tolerance; and a ray that has a point in the box is never rejected, and enters no later than that point. */
  method RayHitsBox(box: Box, origin: Vec, dir: Vec) returns (hit: bool, at: Vec, ghost r: real)
    ensures RayEntry(box, origin, dir) == if hit then EnteredAt(r) else Missed
    ensures hit ==> r >= 0.0 && at == Along(origin, dir, r)
    ensures hit && Proper(box) ==> Near(box, at)
    ensures forall t :: t >= 0.0 && Contains(box, Along(origin, dir, t)) ==> hit && r <= t
  {
    hide Along, Move, Contains, AxisDone, NearTime;
    var inside, maxT, point := NearPlanes(box, origin, dir);
    DoneTimes(box, origin, dir, maxT, point, 0);
    DoneTimes(box, origin, dir, maxT, point, 1);
    DoneTimes(box, origin, dir, maxT, point, 2);
    if inside {
      AlongZero(origin, dir);
      return true, origin, 0.0;
    }
    var which := 0;
    if maxT[1] > maxT[0] {
      which := 1;
    }
    if maxT[2] > maxT[which] {
      which := 2;
    }
    assert which == LatestAxis(box, origin, dir);
    hit, at, r := false, origin, maxT[which];
    forall t | t >= 0.0 && Contains(box, Along(origin, dir, t)) ensures RayEntry(box, origin, dir).EnteredAt? && RayEntry(box, origin, dir).r <= t {
      EntersNoLater(box, origin, dir, t);
    }
    if maxT[which] < 0.0 {
      return;
    }
    LatestPlane(box, origin, dir, maxT, point, which);
    hit, at := PointAt(box, origin, dir, point, which, maxT[which]);
    MoveAlong(origin, dir, r);
  }

  lemma AlongZero(origin: Vec, dir: Vec)
    ensures Along(origin, dir, 0.0) == origin
  {
  }

  /** aabb_intersected_by_line_segment, for a direction of length 1.  A segment with a point in the box is
      never rejected; an accepted one has a point that is in the box up to the tolerance. */
  method SegmentHitsBox(box: Box, origin: Vec, dir: Vec, distance: real) returns (hit: bool)
    requires Dot(dir, dir) == 1.0
    ensures hit <==> SegmentMeets(box, origin, dir, distance)
    ensures hit ==> distance > 0.00001
    ensures hit && Proper(box) ==> exists r :: 0.0 <= r < distance && Near(box, Along(origin, dir, r))
    ensures distance > 0.00001 ==> forall t :: 0.0 <= t < distance && Contains(box, Along(origin, dir, t)) ==> hit
  {
    hide RayEntry;
    hit := false;
    if distance > EPSILON {
      var at;
      ghost var r;
      hit, at, r := RayHitsBox(box, origin, dir);
      if hit {
        var back := Minus(origin, at);
        LengthAlong(origin, dir, r);
        SquareOrder(r, distance);
        hit := Dot(back, back) < distance * distance;
      }
    }
  }

  lemma LengthAlong(origin: Vec, dir: Vec, r: real)
    ensures var back := Minus(origin, Along(origin, dir, r)); Dot(back, back) == r * r * Dot(dir, dir)
  {
  }

  lemma SquareOrder(r: real, d: real)
    requires r >= 0.0 && d >= 0.0
    ensures r * r < d * d <==> r < d
  {
    Signs(d - r, d + r);
    assert (d - r) * (d + r) == d * d - r * r;
  }
}
