/** The column grid for ground heights: built offline (`z_slices.c`), searched online (`line_of_sight_map.c`). */
module ZSlices {
  import opened Geometry
  import opened Aabb

  const SIDE: nat := 256
  const COUNT: nat := 65536

  datatype Slice = Slice(count: nat, index: nat)

  datatype Grid = Grid(minX: real, minY: real, incX: real, incY: real, slices: seq<Slice>, triangles: seq<Tri>)

  // ----- Cells

  /** The coordinate of the i-th grid line. */
  function Line(min: real, inc: real, i: nat): real { min + (i as real) * inc }

  lemma LineNext(min: real, inc: real, i: nat)
    ensures Line(min, inc, 0) == min && Line(min, inc, i + 1) == Line(min, inc, i) + inc
  {
  }

  function Increment(extent: real): real { extent / 256.0 + 0.01 }

  /** A column of the grid, of nearly unbounded height. */
  function Cell(minX: real, minY: real, incX: real, incY: real, x: nat, y: nat): Box {
    Box(Vec(Line(minX, incX, x), Line(minY, incY, y), -999999.0), Vec(Line(minX, incX, x) + incX, Line(minY, incY, y) + incY, 999999.0))
  }

  function Kept(tris: seq<Tri>, box: Box): seq<Tri> {
    if tris == [] then []
    else Kept(tris[..|tris| - 1], box) + (if Excludes(box, tris[|tris| - 1]) then [] else [tris[|tris| - 1]])
  }

  lemma {:induction false} KeptMembers(tris: seq<Tri>, box: Box, tri: Tri)
    ensures tri in Kept(tris, box) <==> tri in tris && !Excludes(box, tri)
  {
    if tris != [] {
      KeptMembers(tris[..|tris| - 1], box, tri);
      assert tris == tris[..|tris| - 1] + [tris[|tris| - 1]];
    }
  }

  /** The slice names exactly the triangles that its cell does not exclude, in list order. */
  ghost predicate SliceOk(slice: Slice, triangles: seq<Tri>, tris: seq<Tri>, cell: Box) {
    && slice.index + slice.count <= |triangles|
    && triangles[slice.index..slice.index + slice.count] == Kept(tris, cell)
  }

  /** The first n cells, counted column by column, are filled. */
  ghost predicate Filled(slices: seq<Slice>, triangles: seq<Tri>, tris: seq<Tri>, minX: real, minY: real, incX: real, incY: real) {
    |slices| <= COUNT &&
    forall k :: 0 <= k < |slices| ==> SliceOk(slices[k], triangles, tris, Cell(minX, minY, incX, incY, k / 256, k % 256))
  }

  ghost predicate GridOk(g: Grid, tris: seq<Tri>, box: Box) {
    && |g.slices| == COUNT && Filled(g.slices, g.triangles, tris, g.minX, g.minY, g.incX, g.incY)
    && g.minX == box.lo.x && g.minY == box.lo.y
    && g.incX == (box.hi.x - box.lo.x) / 256.0 + 0.01 && g.incY == (box.hi.y - box.lo.y) / 256.0 + 0.01
  }

  lemma FilledNext(slices: seq<Slice>, triangles: seq<Tri>, tris: seq<Tri>, minX: real, minY: real, incX: real, incY: real, x: nat, y: nat)
    requires Filled(slices, triangles, tris, minX, minY, incX, incY) && |slices| == x * 256 + y < COUNT && y < 256
    ensures var kept := Kept(tris, Cell(minX, minY, incX, incY, x, y));
            Filled(slices + [Slice(|kept|, |triangles|)], triangles + kept, tris, minX, minY, incX, incY)
  {
    hide Cell, Kept;
    var kept := Kept(tris, Cell(minX, minY, incX, incY, x, y));
    var slices', triangles' := slices + [Slice(|kept|, |triangles|)], triangles + kept;
    forall k | 0 <= k < |slices'| ensures SliceOk(slices'[k], triangles', tris, Cell(minX, minY, incX, incY, k / 256, k % 256)) {
      if k < |slices| {
        assert SliceOk(slices[k], triangles, tris, Cell(minX, minY, incX, incY, k / 256, k % 256));
        assert triangles'[slices[k].index..slices[k].index + slices[k].count] == triangles[slices[k].index..slices[k].index + slices[k].count];
      } else {
        assert k / 256 == x && k % 256 == y;
      }
    }
  }

  // ----- Building

  /** The inner loop of zslices_init: append the triangles of one cell. */
  method FillCell(tris: seq<Tri>, bound: Box, triangles: seq<Tri>) returns (slice: Slice, triangles': seq<Tri>)
    ensures triangles' == triangles + Kept(tris, bound) && slice == Slice(|Kept(tris, bound)|, |triangles|)
  {
    slice, triangles' := Slice(0, |triangles|), triangles;
    for t := 0 to |tris|
      invariant triangles' == triangles + Kept(tris[..t], bound) && slice == Slice(|Kept(tris[..t], bound)|, |triangles|)
    {
      hide Excludes;
      assert tris[..t + 1][..t] == tris[..t];
      if !Excludes(bound, tris[t]) {
        triangles' := triangles' + [tris[t]];
        slice := slice.(count := slice.count + 1);
      }
    }
    assert tris[..|tris|] == tris;
  }

  /** zslices_init */
  method Init(box: Box, tris: seq<Tri>) returns (g: Grid)
    ensures GridOk(g, tris, box)
  {
    var e := Extent(box);
    var incX, incY := Increment(e.x), Increment(e.y);
    var curX, curY := box.lo.x, box.lo.y;
    var resetY := curY;
    var slices: seq<Slice>, triangles: seq<Tri> := [], [];
    LineNext(curX, incX, 0);
    LineNext(curY, incY, 0);
    hide Line, Kept;
    for x := 0 to SIDE
      invariant |slices| == x * 256 && curX == Line(box.lo.x, incX, x) && curY == resetY == Line(box.lo.y, incY, 0)
      invariant Filled(slices, triangles, tris, box.lo.x, box.lo.y, incX, incY)
    {
      for y := 0 to SIDE
        invariant |slices| == x * 256 + y && curY == Line(box.lo.y, incY, y)
        invariant Filled(slices, triangles, tris, box.lo.x, box.lo.y, incX, incY)
      {
        var bound := Box(Vec(curX, curY, -FAR), Vec(curX + incX, curY + incY, FAR));
        FilledNext(slices, triangles, tris, box.lo.x, box.lo.y, incX, incY, x, y);
        var slice;
        slice, triangles := FillCell(tris, bound, triangles);
        slices := slices + [slice];
        LineNext(box.lo.y, incY, y);
        curY := curY + incY;
      }
      LineNext(box.lo.x, incX, x);
      curX := curX + incX;
      curY := resetY;
    }
    g := Grid(box.lo.x, box.lo.y, incX, incY, slices, triangles);
  }

  // ----- The nearest hit

  /** What a scan over a collection of triangles should answer: whether any is hit, and the least hit
      distance, cut at 999999. */
  ghost predicate IsNearest(tris: set<Tri>, start: Vec, dir: Vec, found: bool, d: real) {
    && (found <==> exists tri :: tri in tris && LineHitsTriangle(start, dir, tri).At?)
    && (found ==> && d <= 999999.0 && (d == 999999.0 || exists tri :: tri in tris && LineHitsTriangle(start, dir, tri) == At(d))
                  && forall tri :: tri in tris && LineHitsTriangle(start, dir, tri).At? ==> d <= LineHitsTriangle(start, dir, tri).t)
  }

  /** Two collections with the same hit triangles have the same nearest hit. */
  lemma NearestAgrees(some: set<Tri>, all: set<Tri>, start: Vec, dir: Vec, found: bool, d: real)
    requires IsNearest(some, start, dir, found, d)
    requires some <= all && forall tri :: tri in all && LineHitsTriangle(start, dir, tri).At? ==> tri in some
    ensures IsNearest(all, start, dir, found, d)
  {
    hide LineHitsTriangle;
  }

  ghost function Members(tris: seq<Tri>): set<Tri> { set tri | tri in tris }

  /** los_map_line_find_nearest_intersection_with_triangle_set */
  method NearestHit(start: Vec, dir: Vec, tris: seq<Tri>) returns (found: bool, d: real)
    ensures IsNearest(Members(tris), start, dir, found, d)
  {
    hide LineHitsTriangle;
    found, d := false, FAR;
    for i := 0 to |tris|
      invariant !found ==> d == FAR
      invariant IsNearest(Members(tris[..i]), start, dir, found, d)
    {
      var hit := LineHitsTriangle(start, dir, tris[i]);
      assert Members(tris[..i + 1]) == Members(tris[..i]) + {tris[i]};
      if hit.At? {
        if hit.t < d { d := hit.t; }
        found := true;
      }
    }
    assert tris[..|tris|] == tris;
  }

  // ----- The ground height query

  const DOWN: Vec := Vec(0.0, 0.0, -1.0)
  const UP: Vec := Vec(0.0, 0.0, 1.0)

  /** The ground below if there is any, else the ceiling above, else the height asked about. */
  ghost predicate IsBestZ(tris: set<Tri>, p: Vec, best: real) {
    || IsNearest(tris, p, Vec(0.0, 0.0, -1.0), true, p.z - best)
    || (IsNearest(tris, p, Vec(0.0, 0.0, -1.0), false, 0.0) && IsNearest(tris, p, Vec(0.0, 0.0, 1.0), true, best - p.z))
    || (IsNearest(tris, p, Vec(0.0, 0.0, -1.0), false, 0.0) && IsNearest(tris, p, Vec(0.0, 0.0, 1.0), false, 0.0) && best == p.z)
  }

  lemma BestZUnique(tris: set<Tri>, p: Vec, best: real, best': real)
    requires IsBestZ(tris, p, best) && IsBestZ(tris, p, best')
    ensures best == best'
  {
    hide LineHitsTriangle;
  }

  /** The triangle reaches into the height band that the columns span. */
  ghost predicate InBand(tri: Tri) {
    && !(tri.a.z < -999999.0 && tri.b.z < -999999.0 && tri.c.z < -999999.0)
    && !(tri.a.z > 999999.0 && tri.b.z > 999999.0 && tri.c.z > 999999.0)
  }

  ghost function Banded(tris: seq<Tri>): set<Tri> { set tri | tri in tris && InBand(tri) }

  /** A vertical line through a point of a column only hits triangles that the column keeps or that lie
      wholly beyond its ends. */
  lemma VerticalHitIsKept(p: Vec, dir: Vec, tri: Tri, cell: Box)
    requires dir == DOWN || dir == UP
    requires cell.lo.x <= p.x <= cell.hi.x && cell.lo.y <= p.y <= cell.hi.y && cell.lo.z == -999999.0 && cell.hi.z == 999999.0
    requires LineHitsTriangle(p, dir, tri).At? && InBand(tri)
    ensures !Excludes(cell, tri)
  {
    var t := LineHitsTriangle(p, dir, tri).t;
    assert Along(p, dir, t).x == p.x && Along(p, dir, t).y == p.y;
    hide LineHitsTriangle, OnPlane, Along;
    var u, v := HitIsOnTriangle(p, dir, tri);
    InsideIsInHull(tri, u, v);
  }

  /** The scan of one cell answers like the scan of all triangles that reach into the band. */
  lemma CellAgrees(p: Vec, dir: Vec, tris: seq<Tri>, cell: Box, found: bool, d: real)
    requires dir == DOWN || dir == UP
    requires cell.lo.x <= p.x <= cell.hi.x && cell.lo.y <= p.y <= cell.hi.y && cell.lo.z == -999999.0 && cell.hi.z == 999999.0
    requires IsNearest(Members(Kept(tris, cell)), p, dir, found, d)
    ensures IsNearest(Banded(tris), p, dir, found, d)
  {
    hide IsNearest, LineHitsTriangle;
    forall tri ensures tri in Kept(tris, cell) <==> tri in tris && !Excludes(cell, tri) { KeptMembers(tris, cell, tri); }
    forall tri | tri in Banded(tris) && LineHitsTriangle(p, dir, tri).At? ensures tri in Members(Kept(tris, cell)) {
      VerticalHitIsKept(p, dir, tri, cell);
    }
    NearestAgrees(Members(Kept(tris, cell)), Banded(tris), p, dir, found, d);
  }

  /** The conversion to uint32_t: truncation toward zero.  C leaves it undefined for results outside the range;
      reduction modulo 2^32 is one possible behaviour, and the answers within the bounds do not depend on it. */
  function ToU32(v: real): (r: nat)
  {
    (if v >= 0.0 then v.Floor else -(-v).Floor) % 0x1_0000_0000
  }

  function CellIndex(g: Grid, x: real, y: real): nat
    requires g.incX != 0.0 && g.incY != 0.0
  {
    (ToU32((x - g.minX) / g.incX) * 256 + ToU32((y - g.minY) / g.incY)) % 0x1_0000_0000
  }

  /** A coordinate within the bounds falls between two of the 256 grid lines. */
  lemma LineFound(min: real, max: real, v: real)
    requires min <= v <= max
    ensures var inc := Increment(max - min);
            inc > 0.0 && var i := ToU32((v - min) / inc); i < 256 && Line(min, inc, i) <= v <= Line(min, inc, i) + inc
  {
    var inc := Increment(max - min);
    assert inc * 256.0 == (max - min) + 2.56;
    var q := (v - min) / inc;
    LineBetween(min, inc, v, q);
  }

  lemma LineBetween(min: real, inc: real, v: real, q: real)
    requires inc > 0.0 && q * inc == v - min && 0.0 <= v - min < inc * 256.0
    ensures ToU32(q) < 256 && Line(min, inc, ToU32(q)) <= v <= Line(min, inc, ToU32(q)) + inc
  {
    QuotientBounds(q, inc);
    hide Line;
    LinesAround(min, inc, v, q, q.Floor);
  }

  lemma QuotientBounds(q: real, inc: real)
    requires inc > 0.0 && 0.0 <= q * inc < inc * 256.0
    ensures 0.0 <= q < 256.0
  {
    if q < 0.0 { NegativeTimes(q, inc); }
    if q >= 256.0 { TimesAtLeast(q, 256.0, inc); }
  }

  lemma LinesAround(min: real, inc: real, v: real, q: real, i: nat)
    requires inc > 0.0 && q * inc == v - min && i as real <= q <= i as real + 1.0
    ensures Line(min, inc, i) <= v <= Line(min, inc, i) + inc
  {
    TimesWithinOne(v - min, Line(min, inc, i) - min, q, i as real, inc);
  }

  lemma TimesWithinOne(a: real, b: real, q: real, r: real, inc: real)
    requires r <= q <= r + 1.0 && inc > 0.0 && a == q * inc && b == r * inc
    ensures b <= a <= b + inc
  {
    TimesAtLeast(q, r, inc);
    TimesAtLeast(r + 1.0, q, inc);
  }

  lemma NegativeTimes(q: real, inc: real)
    requires q < 0.0 && inc > 0.0
    ensures q * inc < 0.0
  {
  }

  lemma TimesAtLeast(q: real, r: real, inc: real)
    requires q >= r && inc > 0.0
    ensures q * inc >= r * inc
  {
  }

  /** The index names the cell that holds the point. */
  lemma CellFound(g: Grid, tris: seq<Tri>, box: Box, x: real, y: real)
    requires GridOk(g, tris, box) && box.lo.x <= x <= box.hi.x && box.lo.y <= y <= box.hi.y
    ensures g.incX > 0.0 && g.incY > 0.0
    ensures var k := CellIndex(g, x, y);
            k < COUNT &&
            var cell := Cell(g.minX, g.minY, g.incX, g.incY, k / 256, k % 256);
            && SliceOk(g.slices[k], g.triangles, tris, cell)
            && cell.lo.x <= x <= cell.hi.x && cell.lo.y <= y <= cell.hi.y && cell.lo.z == -999999.0 && cell.hi.z == 999999.0
  {
    LineFound(box.lo.x, box.hi.x, x);
    LineFound(box.lo.y, box.hi.y, y);
    hide ToU32, Line, Kept, Increment, SliceOk;
    var i, j := ToU32((x - g.minX) / g.incX), ToU32((y - g.minY) / g.incY);
    var k := CellIndex(g, x, y);
    Joined(i, j);
    assert SliceOk(g.slices[k], g.triangles, tris, Cell(g.minX, g.minY, g.incX, g.incY, k / 256, k % 256));
  }

  lemma Joined(i: nat, j: nat)
    requires i < 256 && j < 256
    ensures var k := (i * 256 + j) % 0x1_0000_0000; k < COUNT && k / 256 == i && k % 256 == j
  {
  }

  /** los_map_get_best_z: within the bounds of the map, the one cell answers for all triangles. */
  method GetBestZ(g: Grid, p: Vec, ghost tris: seq<Tri>, ghost box: Box) returns (best: real)
    requires g.slices != [] ==> GridOk(g, tris, box)
    requires g.incX != 0.0 && g.incY != 0.0
    ensures g.slices == [] || CellIndex(g, p.x, p.y) >= COUNT ==> best == p.z
    ensures g.slices != [] && CellIndex(g, p.x, p.y) < COUNT ==>
              var slice := g.slices[CellIndex(g, p.x, p.y)];
              IsBestZ(Members(g.triangles[slice.index..slice.index + slice.count]), p, best)
    ensures g.slices != [] && box.lo.x <= p.x <= box.hi.x && box.lo.y <= p.y <= box.hi.y ==> IsBestZ(Banded(tris), p, best)
  {
    hide Kept, LineHitsTriangle, ToU32, Cell, IsNearest, Line, Increment;
    var index := CellIndex(g, p.x, p.y);
    ghost var within := g.slices != [] && box.lo.x <= p.x <= box.hi.x && box.lo.y <= p.y <= box.hi.y;
    if within { CellFound(g, tris, box, p.x, p.y); }
    if index >= COUNT || g.slices == [] { return p.z; }
    hide CellIndex;
    var slice := g.slices[index];
    ghost var cell := Cell(g.minX, g.minY, g.incX, g.incY, index / 256, index % 256);
    assert SliceOk(slice, g.triangles, tris, cell);
    var mine := g.triangles[slice.index..slice.index + slice.count];
    if slice.count == 0 {
      NothingNear(p);
      assert Members(mine) == {};
      if within { CellDecides(tris, cell, p, mine, p.z); }
      return p.z;
    }
    var below, down := NearestHit(p, DOWN, mine);
    if below {
      best := p.z + down * -1.0;
    } else {
      var above, up := NearestHit(p, UP, mine);
      best := if above then p.z + up else p.z;
      NotFound(Members(mine), p, UP, above, up);
      assert above ==> up == best - p.z;
    }
    NotFound(Members(mine), p, DOWN, below, down);
    assert below ==> down == p.z - best;
    if within { CellDecides(tris, cell, p, mine, best); }
  }

  lemma NothingNear(p: Vec)
    ensures IsBestZ({}, p, p.z)
  {
  }

  lemma NotFound(tris: set<Tri>, p: Vec, dir: Vec, found: bool, d: real)
    requires IsNearest(tris, p, dir, found, d)
    ensures !found ==> IsNearest(tris, p, dir, false, 0.0)
  {
    hide LineHitsTriangle;
  }

  lemma CellDecides(tris: seq<Tri>, cell: Box, p: Vec, mine: seq<Tri>, best: real)
    requires mine == Kept(tris, cell) && IsBestZ(Members(mine), p, best)
    requires cell.lo.x <= p.x <= cell.hi.x && cell.lo.y <= p.y <= cell.hi.y && cell.lo.z == -999999.0 && cell.hi.z == 999999.0
    ensures IsBestZ(Banded(tris), p, best)
  {
    hide IsNearest, Kept;
    if IsNearest(Members(mine), p, DOWN, true, p.z - best) {
      CellAgrees(p, DOWN, tris, cell, true, p.z - best);
    } else {
      CellAgrees(p, DOWN, tris, cell, false, 0.0);
      if IsNearest(Members(mine), p, UP, true, best - p.z) {
        CellAgrees(p, UP, tris, cell, true, best - p.z);
      } else {
        CellAgrees(p, UP, tris, cell, false, 0.0);
      }
    }
  }
}
