/**
  The map file between the offline builder and the running zone: written by `output.c`, read by
  `line_of_sight_map.c`.  The file body is a list of four-byte words, each an integer or a float.
 */
module MapFile {
  import opened Wrappers
  import opened Geometry
  import opened Aabb
  import opened LineOfSight
  import Z = ZSlices
  import T = BspTree

  datatype Word = U32(u: nat) | F32(f: real)

  datatype Header = Header(triangleCount: nat, nodeCount: nat, sliceTriangleCount: nat,
                           minX: real, minY: real, incX: real, incY: real, inflatedLength: nat)

  // ----- Records as words

  function VecWords(v: Vec): seq<Word> { [F32(v.x), F32(v.y), F32(v.z)] }

  function TriWords(t: Tri): seq<Word> { VecWords(t.a) + VecWords(t.b) + VecWords(t.c) }

  function NodeWords(n: LosNode): seq<Word> {
    [U32(n.count), U32(n.left), U32(n.right)] + VecWords(n.bounds.lo) + VecWords(n.bounds.hi) + [U32(n.first)]
  }

  function SliceWords(s: Z.Slice): seq<Word> { [U32(s.count), U32(s.index)] }

  predicate Floats(w: seq<Word>) { forall i :: 0 <= i < |w| ==> w[i].F32? }

  function ParseTri(w: seq<Word>): Option<Tri> {
    if |w| == 9 && Floats(w) then Some(Tri(Vec(w[0].f, w[1].f, w[2].f), Vec(w[3].f, w[4].f, w[5].f), Vec(w[6].f, w[7].f, w[8].f)))
    else None
  }

  function ParseNode(w: seq<Word>): Option<LosNode> {
    if |w| == 10 && w[0].U32? && w[1].U32? && w[2].U32? && Floats(w[3..9]) && w[9].U32? then
      Some(LosNode(w[0].u, w[1].u, w[2].u, Box(Vec(w[3].f, w[4].f, w[5].f), Vec(w[6].f, w[7].f, w[8].f)), w[9].u))
    else None
  }

  function ParseSlice(w: seq<Word>): Option<Z.Slice> {
    if |w| == 2 && w[0].U32? && w[1].U32? then Some(Z.Slice(w[0].u, w[1].u)) else None
  }

  /** Printing and parsing of one kind of record undo each other. */
  ghost predicate Inverse<T(!new)>(show: T -> seq<Word>, parse: seq<Word> -> Option<T>, width: nat) {
    && (forall t :: |show(t)| == width && parse(show(t)) == Some(t))
    && (forall w :: parse(w).Some? ==> w == show(parse(w).value))
  }

  lemma RecordsInverse()
    ensures Inverse(TriWords, ParseTri, 9) && Inverse(NodeWords, ParseNode, 10) && Inverse(SliceWords, ParseSlice, 2)
  {
    forall w: seq<Word> | ParseTri(w).Some? ensures w == TriWords(ParseTri(w).value) {}
    forall n ensures |NodeWords(n)| == 10 && ParseNode(NodeWords(n)) == Some(n) {
      assert NodeWords(n)[3..9] == VecWords(n.bounds.lo) + VecWords(n.bounds.hi);
    }
    forall w: seq<Word> | ParseNode(w).Some? ensures w == NodeWords(ParseNode(w).value) {
      forall i | 3 <= i < 9 ensures w[i].F32? { assert w[i] == w[3..9][i - 3]; }
    }
    forall w: seq<Word> | ParseSlice(w).Some? ensures w == SliceWords(ParseSlice(w).value) {}
  }

  /** Records one after the other. */
  function Flat<T>(show: T -> seq<Word>, ts: seq<T>): seq<Word> {
    if ts == [] then [] else Flat(show, ts[..|ts| - 1]) + show(ts[|ts| - 1])
  }

  lemma FlatNext<T>(show: T -> seq<Word>, ts: seq<T>, t: T)
    ensures Flat(show, ts + [t]) == Flat(show, ts) + show(t)
  {
    assert (ts + [t])[..|ts|] == ts;
  }

  lemma {:induction false} FlatAppend<T>(show: T -> seq<Word>, ts: seq<T>, us: seq<T>)
    ensures Flat(show, ts + us) == Flat(show, ts) + Flat(show, us)
  {
    hide Flat;
    FlatNone(show);
    if us == [] {
      assert ts + us == ts;
    } else {
      var front, last := us[..|us| - 1], us[|us| - 1];
      FlatAppend(show, ts, front);
      FlatNext(show, ts + front, last);
      FlatNext(show, front, last);
      assert us == front + [last] && ts + us == ts + front + [last];
    }
  }

  lemma {:induction false} FlatLength<T(!new)>(show: T -> seq<Word>, parse: seq<Word> -> Option<T>, width: nat, ts: seq<T>)
    requires Inverse(show, parse, width)
    ensures |Flat(show, ts)| == width * |ts|
  {
    if ts != [] {
      assert |show(ts[|ts| - 1])| == width;
      hide Inverse;
      FlatLength(show, parse, width, ts[..|ts| - 1]);
      assert width * |ts| == width * (|ts| - 1) + width;
    }
  }

  /** Only one list of records is written as given words. */
  lemma {:induction false} FlatUnique<T(!new)>(show: T -> seq<Word>, parse: seq<Word> -> Option<T>, width: nat, ts: seq<T>, us: seq<T>)
    requires Inverse(show, parse, width) && |ts| == |us| && Flat(show, ts) == Flat(show, us)
    ensures ts == us
  {
    if ts != [] {
      var (ts0, us0) := (ts[..|ts| - 1], us[..|us| - 1]);
      var (t, u) := (ts[|ts| - 1], us[|us| - 1]);
      FlatLength(show, parse, width, ts0);
      FlatLength(show, parse, width, us0);
      assert Flat(show, ts0) == Flat(show, ts)[..|Flat(show, ts0)|] == Flat(show, us0);
      assert show(t) == Flat(show, ts)[|Flat(show, ts0)|..] == show(u);
      assert parse(show(t)) == Some(t) && parse(show(u)) == Some(u);
      FlatUnique(show, parse, width, ts0, us0);
    }
  }

  /** The k-th of a list of records lies right behind the ones before it. */
  lemma RecordAt<T(!new)>(show: T -> seq<Word>, parse: seq<Word> -> Option<T>, width: nat, words: seq<Word>, cursor: nat, ts: seq<T>, k: nat)
    requires Inverse(show, parse, width) && cursor <= |words| && Flat(show, ts) <= words[cursor..] && k < |ts|
    ensures var c := cursor + |Flat(show, ts[..k])|; c + width <= |words| && parse(words[c..c + width]) == Some(ts[k])
  {
    var (a, t, b) := (ts[..k], ts[k], ts[k + 1..]);
    assert ts == (a + [t]) + b;
    FlatAppend(show, a + [t], b);
    FlatNext(show, a, t);
    hide Flat;
    Middle(Flat(show, a), show(t), Flat(show, b), words, cursor);
  }

  lemma Middle(a: seq<Word>, b: seq<Word>, c: seq<Word>, words: seq<Word>, cursor: nat)
    requires cursor <= |words| && a + b + c <= words[cursor..]
    ensures cursor + |a| + |b| <= |words| && words[cursor + |a|..cursor + |a| + |b|] == b
  {
    assert words[cursor + |a|..cursor + |a| + |b|] == (a + b + c)[|a|..|a| + |b|];
  }

  /** The part stands in the words at the cursor. */
  ghost predicate At(words: seq<Word>, cursor: nat, part: seq<Word>) { cursor <= |words| && part <= words[cursor..] }

  /** Read n records of one kind at the cursor: the list written there, or nothing when the words run
      out or do not hold one. */
  method ReadRecords<T(!new)>(show: T -> seq<Word>, parse: seq<Word> -> Option<T>, width: nat, words: seq<Word>, cursor: nat, n: nat)
    returns (r: Option<seq<T>>, cursor': nat)
    requires Inverse(show, parse, width) && cursor <= |words|
    ensures cursor' <= |words|
    ensures r.Some? ==> |r.value| == n && cursor' == cursor + |Flat(show, r.value)| && At(words, cursor, Flat(show, r.value))
    ensures forall ts :: |ts| == n && At(words, cursor, Flat(show, ts)) ==> r == Some(ts)
  {
    hide Flat, Inverse;
    var out: seq<T> := [];
    FlatNone(show);
    cursor' := cursor;
    for i := 0 to n
      invariant |out| == i && cursor' == cursor + |Flat(show, out)| <= |words|
      invariant Flat(show, out) <= words[cursor..]
    {
      if cursor' + width > |words| || parse(words[cursor'..cursor' + width]).None? {
        forall ts | |ts| == n && At(words, cursor, Flat(show, ts)) ensures false {
          SameWidth(show, parse, width, ts[..i], out);
          RecordAt(show, parse, width, words, cursor, ts, i);
        }
        return None, cursor';
      }
      var w := words[cursor'..cursor' + width];
      var next := parse(w).value;
      FlatNext(show, out, next);
      ParsedIsShown(show, parse, width, w);
      Extend(words, cursor, Flat(show, out), w);
      out, cursor' := out + [next], cursor' + width;
    }
    r := Some(out);
    forall ts | |ts| == n && At(words, cursor, Flat(show, ts)) ensures ts == out {
      SameWidth(show, parse, width, ts, out);
      assert Flat(show, ts) == words[cursor..][..|Flat(show, ts)|] == Flat(show, out);
      FlatUnique(show, parse, width, ts, out);
    }
  }

  lemma FlatNone<T>(show: T -> seq<Word>)
    ensures Flat(show, []) == []
  {
  }

  lemma ParsedIsShown<T(!new)>(show: T -> seq<Word>, parse: seq<Word> -> Option<T>, width: nat, w: seq<Word>)
    requires Inverse(show, parse, width) && parse(w).Some?
    ensures show(parse(w).value) == w
  {
  }

  lemma Extend(words: seq<Word>, cursor: nat, a: seq<Word>, b: seq<Word>)
    requires cursor + |a| + |b| <= |words| && a <= words[cursor..] && b == words[cursor + |a|..cursor + |a| + |b|]
    ensures a + b <= words[cursor..]
  {
    assert words[cursor..][..|a| + |b|] == a + b;
  }

  lemma SameWidth<T(!new)>(show: T -> seq<Word>, parse: seq<Word> -> Option<T>, width: nat, ts: seq<T>, us: seq<T>)
    requires Inverse(show, parse, width) && |ts| == |us|
    ensures |Flat(show, ts)| == |Flat(show, us)| == width * |ts|
  {
    FlatLength(show, parse, width, ts);
    FlatLength(show, parse, width, us);
  }

  // ----- Writing

  /** The triangles of the nodes, node by node. */
  function AllTriangles(nodes: seq<T.Node>): seq<Tri> {
    if nodes == [] then [] else AllTriangles(nodes[..|nodes| - 1]) + nodes[|nodes| - 1].triangles
  }

  /** The nodes as written: each names its triangles by a running index. */
  function Indexed(nodes: seq<T.Node>): seq<LosNode> {
    if nodes == [] then []
    else
      var (front, last) := (nodes[..|nodes| - 1], nodes[|nodes| - 1]);
      Indexed(front) + [LosNode(|last.triangles|, last.left, last.right, last.bounds, |AllTriangles(front)|)]
  }

  ghost function Image(nodes: seq<T.Node>, g: Z.Grid): seq<Word> {
    Flat(TriWords, AllTriangles(nodes)) + Flat(NodeWords, Indexed(nodes)) + Flat(SliceWords, g.slices) + Flat(TriWords, g.triangles)
  }

  /** output_bsp_calc_length, in bytes: 36 to a triangle, 40 to a node, 8 to a slice. */
  function CalcLength(triangleCount: nat, nodeCount: nat, sliceTriangleCount: nat): nat {
    36 * triangleCount + 40 * nodeCount + 36 * sliceTriangleCount + 8 * Z.COUNT
  }

  method WriteRecords<T>(show: T -> seq<Word>, ts: seq<T>, words: seq<Word>) returns (words': seq<Word>)
    ensures words' == words + Flat(show, ts)
  {
    words' := words;
    FlatNone(show);
    for i := 0 to |ts|
      invariant words' == words + Flat(show, ts[..i])
    {
      FlatNext(show, ts[..i], ts[i]);
      assert ts[..i + 1] == ts[..i] + [ts[i]];
      words' := words' + show(ts[i]);
    }
    assert ts[..|ts|] == ts;
  }

  /** output_write_bsp_nodes */
  method WriteNodes(nodes: seq<T.Node>, words: seq<Word>) returns (words': seq<Word>)
    ensures words' == words + Flat(TriWords, AllTriangles(nodes)) + Flat(NodeWords, Indexed(nodes))
  {
    hide Flat, TriWords, NodeWords, AllTriangles, Indexed;
    words' := words;
    FlatNone(TriWords);
    NothingIndexed();
    for i := 0 to |nodes|
      invariant words' == words + Flat(TriWords, AllTriangles(nodes[..i]))
    {
      IndexedNext(nodes, i);
      FlatAppend(TriWords, AllTriangles(nodes[..i]), nodes[i].triangles);
      if nodes[i].triangles != [] {
        words' := WriteRecords(TriWords, nodes[i].triangles, words');
      }
    }
    ghost var tris := words';
    var triIndex := 0;
    FlatNone(NodeWords);
    for i := 0 to |nodes|
      invariant words' == tris + Flat(NodeWords, Indexed(nodes[..i])) && triIndex == |AllTriangles(nodes[..i])|
    {
      IndexedNext(nodes, i);
      var m := |nodes[i].triangles|;
      var written := LosNode(m, nodes[i].left, nodes[i].right, nodes[i].bounds, triIndex);
      FlatNext(NodeWords, Indexed(nodes[..i]), written);
      words' := words' + NodeWords(written);
      triIndex := triIndex + m;
    }
    assert nodes[..|nodes|] == nodes;
  }

  lemma NothingIndexed()
    ensures AllTriangles([]) == [] && Indexed([]) == []
  {
  }

  lemma IndexedNext(nodes: seq<T.Node>, i: nat)
    requires i < |nodes|
    ensures AllTriangles(nodes[..i + 1]) == AllTriangles(nodes[..i]) + nodes[i].triangles
    ensures Indexed(nodes[..i + 1]) == Indexed(nodes[..i])
            + [LosNode(|nodes[i].triangles|, nodes[i].left, nodes[i].right, nodes[i].bounds, |AllTriangles(nodes[..i])|)]
  {
    assert nodes[..i + 1][..i] == nodes[..i];
  }

  // ----- Where each record lies in the image, word by word

  ghost predicate TriangleAt(words: seq<Word>, at: nat, t: Tri) {
    && at + 9 <= |words|
    && words[at..at + 9] == [F32(t.a.x), F32(t.a.y), F32(t.a.z), F32(t.b.x), F32(t.b.y), F32(t.b.z), F32(t.c.x), F32(t.c.y), F32(t.c.z)]
  }

  /** A node: how many triangles, the links, the box, and the index of the first triangle. */
  ghost predicate NodeAt(words: seq<Word>, at: nat, n: T.Node, first: nat) {
    && at + 10 <= |words|
    && words[at..at + 10] == [U32(|n.triangles|), U32(n.left), U32(n.right), F32(n.bounds.lo.x), F32(n.bounds.lo.y), F32(n.bounds.lo.z),
                              F32(n.bounds.hi.x), F32(n.bounds.hi.y), F32(n.bounds.hi.z), U32(first)]
  }

  ghost predicate SliceAt(words: seq<Word>, at: nat, s: Z.Slice) {
    at + 2 <= |words| && words[at] == U32(s.count) && words[at + 1] == U32(s.index)
  }

  /** The image: triangles of 9 words, nodes of 10, 65536 slices of 2, and the triangles of the slices. */
  ghost predicate ImageOf(words: seq<Word>, nodes: seq<T.Node>, g: Z.Grid) {
    var all := AllTriangles(nodes);
    var (n, s) := (9 * |all|, 9 * |all| + 10 * |nodes|);
    && |words| == s + 131072 + 9 * |g.triangles|
    && (forall i :: 0 <= i < |all| ==> TriangleAt(words, 9 * i, all[i]))
    && (forall i :: 0 <= i < |nodes| ==> NodeAt(words, n + 10 * i, nodes[i], |AllTriangles(nodes[..i])|))
    && (forall i :: 0 <= i < |g.slices| ==> SliceAt(words, s + 2 * i, g.slices[i]))
    && (forall i :: 0 <= i < |g.triangles| ==> TriangleAt(words, s + 131072 + 9 * i, g.triangles[i]))
  }

  lemma {:induction false} FlatAt<T(!new)>(show: T -> seq<Word>, parse: seq<Word> -> Option<T>, width: nat, ts: seq<T>, k: nat, at: nat)
    requires Inverse(show, parse, width) && k < |ts| && at == width * k
    ensures at + width <= |Flat(show, ts)| && Flat(show, ts)[at..at + width] == show(ts[k])
  {
    var front := ts[..|ts| - 1];
    FlatLength(show, parse, width, front);
    if k < |front| {
      hide Inverse;
      FlatAt(show, parse, width, front, k, at);
    }
  }

  lemma {:induction false} IndexedAt(nodes: seq<T.Node>, i: nat)
    requires i < |nodes|
    ensures |Indexed(nodes)| == |nodes|
    ensures Indexed(nodes)[i] == LosNode(|nodes[i].triangles|, nodes[i].left, nodes[i].right, nodes[i].bounds, |AllTriangles(nodes[..i])|)
  {
    CountsAgree(nodes);
    var front := nodes[..|nodes| - 1];
    CountsAgree(front);
    if i < |front| {
      IndexedAt(front, i);
      assert front[..i] == nodes[..i];
    }
  }

  lemma {:induction false} InMiddle(a: seq<Word>, b: seq<Word>, c: seq<Word>, at: nat, width: nat)
    requires at + width <= |b|
    ensures (a + b + c)[|a| + at..|a| + at + width] == b[at..at + width]
  {
  }

  lemma TriWordsAre(t: Tri)
    ensures TriWords(t) == [F32(t.a.x), F32(t.a.y), F32(t.a.z), F32(t.b.x), F32(t.b.y), F32(t.b.z), F32(t.c.x), F32(t.c.y), F32(t.c.z)]
  {
  }

  lemma NodeWordsAre(n: T.Node, first: nat)
    ensures NodeWords(LosNode(|n.triangles|, n.left, n.right, n.bounds, first))
            == [U32(|n.triangles|), U32(n.left), U32(n.right), F32(n.bounds.lo.x), F32(n.bounds.lo.y), F32(n.bounds.lo.z),
                F32(n.bounds.hi.x), F32(n.bounds.hi.y), F32(n.bounds.hi.z), U32(first)]
  {
  }

  lemma {:induction false} TrianglesLie(words: seq<Word>, before: seq<Word>, after: seq<Word>, tris: seq<Tri>, i: nat)
    requires words == before + Flat(TriWords, tris) + after && i < |tris|
    ensures TriangleAt(words, |before| + 9 * i, tris[i])
  {
    hide Flat, Inverse, TriWords;
    RecordsInverse();
    FlatAt(TriWords, ParseTri, 9, tris, i, 9 * i);
    InMiddle(before, Flat(TriWords, tris), after, 9 * i, 9);
    TriWordsAre(tris[i]);
  }

  lemma {:induction false} NodesLie(words: seq<Word>, before: seq<Word>, after: seq<Word>, nodes: seq<T.Node>, i: nat)
    requires words == before + Flat(NodeWords, Indexed(nodes)) + after && i < |nodes|
    ensures NodeAt(words, |before| + 10 * i, nodes[i], |AllTriangles(nodes[..i])|)
  {
    hide Flat, Inverse, Indexed, AllTriangles, NodeWords;
    IndexedAt(nodes, i);
    RecordsInverse();
    FlatAt(NodeWords, ParseNode, 10, Indexed(nodes), i, 10 * i);
    InMiddle(before, Flat(NodeWords, Indexed(nodes)), after, 10 * i, 10);
    NodeWordsAre(nodes[i], |AllTriangles(nodes[..i])|);
  }

  lemma {:induction false} SlicesLie(words: seq<Word>, before: seq<Word>, after: seq<Word>, slices: seq<Z.Slice>, i: nat)
    requires words == before + Flat(SliceWords, slices) + after && i < |slices|
    ensures SliceAt(words, |before| + 2 * i, slices[i])
  {
    hide Flat, Inverse;
    RecordsInverse();
    FlatAt(SliceWords, ParseSlice, 2, slices, i, 2 * i);
    InMiddle(before, Flat(SliceWords, slices), after, 2 * i, 2);
    assert words[|before| + 2 * i..|before| + 2 * i + 2] == [U32(slices[i].count), U32(slices[i].index)];
  }

  lemma {:induction false} PartLengths(nodes: seq<T.Node>, g: Z.Grid)
    ensures |Flat(TriWords, AllTriangles(nodes))| == 9 * |AllTriangles(nodes)| && |Flat(NodeWords, Indexed(nodes))| == 10 * |nodes|
    ensures |Flat(SliceWords, g.slices)| == 2 * |g.slices| && |Flat(TriWords, g.triangles)| == 9 * |g.triangles|
  {
    hide Flat, Inverse, Indexed, AllTriangles;
    RecordsInverse();
    CountsAgree(nodes);
    FlatLength(TriWords, ParseTri, 9, AllTriangles(nodes));
    FlatLength(NodeWords, ParseNode, 10, Indexed(nodes));
    FlatLength(SliceWords, ParseSlice, 2, g.slices);
    FlatLength(TriWords, ParseTri, 9, g.triangles);
  }

  lemma {:induction false} ImageIsOf(nodes: seq<T.Node>, g: Z.Grid)
    requires |g.slices| == Z.COUNT
    ensures ImageOf(Image(nodes, g), nodes, g)
  {
    hide Flat, AllTriangles, Indexed, TriangleAt, NodeAt, SliceAt;
    var (t, n, s, c) := (Flat(TriWords, AllTriangles(nodes)), Flat(NodeWords, Indexed(nodes)), Flat(SliceWords, g.slices), Flat(TriWords, g.triangles));
    var words := Image(nodes, g);
    PartLengths(nodes, g);
    assert words == t + n + s + c;
    hide Image;
    Regroup(t, n, s, c);
    forall i | 0 <= i < |AllTriangles(nodes)| ensures TriangleAt(words, 9 * i, AllTriangles(nodes)[i]) {
      TrianglesLie(words, [], n + s + c, AllTriangles(nodes), i);
    }
    forall i | 0 <= i < |nodes| ensures NodeAt(words, |t| + 10 * i, nodes[i], |AllTriangles(nodes[..i])|) { NodesLie(words, t, s + c, nodes, i); }
    forall i | 0 <= i < |g.slices| ensures SliceAt(words, |t + n| + 2 * i, g.slices[i]) { SlicesLie(words, t + n, c, g.slices, i); }
    forall i | 0 <= i < |g.triangles| ensures TriangleAt(words, |t + n + s| + 9 * i, g.triangles[i]) {
      TrianglesLie(words, t + n + s, [], g.triangles, i);
    }
  }

  lemma Regroup(t: seq<Word>, n: seq<Word>, s: seq<Word>, c: seq<Word>)
    ensures t + n + s + c == [] + t + (n + s + c) && t + n + s + c == t + n + (s + c) && t + n + s + c == (t + n + s) + c + []
  {
  }

  /** output_bsp_to_file, short of compression: the image fills the computed length exactly. */
  method WriteMap(nodes: seq<T.Node>, triangleCount: nat, g: Z.Grid) returns (h: Header, words: seq<Word>)
    requires triangleCount == T.Kept(nodes) && |g.slices| == Z.COUNT
    ensures words == Image(nodes, g) && ImageOf(words, nodes, g)
    ensures h.inflatedLength == 4 * |words|
    ensures h.triangleCount == |AllTriangles(nodes)| && h.nodeCount == |nodes| && h.sliceTriangleCount == |g.triangles|
    ensures h.minX == g.minX && h.minY == g.minY && h.incX == g.incX && h.incY == g.incY
  {
    hide Flat, AllTriangles, Indexed, T.Kept, TriWords, NodeWords, SliceWords;
    h := Header(triangleCount, |nodes|, |g.triangles|, g.minX, g.minY, g.incX, g.incY,
                CalcLength(triangleCount, |nodes|, |g.triangles|));
    words := WriteNodes(nodes, []);
    words := WriteRecords(SliceWords, g.slices, words);
    words := WriteRecords(TriWords, g.triangles, words);
    ImageLength(nodes, g);
    ImageIsOf(nodes, g);
    hide ImageOf;
  }

  lemma {:induction false} CountsAgree(nodes: seq<T.Node>)
    ensures |AllTriangles(nodes)| == T.Kept(nodes) && |Indexed(nodes)| == |nodes|
  {
    if nodes != [] { CountsAgree(nodes[..|nodes| - 1]); }
  }

  lemma ImageLength(nodes: seq<T.Node>, g: Z.Grid)
    requires |g.slices| == Z.COUNT
    ensures 4 * |Image(nodes, g)| == CalcLength(T.Kept(nodes), |nodes|, |g.triangles|) && |AllTriangles(nodes)| == T.Kept(nodes)
  {
    hide Flat, Inverse, AllTriangles, Indexed, T.Kept;
    RecordsInverse();
    CountsAgree(nodes);
    FlatLength(TriWords, ParseTri, 9, AllTriangles(nodes));
    FlatLength(NodeWords, ParseNode, 10, Indexed(nodes));
    FlatLength(SliceWords, ParseSlice, 2, g.slices);
    FlatLength(TriWords, ParseTri, 9, g.triangles);
  }

  // ----- Reading

  /** The words begin with the lists of a map and a grid of the sizes that the header gives. */
  ghost predicate Holds(h: Header, words: seq<Word>, m: LosMap, g: Z.Grid) {
    && |m.triangles| == h.triangleCount && |m.nodes| == h.nodeCount && |g.slices| == Z.COUNT && |g.triangles| == h.sliceTriangleCount
    && g.minX == h.minX && g.minY == h.minY && g.incX == h.incX && g.incY == h.incY
    && Body(m, g) <= words
  }

  ghost function TriangleList(tris: seq<Tri>): seq<Word> { Flat(TriWords, tris) }

  ghost function NodeList(nodes: seq<LosNode>): seq<Word> { Flat(NodeWords, nodes) }

  ghost function SliceList(slices: seq<Z.Slice>): seq<Word> { Flat(SliceWords, slices) }

  ghost function Body(m: LosMap, g: Z.Grid): seq<Word> {
    TriangleList(m.triangles) + NodeList(m.nodes) + SliceList(g.slices) + TriangleList(g.triangles)
  }

  method ReadTriangles(words: seq<Word>, cursor: nat, n: nat) returns (r: Option<seq<Tri>>, cursor': nat)
    requires cursor <= |words|
    ensures cursor' <= |words|
    ensures r.Some? ==> |r.value| == n && cursor' == cursor + |TriangleList(r.value)| && At(words, cursor, TriangleList(r.value))
    ensures forall ts :: |ts| == n && At(words, cursor, TriangleList(ts)) ==> r == Some(ts)
  {
    RecordsInverse();
    hide Inverse, Flat, At;
    r, cursor' := ReadRecords(TriWords, ParseTri, 9, words, cursor, n);
  }

  method ReadNodes(words: seq<Word>, cursor: nat, n: nat) returns (r: Option<seq<LosNode>>, cursor': nat)
    requires cursor <= |words|
    ensures cursor' <= |words|
    ensures r.Some? ==> |r.value| == n && cursor' == cursor + |NodeList(r.value)| && At(words, cursor, NodeList(r.value))
    ensures forall ts :: |ts| == n && At(words, cursor, NodeList(ts)) ==> r == Some(ts)
  {
    RecordsInverse();
    hide Inverse, Flat, At;
    r, cursor' := ReadRecords(NodeWords, ParseNode, 10, words, cursor, n);
  }

  method ReadSlices(words: seq<Word>, cursor: nat) returns (r: Option<seq<Z.Slice>>, cursor': nat)
    requires cursor <= |words|
    ensures cursor' <= |words|
    ensures r.Some? ==> |r.value| == Z.COUNT && cursor' == cursor + |SliceList(r.value)| && At(words, cursor, SliceList(r.value))
    ensures forall ts :: |ts| == Z.COUNT && At(words, cursor, SliceList(ts)) ==> r == Some(ts)
  {
    RecordsInverse();
    hide Inverse, Flat, At;
    r, cursor' := ReadRecords(SliceWords, ParseSlice, 2, words, cursor, Z.COUNT);
  }

  /** Four parts one after the other. */
  lemma FourParts(words: seq<Word>, a: seq<Word>, b: seq<Word>, c: seq<Word>, d: seq<Word>)
    ensures a + b + c + d <= words <==>
            && At(words, 0, a) && At(words, |a|, b) && At(words, |a| + |b|, c) && At(words, |a| + |b| + |c|, d)
  {
    var (ab, abc) := (a + b, a + b + c);
    TwoParts(words, a, b);
    TwoParts(words, ab, c);
    TwoParts(words, abc, d);
  }

  lemma TwoParts(words: seq<Word>, a: seq<Word>, b: seq<Word>)
    ensures a + b <= words <==> At(words, 0, a) && At(words, |a|, b)
  {
    assert words[0..] == words;
    if At(words, 0, a) && At(words, |a|, b) {
      assert a + b == words[..|a| + |b|];
    }
    if a + b <= words {
      assert words[..|a|] == (a + b)[..|a|] == a;
      assert words[|a|..][..|b|] == (a + b)[|a|..] == b;
    }
  }

  /** los_map_read: it restores exactly the map and grid that the words hold, and throws if they hold none. */
  method ReadMap(h: Header, words: seq<Word>) returns (r: Option<(LosMap, Z.Grid)>)
    ensures r.Some? ==> Holds(h, words, r.value.0, r.value.1)
    ensures forall m, g :: Holds(h, words, m, g) ==> r == Some((m, g))
  {
    hide TriangleList, NodeList, SliceList, Holds, At;
    var tris, c1 := ReadTriangles(words, 0, h.triangleCount);
    forall m, g | Holds(h, words, m, g) ensures tris == Some(m.triangles) { Parts(h, words, m, g); }
    if tris.None? { return None; }
    var nodes, c2 := ReadNodes(words, c1, h.nodeCount);
    forall m, g | Holds(h, words, m, g) ensures nodes == Some(m.nodes) { Parts(h, words, m, g); }
    if nodes.None? { return None; }
    var slices, c3 := ReadSlices(words, c2);
    forall m, g | Holds(h, words, m, g) ensures slices == Some(g.slices) { Parts(h, words, m, g); }
    if slices.None? { return None; }
    var columns, c4 := ReadTriangles(words, c3, h.sliceTriangleCount);
    forall m, g | Holds(h, words, m, g) ensures columns == Some(g.triangles) { Parts(h, words, m, g); }
    if columns.None? { return None; }
    var m, g := LosMap(nodes.value, tris.value), Z.Grid(h.minX, h.minY, h.incX, h.incY, slices.value, columns.value);
    AllParts(h, words, m, g);
    r := Some((m, g));
    forall m', g' | Holds(h, words, m', g') ensures r == Some((m', g')) { Parts(h, words, m', g'); }
  }

  lemma Parts(h: Header, words: seq<Word>, m: LosMap, g: Z.Grid)
    requires Holds(h, words, m, g)
    ensures |m.triangles| == h.triangleCount && |m.nodes| == h.nodeCount && |g.slices| == Z.COUNT && |g.triangles| == h.sliceTriangleCount
    ensures g.minX == h.minX && g.minY == h.minY && g.incX == h.incX && g.incY == h.incY
    ensures var (a, b, c, d) := (TriangleList(m.triangles), NodeList(m.nodes), SliceList(g.slices), TriangleList(g.triangles));
            At(words, 0, a) && At(words, |a|, b) && At(words, |a| + |b|, c) && At(words, |a| + |b| + |c|, d)
  {
    hide TriangleList, NodeList, SliceList, At;
    FourParts(words, TriangleList(m.triangles), NodeList(m.nodes), SliceList(g.slices), TriangleList(g.triangles));
  }

  lemma AllParts(h: Header, words: seq<Word>, m: LosMap, g: Z.Grid)
    requires |m.triangles| == h.triangleCount && |m.nodes| == h.nodeCount && |g.slices| == Z.COUNT && |g.triangles| == h.sliceTriangleCount
    requires g.minX == h.minX && g.minY == h.minY && g.incX == h.incX && g.incY == h.incY
    requires var (a, b, c, d) := (TriangleList(m.triangles), NodeList(m.nodes), SliceList(g.slices), TriangleList(g.triangles));
             At(words, 0, a) && At(words, |a|, b) && At(words, |a| + |b|, c) && At(words, |a| + |b| + |c|, d)
    ensures Holds(h, words, m, g)
  {
    hide TriangleList, NodeList, SliceList, At;
    FourParts(words, TriangleList(m.triangles), NodeList(m.nodes), SliceList(g.slices), TriangleList(g.triangles));
  }

  // ----- The loaded map is the built one

  lemma {:induction false} IndexedMirrors(nodes: seq<T.Node>, more: seq<Tri>)
    ensures Mirrors(LosMap(Indexed(nodes), AllTriangles(nodes) + more), nodes)
  {
    if nodes != [] {
      var (front, last) := (nodes[..|nodes| - 1], nodes[|nodes| - 1]);
      var tris := AllTriangles(front);
      IndexedMirrors(front, last.triangles + more);
      assert AllTriangles(nodes) + more == tris + (last.triangles + more);
      assert (tris + (last.triangles + more))[|tris|..|tris| + |last.triangles|] == last.triangles;
      CountsAgree(nodes);
      CountsAgree(front);
      forall i | 0 <= i < |nodes| ensures NodeMirrors(Indexed(nodes)[i], AllTriangles(nodes) + more, nodes[i]) {
        if i < |front| {
          assert NodeMirrors(Indexed(front)[i], tris + (last.triangles + more), front[i]);
          assert Indexed(nodes)[i] == Indexed(front)[i] && nodes[i] == front[i];
        }
      }
    }
  }

  /** What is written is read back: every node with its links, its box and its own triangles, and the grid. */
  method WriteThenRead(nodes: seq<T.Node>, triangleCount: nat, grid: Z.Grid) returns (m: LosMap, g: Z.Grid)
    requires triangleCount == T.Kept(nodes) && |grid.slices| == Z.COUNT
    ensures Mirrors(m, nodes) && g == grid
  {
    hide Flat, AllTriangles, Indexed;
    var h, words := WriteMap(nodes, triangleCount, grid);
    ghost var wanted := LosMap(Indexed(nodes), AllTriangles(nodes));
    CountsAgree(nodes);
    IndexedMirrors(nodes, []);
    assert AllTriangles(nodes) + [] == AllTriangles(nodes);
    assert Body(wanted, grid) == Image(nodes, grid);
    var r := ReadMap(h, words);
    assert r == Some((wanted, grid));
    m, g := r.value.0, r.value.1;
  }

  // ----- From the triangles of a zone to the answers about it

  /** map_gen and los_map_open in sequence: build the tree and the grid, write them and load them. */
  method LoadedFrom(tris: seq<Tri>) returns (m: LosMap, g: Z.Grid, ghost nodes: seq<T.Node>, ghost held: seq<seq<Tri>>)
    ensures T.IsTree(nodes, held, tris) && Mirrors(m, nodes) && m.nodes != []
    ensures T.WellDivided(nodes, held)
    ensures |tris| <= T.MAX_TRIANGLES_PER_NODE ==> nodes == [T.Node(tris, 0, 0, T.BoundsOf(tris))]
    ensures Z.GridOk(g, tris, T.BoundsOf(tris))
  {
    hide T.WellDivided, T.Growing, T.Kept, T.BoundsOf, Z.Filled, NodeMirrors;
    var b := new T.Builder();
    var box := b.Generate(tris);
    var grid := Z.Init(box, tris);
    m, g := WriteThenRead(b.nodes, b.triangleCount, grid);
    nodes, held := b.nodes, b.held;
  }

  /** After building, writing and loading, the sight query is answered by the tree that was built: the view is
      blocked exactly if the line hits a triangle at the end of some path of boxes that the segment enters.  So it
      is blocked if a triangle crosses the segment, only if the line hits some triangle, and it agrees with a
      scan if the line hits nothing at the distance or beyond. */
  method SightOver(tris: seq<Tri>, start: Vec, dir: Vec, distance: real)
    returns (visible: bool, ghost nodes: seq<T.Node>, ghost held: seq<seq<Tri>>)
    requires Dot(dir, dir) == 1.0
    ensures T.IsTree(nodes, held, tris) && T.WellDivided(nodes, held)
    ensures |tris| <= T.MAX_TRIANGLES_PER_NODE ==> nodes == [T.Node(tris, 0, 0, T.BoundsOf(tris))]
    ensures visible <==> !Stopped(nodes, 0, start, dir, distance, 0.0)
    ensures distance <= 0.00001 ==> visible
    ensures distance > 0.00001 && SomeBlocks(tris, start, dir, distance) ==> !visible
    ensures !visible ==> SomeHitFrom(tris, start, dir, 0.0)
    ensures distance > 0.00001 && !SomeHitFrom(tris, start, dir, distance) ==> (visible <==> !SomeBlocks(tris, start, dir, distance))
  {
    hide T.IsTree, T.WellDivided, Mirrors, SomeBlocks, SomeHitFrom, Z.GridOk, Stopped, T.BoundsOf;
    var m, g;
    m, g, nodes, held := LoadedFrom(tris);
    ghost var visits;
    visible, visits := PointsAreInLineOfSight(m, start, dir, distance, nodes, held, tris);
    StopMeans(nodes, held, tris, start, dir, distance);
  }

  lemma StopMeans(nodes: seq<T.Node>, held: seq<seq<Tri>>, tris: seq<Tri>, start: Vec, dir: Vec, distance: real)
    requires T.IsTree(nodes, held, tris)
    ensures var stopped := Stopped(nodes, 0, start, dir, distance, 0.0);
            && (stopped ==> distance > 0.00001 && SomeHitFrom(tris, start, dir, 0.0))
            && (distance > 0.00001 && SomeBlocks(tris, start, dir, distance) ==> stopped)
            && (distance > 0.00001 && !SomeHitFrom(tris, start, dir, distance) ==> (stopped <==> SomeBlocks(tris, start, dir, distance)))
  {
    hide T.Growing, SomeBlocks, SomeHitFrom, T.BoundsOf;
    if Stopped(nodes, 0, start, dir, distance, 0.0) { StoppedByHeld(nodes, held, 0, start, dir, distance, 0.0); }
    hide Stopped;
    if distance > 0.00001 {
      StoppedIff(nodes, held, tris, start, dir, distance);
      if !SomeHitFrom(tris, start, dir, distance) { NothingBehind(nodes, held, tris, start, dir, distance); }
    }
  }

  /** A wall behind the target hides it, although nothing crosses the segment between the eye and the target. */
  method WallBehindHides() returns (visible: bool)
    ensures !visible && !SomeBlocks([WALL], EYE, AHEAD, 2.0)
  {
    WallBehindStops();
    hide Stopped, T.BoundsOf, SomeBlocks;
    ghost var nodes, held;
    visible, nodes, held := SightOver([WALL], EYE, AHEAD, 2.0);
  }

  /** A wall far behind the target does not hide it, because the tree is divided between them. */
  method FarWallIsNoBar() returns (visible: bool)
    ensures visible
  {
    assert Dot(AHEAD, AHEAD) == 1.0;
    hide Stopped, T.BoundsOf, SomeBlocks, SomeHitFrom, T.IsTree, T.WellDivided;
    ghost var nodes, held;
    visible, nodes, held := SightOver(HALL, LOOKOUT, AHEAD, 2.0);
    FarWallIsPassed(nodes, held);
  }

  /** After building, writing and loading, the height query agrees with a scan over all triangles. */
  method GroundOver(tris: seq<Tri>, p: Vec) returns (best: real)
    ensures var box := T.BoundsOf(tris);
            box.lo.x <= p.x <= box.hi.x && box.lo.y <= p.y <= box.hi.y ==> Z.IsBestZ(Z.Banded(tris), p, best)
  {
    hide T.IsTree, T.WellDivided, Mirrors, T.BoundsOf, Z.Filled, Z.IsBestZ;
    var m, g, _, _ := LoadedFrom(tris);
    ColumnsHaveWidth(tris);
    best := Z.GetBestZ(g, p, tris, T.BoundsOf(tris));
  }

  /** The grid over the bounds of a list of triangles, even of none, can be divided by its column width. */
  lemma ColumnsHaveWidth(tris: seq<Tri>)
    ensures var box := T.BoundsOf(tris); Z.Increment(box.hi.x - box.lo.x) != 0.0 && Z.Increment(box.hi.y - box.lo.y) != 0.0
  {
    if tris != [] {
      hide T.BoundsOf;
      T.BoundsHold(tris, tris[0]);
    }
  }
}
