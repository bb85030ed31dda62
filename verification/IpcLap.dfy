/**
  Why the ring needs its writers to be prompt.  On a ring of any size from three blocks, a writer that sleeps for
  a whole lap between loading writeStart and testing the flag clears the flag of a later packet, which then stays
  unreadable after every writer has returned.  One claim that the guard on laps forbids is enough.
 */
module IpcLap {
  import opened IpcRing

  /** A run that may take any enabled step, or, if guarded, any allowed one. */
  ghost predicate FreeRun(s: State, steps: seq<Step>, s': State, guarded: bool)
    decreases |steps|
  {
    if steps == [] then s == s'
    else
      && Enabled(s, steps[0]) && (guarded ==> Allowed(s, steps[0]))
      && FreeRun(Apply(s, steps[0]), steps[1..], s', guarded)
  }

  ghost predicate Leads(s: State, s': State, guarded: bool) { exists steps :: FreeRun(s, steps, s', guarded) }

  lemma {:induction false} RunsJoin(a: State, left: seq<Step>, b: State, right: seq<Step>, c: State, guarded: bool)
    requires FreeRun(a, left, b, guarded) && FreeRun(b, right, c, guarded)
    ensures FreeRun(a, left + right, c, guarded)
    decreases |left|
  {
    hide Enabled, Apply;
    if left == [] {
      assert left + right == right;
    } else {
      RunsJoin(Apply(a, left[0]), left[1..], b, right, c, guarded);
      assert (left + right)[1..] == left[1..] + right;
    }
  }

  lemma Then(a: State, b: State, c: State, guarded: bool)
    requires Leads(a, b, guarded) && Leads(b, c, guarded)
    ensures Leads(a, c, guarded)
  {
    var left :| FreeRun(a, left, b, guarded);
    var right :| FreeRun(b, right, c, guarded);
    RunsJoin(a, left, b, right, c, guarded);
  }

  /** One more step after a run. */
  lemma Next(a: State, b: State, step: Step, guarded: bool)
    requires Leads(a, b, guarded) && Enabled(b, step) && (guarded && step.WClaim? ==> NoLap(b))
    ensures Leads(a, Apply(b, step), guarded)
  {
    hide Enabled, Apply, NoLap;
    var c := Apply(b, step);
    assert [step][1..] == [] && FreeRun(c, [], c, guarded);
    assert FreeRun(b, [step], c, guarded);
    Then(a, b, c, guarded);
  }

  lemma {:induction false} RunsFree(s: State, steps: seq<Step>, s': State)
    requires FreeRun(s, steps, s', true)
    ensures FreeRun(s, steps, s', false)
    decreases |steps|
  {
    hide Enabled, Apply;
    if steps != [] { RunsFree(Apply(s, steps[0]), steps[1..], s'); }
  }

  /** A guarded run is a run of the model of the ring. */
  lemma {:induction false} GuardedIsRun(s: State, steps: seq<Step>, s': State)
    requires FreeRun(s, steps, s', true)
    ensures IsRun(s, steps) && Run(s, steps) == s'
    decreases |steps|
  {
    hide Enabled, Apply;
    if steps != [] { GuardedIsRun(Apply(s, steps[0]), steps[1..], s'); }
  }

  lemma Unguarded(a: State, b: State)
    requires Leads(a, b, true)
    ensures Leads(a, b, false)
  {
    var steps :| FreeRun(a, steps, b, true);
    RunsFree(a, steps, b);
  }

  ghost function W(s: State, t: int, pc: WriterPc): State { s.(writers := s.writers[t := pc]) }

  ghost function R(s: State, t: int, pc: ReaderPc): State { s.(readers := s.readers[t := pc]) }

  // ----- What one thread does undisturbed

  /** A writer claims the block at writeEnd. */
  ghost function Claimed(s: State, t: int, p: Packet): State
    requires s.writeEnd < |s.blocks|
  {
    W(s, t, WFilling(p, s.writeEnd, s.we)).(writeEnd := s.blocks[s.writeEnd].next, we := s.we + 1, sent := s.sent + [Cut(p)])
  }

  lemma Claims(a: State, s: State, t: int, p: Packet, g: bool)
    requires Leads(a, s, g) && t in s.writers && s.writers[t].WIdle? && |s.blocks| >= 2 && s.writeEnd < |s.blocks|
    requires s.blocks[s.writeEnd].next != s.readStart && (g ==> NoLap(s))
    ensures Leads(a, Claimed(s, t, p), g)
  {
    hide Leads;
    var s1 := W(s, t, WTop(p));
    assert Apply(s, WCall(t, p)) == s1;
    Next(a, s, WCall(t, p), g);
    var s2 := W(s, t, WLoaded(p, s.writeEnd, s.we));
    assert Apply(s1, WLoadEnd(t)) == s2;
    Next(a, s1, WLoadEnd(t), g);
    ChecksWriteEnd(a, s, t, p, g);
    var s3 := W(s, t, WChecked(p, s.writeEnd, s.we));
    assert g ==> NoLap(s3);
    assert Apply(s3, WClaim(t)) == Claimed(s, t, p);
    Next(a, s3, WClaim(t), g);
  }

  lemma ChecksWriteEnd(a: State, s: State, t: int, p: Packet, g: bool)
    requires Leads(a, W(s, t, WLoaded(p, s.writeEnd, s.we)), g) && t in s.writers && |s.blocks| >= 2 && s.writeEnd < |s.blocks|
    requires s.blocks[s.writeEnd].next != s.readStart
    ensures Leads(a, W(s, t, WChecked(p, s.writeEnd, s.we)), g)
  {
    hide Leads;
    var s2 := W(s, t, WLoaded(p, s.writeEnd, s.we));
    assert Apply(s2, WCheck(t)) == W(s, t, WChecked(p, s.writeEnd, s.we));
    Next(a, s2, WCheck(t), g);
  }

  /** A writer fills its block and marks it. */
  ghost function Marked(s: State, t: int): State
    requires t in s.writers && s.writers[t].WFilling? && s.writers[t].idx < |s.blocks|
  {
    var i := s.writers[t].idx;
    W(s, t, WHelping).(blocks := s.blocks[i := s.blocks[i].(content := Cut(s.writers[t].p), hasBeenWritten := true)])
  }

  lemma Marks(a: State, s: State, t: int, g: bool)
    requires Leads(a, s, g) && t in s.writers && s.writers[t].WFilling? && s.writers[t].idx < |s.blocks|
    ensures Leads(a, Marked(s, t), g)
  {
    hide Leads;
    var (i, p) := (s.writers[t].idx, s.writers[t].p);
    var s1 := W(s, t, WStoring(i, s.writers[t].at)).(blocks := s.blocks[i := s.blocks[i].(content := Cut(p))]);
    assert Apply(s, WFill(t)) == s1;
    Next(a, s, WFill(t), g);
    assert Apply(s1, WStore(t)) == Marked(s, t);
    Next(a, s1, WStore(t), g);
  }

  /** A helping writer moves writeStart over a marked block. */
  ghost function Moved(s: State, t: int): State
    requires s.writeStart < |s.blocks|
  {
    var i := s.writeStart;
    W(s, t, WHelping).(blocks := s.blocks[i := s.blocks[i].(hasBeenWritten := false)], writeStart := s.blocks[i].next, ws := s.ws + 1)
  }

  lemma Moves(a: State, s: State, t: int, g: bool)
    requires Leads(a, s, g) && t in s.writers && s.writers[t].WHelping? && s.writeStart < |s.blocks| && s.blocks[s.writeStart].hasBeenWritten
    ensures Leads(a, Moved(s, t), g)
  {
    hide Leads;
    var i := s.writeStart;
    var s1 := W(s, t, WTesting(i, s.ws));
    assert Apply(s, WLoadStart(t)) == s1;
    Next(a, s, WLoadStart(t), g);
    var s2 := W(s, t, WMoving(i, s.ws)).(blocks := s.blocks[i := s.blocks[i].(hasBeenWritten := false)]);
    assert Apply(s1, WTest(t)) == s2;
    Next(a, s1, WTest(t), g);
    assert Apply(s2, WMove(t)) == Moved(s, t);
    Next(a, s2, WMove(t), g);
  }

  /** A helping writer finds nothing to move, posts and returns. */
  ghost function Returned(s: State, t: int): State { W(s, t, WIdle).(semaphore := s.semaphore + 1) }

  lemma Returns(a: State, s: State, t: int, g: bool)
    requires Leads(a, s, g) && t in s.writers && s.writers[t].WHelping? && s.writeStart < |s.blocks| && !s.blocks[s.writeStart].hasBeenWritten
    ensures Leads(a, Returned(s, t), g)
  {
    hide Leads;
    var s1 := W(s, t, WTesting(s.writeStart, s.ws));
    assert Apply(s, WLoadStart(t)) == s1;
    Next(a, s, WLoadStart(t), g);
    var s2 := W(s, t, WPosting);
    assert Apply(s1, WTest(t)) == s2;
    Next(a, s1, WTest(t), g);
    assert Apply(s2, WPost(t)) == Returned(s, t);
    Next(a, s2, WPost(t), g);
  }

  /** A reader claims the block at readEnd, copies it and marks it read. */
  ghost function Copied(s: State, r: int): State
    requires s.readEnd < |s.blocks|
  {
    var i := s.readEnd;
    R(s, r, RHelping).(readEnd := s.blocks[i].next, re := s.re + 1, blocks := s.blocks[i := s.blocks[i].(hasBeenRead := true)],
                       got := s.got[s.re := s.blocks[i].content], returned := s.returned + [s.blocks[i].content])
  }

  lemma Copies(a: State, s: State, r: int, g: bool)
    requires Leads(a, s, g) && r in s.readers && s.readers[r].RTop? && s.readEnd < |s.blocks| && s.readEnd != s.writeStart
    ensures Leads(a, Copied(s, r), g)
  {
    hide Leads;
    var (i, at) := (s.readEnd, s.re);
    ChecksEnd(a, s, r, g);
    var s2 := R(s, r, RChecked(i, at));
    var s3 := R(s, r, RCopying(i, at)).(readEnd := s.blocks[i].next, re := s.re + 1);
    assert Apply(s2, RClaim(r)) == s3;
    Next(a, s2, RClaim(r), g);
    hide Apply, Enabled;
    Stores(a, s3, r, g);
    assert Stored(s3, r) == Copied(s, r);
  }

  lemma ChecksEnd(a: State, s: State, r: int, g: bool)
    requires Leads(a, s, g) && r in s.readers && s.readers[r].RTop? && s.readEnd < |s.blocks| && s.readEnd != s.writeStart
    ensures Leads(a, R(s, r, RChecked(s.readEnd, s.re)), g)
  {
    hide Leads;
    var s1 := R(s, r, RLoaded(s.readEnd, s.re));
    assert Apply(s, RLoadEnd(r)) == s1;
    Next(a, s, RLoadEnd(r), g);
    assert Apply(s1, RCheck(r)) == R(s, r, RChecked(s.readEnd, s.re));
    Next(a, s1, RCheck(r), g);
  }

  ghost function Stored(s: State, r: int): State
    requires r in s.readers && s.readers[r].RCopying? && s.readers[r].idx < |s.blocks|
  {
    var (i, at) := (s.readers[r].idx, s.readers[r].at);
    R(s, r, RHelping).(blocks := s.blocks[i := s.blocks[i].(hasBeenRead := true)],
                       got := s.got[at := s.blocks[i].content], returned := s.returned + [s.blocks[i].content])
  }

  lemma Stores(a: State, s: State, r: int, g: bool)
    requires Leads(a, s, g) && r in s.readers && s.readers[r].RCopying? && s.readers[r].idx < |s.blocks|
    ensures Leads(a, Stored(s, r), g)
  {
    hide Leads;
    var (i, at) := (s.readers[r].idx, s.readers[r].at);
    var s1 := R(s, r, RStoring(i, at)).(got := s.got[at := s.blocks[i].content], returned := s.returned + [s.blocks[i].content]);
    assert Apply(s, RCopy(r)) == s1;
    Next(a, s, RCopy(r), g);
    assert Apply(s1, RStore(r)) == Stored(s, r);
    Next(a, s1, RStore(r), g);
  }

  /** A helping reader moves readStart over a read block. */
  ghost function Freed(s: State, r: int): State
    requires s.readStart < |s.blocks|
  {
    var i := s.readStart;
    R(s, r, RHelping).(blocks := s.blocks[i := s.blocks[i].(hasBeenRead := false)], readStart := s.blocks[i].next, rs := s.rs + 1)
  }

  lemma Frees(a: State, s: State, r: int, g: bool)
    requires Leads(a, s, g) && r in s.readers && s.readers[r].RHelping? && s.readStart < |s.blocks| && s.blocks[s.readStart].hasBeenRead
    ensures Leads(a, Freed(s, r), g)
  {
    hide Leads;
    LoadsStart(a, s, r, g);
    var (i, s1) := (s.readStart, R(s, r, RTesting(s.readStart, s.rs)));
    var s2 := R(s, r, RMoving(i, s.rs)).(blocks := s.blocks[i := s.blocks[i].(hasBeenRead := false)]);
    assert Apply(s1, RTest(r)) == s2;
    Next(a, s1, RTest(r), g);
    assert Apply(s2, RMove(r)) == Freed(s, r);
    Next(a, s2, RMove(r), g);
  }

  lemma LoadsStart(a: State, s: State, r: int, g: bool)
    requires Leads(a, s, g) && r in s.readers && s.readers[r].RHelping?
    ensures Leads(a, R(s, r, RTesting(s.readStart, s.rs)), g)
  {
    hide Leads;
    assert Apply(s, RLoadStart(r)) == R(s, r, RTesting(s.readStart, s.rs));
    Next(a, s, RLoadStart(r), g);
  }

  /** A helping reader finds nothing more to move and goes on reading. */
  lemma Resumes(a: State, s: State, r: int, g: bool)
    requires Leads(a, s, g) && r in s.readers && s.readers[r].RHelping? && s.readStart < |s.blocks| && !s.blocks[s.readStart].hasBeenRead
    ensures Leads(a, R(s, r, RTop), g)
  {
    hide Leads;
    var s1 := R(s, r, RTesting(s.readStart, s.rs));
    LoadsStart(a, s, r, g);
    assert Apply(s1, RTest(r)) == R(s, r, RTop);
    Next(a, s1, RTest(r), g);
  }

  /** A reader takes the block at readEnd, which is also the one at readStart, and frees it. */
  ghost function Taken(s: State, r: int): State
    requires s.readEnd < |s.blocks|
  {
    var i := s.readEnd;
    R(s, r, RTop).(readEnd := s.blocks[i].next, re := s.re + 1, readStart := s.blocks[i].next, rs := s.rs + 1,
                   got := s.got[s.re := s.blocks[i].content], returned := s.returned + [s.blocks[i].content])
  }

  lemma Takes(a: State, s: State, r: int, g: bool)
    requires Leads(a, s, g) && r in s.readers && s.readers[r].RTop? && s.readEnd == s.readStart < |s.blocks| && s.readEnd != s.writeStart
    requires (forall i :: 0 <= i < |s.blocks| ==> !s.blocks[i].hasBeenRead) && s.blocks[s.readEnd].next < |s.blocks|
    ensures Leads(a, Taken(s, r), g)
  {
    hide Leads, Enabled, Apply;
    var i := s.readEnd;
    Copies(a, s, r, g);
    Frees(a, Copied(s, r), r, g);
    assert Freed(Copied(s, r), r).blocks == s.blocks;
    Resumes(a, Freed(Copied(s, r), r), r, g);
    assert R(Freed(Copied(s, r), r), r, RTop) == Taken(s, r);
  }

  // ----- A run on any ring of at least three blocks, with three writers and a reader

  const E: Packet := Packet(0, 0, [])

  /** Positions within the first two laps. */
  ghost function Index(n: nat, x: nat): nat { if x < n then x else if x < 2 * n then x - n else 0 }

  /** The blocks in a ring; only flags of writers are ever left set. */
  ghost function Blocks(n: nat, marked: set<nat>): (r: seq<Block>)
    ensures |r| == n
  {
    seq(n, i requires 0 <= i => Block(if i + 1 == n then 0 else i + 1, false, i in marked, E))
  }

  lemma BlocksMarked(n: nat, marked: set<nat>, i: nat)
    requires i < n
    ensures var b := Blocks(n, marked);
            && b[i := b[i].(content := E, hasBeenWritten := true)] == Blocks(n, marked + {i})
            && b[i := b[i].(hasBeenWritten := false)] == Blocks(n, marked - {i})
  {
  }

  ghost function Handed(n: nat): map<nat, Packet> { if n == 0 then map[] else Handed(n - 1)[n - 1 := E] }

  /** The state with the given flags, positions, semaphore and threads; the reader is never inside a read. */
  ghost function Here(n: nat, marked: set<nat>, rs: nat, ws: nat, we: nat, sem: nat, w: map<int, WriterPc>, r: ReaderPc): State {
    State(Blocks(n, marked), Index(n, rs), Index(n, rs), Index(n, ws), Index(n, we), sem, w, map[9 := r],
          rs, rs, ws, we, seq(we, _ => E), Handed(rs), seq(rs, _ => E))
  }

  lemma HereClaimed(n: nat, marked: set<nat>, rs: nat, ws: nat, we: nat, sem: nat, w: map<int, WriterPc>, r: ReaderPc, t: int)
    requires n >= 3 && we <= n
    ensures Claimed(Here(n, marked, rs, ws, we, sem, w, r), t, E)
            == Here(n, marked, rs, ws, we + 1, sem, w[t := WFilling(E, Index(n, we), we)], r)
  {
    assert seq(we, _ => E) + [E] == seq(we + 1, _ => E);
  }

  lemma HereMarked(n: nat, marked: set<nat>, rs: nat, ws: nat, we: nat, sem: nat, w: map<int, WriterPc>, r: ReaderPc, t: int, i: nat, at: nat)
    requires i < n && t in w && w[t] == WFilling(E, i, at)
    ensures Marked(Here(n, marked, rs, ws, we, sem, w, r), t) == Here(n, marked + {i}, rs, ws, we, sem, w[t := WHelping], r)
  {
    BlocksMarked(n, marked, i);
    hide Blocks;
  }

  lemma HereMoved(n: nat, marked: set<nat>, rs: nat, ws: nat, we: nat, sem: nat, w: map<int, WriterPc>, r: ReaderPc, t: int)
    requires n >= 3 && ws <= n
    ensures Moved(Here(n, marked, rs, ws, we, sem, w, r), t)
            == Here(n, marked - {Index(n, ws)}, rs, ws + 1, we, sem, w[t := WHelping], r)
  {
    BlocksMarked(n, marked, Index(n, ws));
  }

  lemma HereTaken(n: nat, rs: nat, ws: nat, we: nat, sem: nat, w: map<int, WriterPc>)
    requires n >= 3 && rs <= n
    ensures Taken(Here(n, {}, rs, ws, we, sem, w, RTop), 9) == Here(n, {}, rs + 1, ws, we, sem, w, RTop)
  {
    assert seq(rs, _ => E) + [E] == seq(rs + 1, _ => E);
    assert map[9 := RTop][9 := RTop] == map[9 := RTop];
  }

  ghost function Threads(a: WriterPc, b: WriterPc, c: WriterPc): map<int, WriterPc> { map[1 := a, 2 := b, 3 := c] }

  lemma First(a: WriterPc, b: WriterPc, c: WriterPc, x: WriterPc)
    ensures var w := Threads(a, b, c); 1 in w && w[1] == a && w[1 := x] == Threads(x, b, c)
  {
  }

  lemma Second(a: WriterPc, b: WriterPc, c: WriterPc, x: WriterPc)
    ensures var w := Threads(a, b, c); 2 in w && w[2] == b && w[2 := x] == Threads(a, x, c)
  {
  }

  lemma Third(a: WriterPc, b: WriterPc, c: WriterPc, x: WriterPc)
    ensures var w := Threads(a, b, c); 3 in w && w[3] == c && w[3 := x] == Threads(a, b, x)
  {
  }

  ghost function Start(n: nat): State { Here(n, {}, 0, 0, 0, 0, Threads(WIdle, WIdle, WIdle), RWaiting) }

  lemma Stays(s: State)
    ensures Leads(s, s, true)
  {
    assert FreeRun(s, [], s, true);
  }

  // ----- The same steps on such states

  /** A run, guarded or not, leads from the start to such a state. */
  ghost predicate Reached(n: nat, marked: set<nat>, rs: nat, ws: nat, we: nat, sem: nat, w: map<int, WriterPc>, r: ReaderPc, g: bool) {
    Leads(Start(n), Here(n, marked, rs, ws, we, sem, w, r), g)
  }

  /** The guard, if there is one, lets a writer claim. */
  ghost predicate MayClaim(n: nat, marked: set<nat>, rs: nat, ws: nat, we: nat, sem: nat, w: map<int, WriterPc>, r: ReaderPc, g: bool) {
    g ==> NoLap(Here(n, marked, rs, ws, we, sem, w, r))
  }

  lemma DoClaim(n: nat, marked: set<nat>, rs: nat, ws: nat, we: nat, sem: nat, w: map<int, WriterPc>, w': map<int, WriterPc>,
                r: ReaderPc, t: int, g: bool)
    requires n >= 3 && we <= n && rs <= n && Index(n, we + 1) != Index(n, rs) && t in w && w[t].WIdle?
    requires w' == w[t := WFilling(E, Index(n, we), we)]
    requires Reached(n, marked, rs, ws, we, sem, w, r, g) && MayClaim(n, marked, rs, ws, we, sem, w, r, g)
    ensures Reached(n, marked, rs, ws, we + 1, sem, w', r, g)
  {
    hide Leads, NoLap, Start;
    Claims(Start(n), Here(n, marked, rs, ws, we, sem, w, r), t, E, g);
    HereClaimed(n, marked, rs, ws, we, sem, w, r, t);
  }

  lemma DoMark(n: nat, marked: set<nat>, marked': set<nat>, rs: nat, ws: nat, we: nat, sem: nat, w: map<int, WriterPc>, w': map<int, WriterPc>,
               r: ReaderPc, t: int, i: nat, at: nat, g: bool)
    requires i < n && t in w && w[t] == WFilling(E, i, at) && w' == w[t := WHelping] && marked' == marked + {i}
    requires Reached(n, marked, rs, ws, we, sem, w, r, g)
    ensures Reached(n, marked', rs, ws, we, sem, w', r, g)
  {
    hide Leads, Start;
    Marks(Start(n), Here(n, marked, rs, ws, we, sem, w, r), t, g);
    HereMarked(n, marked, rs, ws, we, sem, w, r, t, i, at);
  }

  lemma DoMove(n: nat, marked: set<nat>, marked': set<nat>, rs: nat, ws: nat, we: nat, sem: nat, w: map<int, WriterPc>, r: ReaderPc, t: int, g: bool)
    requires n >= 3 && ws <= n && t in w && w[t].WHelping? && Index(n, ws) in marked && marked' == marked - {Index(n, ws)}
    requires Reached(n, marked, rs, ws, we, sem, w, r, g)
    ensures Reached(n, marked', rs, ws + 1, we, sem, w, r, g)
  {
    hide Leads, Start;
    Moves(Start(n), Here(n, marked, rs, ws, we, sem, w, r), t, g);
    HereMoved(n, marked, rs, ws, we, sem, w, r, t);
    assert w[t := WHelping] == w;
  }

  /** A writer finds the block marked that it loaded, and clears the flag. */
  lemma DoClear(n: nat, marked: set<nat>, marked': set<nat>, rs: nat, ws: nat, we: nat, sem: nat, w: map<int, WriterPc>, w': map<int, WriterPc>,
                r: ReaderPc, t: int, i: nat, at: nat, g: bool)
    requires i < n && i in marked && t in w && w[t] == WTesting(i, at) && w' == w[t := WMoving(i, at)] && marked' == marked - {i}
    requires Reached(n, marked, rs, ws, we, sem, w, r, g)
    ensures Reached(n, marked', rs, ws, we, sem, w', r, g)
  {
    hide Leads, NoLap, Start;
    var s := Here(n, marked, rs, ws, we, sem, w, r);
    assert Apply(s, WTest(t)) == Here(n, marked', rs, ws, we, sem, w', r) by { BlocksMarked(n, marked, i); }
    Next(Start(n), s, WTest(t), g);
  }

  /** A writer finds that writeStart is no longer what it loaded. */
  lemma DoMiss(n: nat, marked: set<nat>, rs: nat, ws: nat, we: nat, sem: nat, w: map<int, WriterPc>, w': map<int, WriterPc>,
               r: ReaderPc, t: int, i: nat, at: nat, g: bool)
    requires i < n && Index(n, ws) != i && t in w && w[t] == WMoving(i, at) && w' == w[t := WHelping]
    requires Reached(n, marked, rs, ws, we, sem, w, r, g)
    ensures Reached(n, marked, rs, ws, we, sem, w', r, g)
  {
    hide Leads, NoLap, Start;
    Next(Start(n), Here(n, marked, rs, ws, we, sem, w, r), WMove(t), g);
  }

  lemma DoReturn(n: nat, marked: set<nat>, rs: nat, ws: nat, we: nat, sem: nat, w: map<int, WriterPc>, w': map<int, WriterPc>, r: ReaderPc, t: int, g: bool)
    requires n >= 3 && t in w && w[t].WHelping? && Index(n, ws) < n && Index(n, ws) !in marked && w' == w[t := WIdle]
    requires Reached(n, marked, rs, ws, we, sem, w, r, g)
    ensures Reached(n, marked, rs, ws, we, sem + 1, w', r, g)
  {
    hide Leads, Start;
    Returns(Start(n), Here(n, marked, rs, ws, we, sem, w, r), t, g);
  }

  lemma DoTake(n: nat, rs: nat, ws: nat, we: nat, sem: nat, w: map<int, WriterPc>, g: bool)
    requires n >= 3 && rs < n && ws <= n && Index(n, ws) != rs
    requires Reached(n, {}, rs, ws, we, sem, w, RTop, g)
    ensures Reached(n, {}, rs + 1, ws, we, sem, w, RTop, g)
  {
    hide Leads, Start;
    Takes(Start(n), Here(n, {}, rs, ws, we, sem, w, RTop), 9, g);
    HereTaken(n, rs, ws, we, sem, w);
  }

  lemma DoLoad(n: nat, marked: set<nat>, rs: nat, ws: nat, we: nat, sem: nat, w: map<int, WriterPc>, w': map<int, WriterPc>, r: ReaderPc, t: int, g: bool)
    requires t in w && w[t].WHelping? && w' == w[t := WTesting(Index(n, ws), ws)] && Reached(n, marked, rs, ws, we, sem, w, r, g)
    ensures Reached(n, marked, rs, ws, we, sem, w', r, g)
  {
    hide Leads, NoLap, Start;
    Next(Start(n), Here(n, marked, rs, ws, we, sem, w, r), WLoadStart(t), g);
  }

  lemma DoWake(n: nat, rs: nat, ws: nat, we: nat, sem: nat, w: map<int, WriterPc>, g: bool)
    requires sem > 0 && Reached(n, {}, rs, ws, we, sem, w, RWaiting, g)
    ensures Reached(n, {}, rs, ws, we, sem - 1, w, RTop, g)
  {
    hide Leads, NoLap, Start;
    Next(Start(n), Here(n, {}, rs, ws, we, sem, w, RWaiting), RWake(9), g);
    assert map[9 := RWaiting][9 := RTop] == map[9 := RTop];
  }

  /** Nobody laps writer 1, asleep before testing block 0, while fewer than n packets are claimed. */
  lemma NotLapped(n: nat, marked: set<nat>, rs: nat, ws: nat, we: nat, sem: nat, a: WriterPc, r: ReaderPc)
    requires we < n && (a.WIdle? || a == WTesting(0, 0)) && (r.RTop? || r.RWaiting?)
    ensures MayClaim(n, marked, rs, ws, we, sem, Threads(a, WIdle, WIdle), r, true)
  {
  }

  const SLEEPER: WriterPc := WTesting(0, 0)

  /** Writer 1 publishes packet 0 and falls asleep with index 0 in hand. */
  lemma Asleep(n: nat)
    requires n >= 3
    ensures Reached(n, {0}, 0, 0, 1, 0, Threads(SLEEPER, WIdle, WIdle), RWaiting, true)
  {
    Stays(Start(n));
    assert Reached(n, {}, 0, 0, 0, 0, Threads(WIdle, WIdle, WIdle), RWaiting, true);
    assert Index(n, 0) == 0 && Index(n, 1) == 1;
    hide Reached, MayClaim, Index;
    NotLapped(n, {}, 0, 0, 0, 0, WIdle, RWaiting);
    var f := WFilling(E, 0, 0);
    var (w, c, h) := (Threads(WIdle, WIdle, WIdle), Threads(f, WIdle, WIdle), Threads(WHelping, WIdle, WIdle));
    First(WIdle, WIdle, WIdle, f);
    First(f, WIdle, WIdle, WHelping);
    First(WHelping, WIdle, WIdle, SLEEPER);
    hide Threads;
    DoClaim(n, {}, 0, 0, 0, 0, w, c, RWaiting, 1, true);
    DoMark(n, {}, {0}, 0, 0, 1, 0, c, h, RWaiting, 1, 0, 0, true);
    DoLoad(n, {0}, 0, 0, 1, 0, h, Threads(SLEEPER, WIdle, WIdle), RWaiting, 1, true);
  }

  /** Writer 2 claims the next block, fills and marks it, while writer 1 sleeps. */
  lemma Publishes(n: nat, marked: set<nat>, marked': set<nat>, rs: nat, ws: nat, we: nat, sem: nat, third: WriterPc, r: ReaderPc, i: nat, g: bool)
    requires n >= 3 && we <= n && rs <= n && i == Index(n, we) < n && Index(n, we + 1) != Index(n, rs) && marked' == marked + {i}
    requires Reached(n, marked, rs, ws, we, sem, Threads(SLEEPER, WIdle, third), r, g)
    requires MayClaim(n, marked, rs, ws, we, sem, Threads(SLEEPER, WIdle, third), r, g)
    ensures Reached(n, marked', rs, ws, we + 1, sem, Threads(SLEEPER, WHelping, third), r, g)
  {
    var f := WFilling(E, i, we);
    Second(SLEEPER, WIdle, third, f);
    Second(SLEEPER, f, third, WHelping);
    hide Reached, MayClaim, Threads, Index;
    var (w, c, h) := (Threads(SLEEPER, WIdle, third), Threads(SLEEPER, f, third), Threads(SLEEPER, WHelping, third));
    DoClaim(n, marked, rs, ws, we, sem, w, c, r, 2, g);
    DoMark(n, marked, marked', rs, ws, we + 1, sem, c, h, r, 2, i, we, g);
  }

  /** Writer 2 finds nothing more to move, and returns. */
  lemma Leaves(n: nat, marked: set<nat>, rs: nat, ws: nat, we: nat, sem: nat, third: WriterPc, r: ReaderPc, g: bool)
    requires n >= 3 && Index(n, ws) < n && Index(n, ws) !in marked
    requires Reached(n, marked, rs, ws, we, sem, Threads(SLEEPER, WHelping, third), r, g)
    ensures Reached(n, marked, rs, ws, we, sem + 1, Threads(SLEEPER, WIdle, third), r, g)
  {
    Second(SLEEPER, WHelping, third, WIdle);
    hide Reached, Threads, Index;
    DoReturn(n, marked, rs, ws, we, sem, Threads(SLEEPER, WHelping, third), Threads(SLEEPER, WIdle, third), r, 2, g);
  }

  /** Writer 2 publishes packet 1, moves writeStart over both and returns. */
  lemma Helped(n: nat)
    requires n >= 3
    ensures Reached(n, {}, 0, 2, 2, 1, Threads(SLEEPER, WIdle, WIdle), RWaiting, true)
  {
    hide Reached, MayClaim;
    Asleep(n);
    NotLapped(n, {0}, 0, 0, 1, 0, SLEEPER, RWaiting);
    var h := Threads(SLEEPER, WHelping, WIdle);
    Second(SLEEPER, WHelping, WIdle, WHelping);
    assert Index(n, 0) == 0 && Index(n, 1) == 1 && Index(n, 2) == 2;
    hide Threads, Index;
    Publishes(n, {0}, {0, 1}, 0, 0, 1, 0, WIdle, RWaiting, 1, true);
    DoMove(n, {0, 1}, {1}, 0, 0, 2, 0, h, RWaiting, 2, true);
    DoMove(n, {1}, {}, 0, 1, 2, 0, h, RWaiting, 2, true);
    Leaves(n, {}, 0, 2, 2, 0, WIdle, RWaiting, true);
  }

  /** The reader wakes and takes both packets. */
  lemma Drained(n: nat)
    requires n >= 3
    ensures Reached(n, {}, 2, 2, 2, 0, Threads(SLEEPER, WIdle, WIdle), RTop, true)
  {
    hide Reached, Threads;
    Helped(n);
    var w := Threads(SLEEPER, WIdle, WIdle);
    DoWake(n, 0, 2, 2, 1, w, true);
    DoTake(n, 0, 2, 2, 0, w, true);
    DoTake(n, 1, 2, 2, 0, w, true);
  }

  /** Writer 2 and the reader pass further packets through the ring, up to the block before the sleeper's. */
  lemma {:induction false} PassedOn(n: nat, k: nat)
    requires 2 <= k < n
    ensures Reached(n, {}, k, k, k, k - 2, Threads(SLEEPER, WIdle, WIdle), RTop, true)
    decreases k
  {
    hide Reached;
    if k == 2 {
      Drained(n);
    } else {
      PassedOn(n, k - 1);
      OnePasses(n, k - 1, k - 3);
    }
  }

  lemma OnePasses(n: nat, k: nat, sem: nat)
    requires 2 <= k < n - 1 && Reached(n, {}, k, k, k, sem, Threads(SLEEPER, WIdle, WIdle), RTop, true)
    ensures Reached(n, {}, k + 1, k + 1, k + 1, sem + 1, Threads(SLEEPER, WIdle, WIdle), RTop, true)
  {
    hide Reached, MayClaim;
    NotLapped(n, {}, k, k, k, sem, SLEEPER, RTop);
    var h := Threads(SLEEPER, WHelping, WIdle);
    Second(SLEEPER, WHelping, WIdle, WHelping);
    assert Index(n, k) == k && Index(n, k + 1) == k + 1;
    hide Threads, Index;
    Publishes(n, {}, {k}, k, k, k, sem, WIdle, RTop, k, true);
    DoMove(n, {k}, {}, k, k, k + 1, sem, h, RTop, 2, true);
    Leaves(n, {}, k, k + 1, k + 1, sem, WIdle, RTop, true);
    DoTake(n, k, k + 1, k + 1, sem + 1, Threads(SLEEPER, WIdle, WIdle), true);
  }

  ghost function Lapping(n: nat): State
    requires n >= 3
  {
    Here(n, {}, n - 1, n - 1, n, n - 3, Threads(SLEEPER, WIdle, WFilling(E, n - 1, n - 1)), RTop)
  }

  lemma LapComes(n: nat)
    requires n >= 3
    ensures !NoLap(Lapping(n))
  {
    assert 1 in Lapping(n).writers && Lapping(n).writers[1] == SLEEPER;
  }

  /** Writer 3 claims the block before the sleeper's.  All this a guarded run may do; the next claim, of the
      sleeper's block, is the first that the guard forbids. */
  lemma Waiting(n: nat)
    requires n >= 3
    ensures Leads(Start(n), Lapping(n), true) && !NoLap(Lapping(n))
  {
    hide Leads, NoLap, Start, Here, MayClaim;
    PassedOn(n, n - 1);
    NotLapped(n, {}, n - 1, n - 1, n - 1, n - 3, SLEEPER, RTop);
    var w := Threads(SLEEPER, WIdle, WIdle);
    var f := WFilling(E, n - 1, n - 1);
    Third(SLEEPER, WIdle, WIdle, f);
    LapComes(n);
    assert Index(n, n - 1) == n - 1 && Index(n, n) == 0;
    hide Threads, Index;
    DoClaim(n, {}, n - 1, n - 1, n - 1, n - 3, w, Threads(SLEEPER, WIdle, f), RTop, 3, true);
  }

  /** Up to that claim, the run is one that the theorems about the ring speak of. */
  lemma WaitingIsAllowed(n: nat)
    requires n >= 3
    ensures exists steps :: IsRun(Start(n), steps) && Run(Start(n), steps) == Lapping(n)
  {
    Waiting(n);
    hide Here;
    var steps :| FreeRun(Start(n), steps, Lapping(n), true);
    GuardedIsRun(Start(n), steps, Lapping(n));
  }

  lemma Unguard(n: nat, f: WriterPc)
    requires n >= 3 && f == WFilling(E, n - 1, n - 1)
    ensures Reached(n, {}, n - 1, n - 1, n, n - 3, Threads(SLEEPER, WIdle, f), RTop, false)
    ensures MayClaim(n, {}, n - 1, n - 1, n, n - 3, Threads(SLEEPER, WIdle, f), RTop, false)
  {
    hide Leads, Here, Start, NoLap, Threads;
    Waiting(n);
    Unguarded(Start(n), Lapping(n));
  }

  /** Writer 2 claims it all the same, publishes packet n in block 0 and returns. */
  lemma Lapped(n: nat, f: WriterPc)
    requires n >= 3 && f == WFilling(E, n - 1, n - 1)
    ensures Reached(n, {0}, n - 1, n - 1, n + 1, n - 2, Threads(SLEEPER, WIdle, f), RTop, false)
  {
    var (last, sem) := (n - 1, n - 3);
    assert Index(n, n) == 0 && Index(n, n + 1) == 1 && Index(n, last) == last;
    hide Reached, MayClaim, Threads, Index;
    Unguard(n, f);
    Publishes(n, {}, {0}, last, last, n, sem, f, RTop, 0, false);
    Leaves(n, {0}, last, last, n + 1, sem, f, RTop, false);
  }

  /** Writer 1 wakes, clears the flag of packet n, and fails to move writeStart. */
  lemma Wakes(n: nat, f: WriterPc)
    requires n >= 3 && f == WFilling(E, n - 1, n - 1)
    ensures Reached(n, {}, n - 1, n - 1, n + 1, n - 2, Threads(WHelping, WIdle, f), RTop, false)
  {
    First(SLEEPER, WIdle, f, WMoving(0, 0));
    First(WMoving(0, 0), WIdle, f, WHelping);
    assert Index(n, n - 1) == n - 1 != 0;
    hide Reached, Threads, Index;
    var (w, m, h) := (Threads(SLEEPER, WIdle, f), Threads(WMoving(0, 0), WIdle, f), Threads(WHelping, WIdle, f));
    Lapped(n, f);
    DoClear(n, {0}, {}, n - 1, n - 1, n + 1, n - 2, w, m, RTop, 1, 0, 0, false);
    DoMiss(n, {}, n - 1, n - 1, n + 1, n - 2, m, h, RTop, 1, 0, 0, false);
  }

  ghost predicate Stuck(s: State) {
    && (forall t :: t in s.writers ==> s.writers[t].WIdle?) && s.ws < s.we == |s.sent|
    && (forall i :: 0 <= i < |s.blocks| ==> !s.blocks[i].hasBeenWritten)
  }

  /** From any ring of at least three blocks just initialised, a free run ends with all writers returned and
      packet n written, but with writeStart short of it and no flag left to move over it. */
  lemma LapLosesAPacket(n: nat)
    requires n >= 3
    ensures Init(Start(n)) && |Start(n).blocks| == n && exists s :: Leads(Start(n), s, false) && Stuck(s)
  {
    Ends(n);
    hide Leads;
    assert Stuck(Here(n, {}, n - 1, n, n + 1, n, Threads(WIdle, WIdle, WIdle), RTop));
  }

  /** Writer 1 returns; writer 3 publishes packet n - 1, moves writeStart over it and returns. */
  lemma Ends(n: nat)
    requires n >= 3
    ensures Reached(n, {}, n - 1, n, n + 1, n, Threads(WIdle, WIdle, WIdle), RTop, false)
  {
    hide Reached;
    var f := WFilling(E, n - 1, n - 1);
    Wakes(n, f);
    var (w, h) := (Threads(WIdle, WIdle, f), Threads(WIdle, WIdle, WHelping));
    First(WHelping, WIdle, f, WIdle);
    Third(WIdle, WIdle, f, WHelping);
    Third(WIdle, WIdle, WHelping, WIdle);
    assert Index(n, n - 1) == n - 1 && Index(n, n) == 0;
    hide Threads, Index;
    DoReturn(n, {}, n - 1, n - 1, n + 1, n - 2, Threads(WHelping, WIdle, f), w, RTop, 1, false);
    DoMark(n, {}, {n - 1}, n - 1, n - 1, n + 1, n - 1, w, h, RTop, 3, n - 1, n - 1, false);
    DoMove(n, {n - 1}, {}, n - 1, n - 1, n + 1, n - 1, h, RTop, 3, false);
    DoReturn(n, {}, n - 1, n, n + 1, n - 1, h, Threads(WIdle, WIdle, WIdle), RTop, 3, false);
  }
}
