/**
  The shared-memory packet ring between processes (`ipc_buffer.c`), as a step system whose
  steps are single atomic operations.  Any number of writers and any number of readers run
  interleaved.  The four index registers and the indices a thread has loaded are concrete
  ring indices; beside each the state keeps a history variable, the absolute position that
  the register has reached since the ring was initialised.  No guard of a step except
  `NoLap` looks at a history variable.
 */
module IpcRing {
  import opened Arrays

  const MAX_PACKET_SIZE: nat := 4096

  datatype Packet = Packet(opcode: int, sourceId: int, data: seq<bv8>)

  datatype Block = Block(next: nat, hasBeenRead: bool, hasBeenWritten: bool, content: Packet)

  /** Where a writer stands in ipc_buffer_write; `at` is the history of the loaded index, brought up to date when
      it is checked. */
  datatype WriterPc =
    | WIdle
    | WTop(p: Packet)
    | WLoaded(p: Packet, idx: nat, at: nat)
    | WChecked(p: Packet, idx: nat, at: nat)
    | WFilling(p: Packet, idx: nat, at: nat)
    | WStoring(idx: nat, at: nat)
    | WHelping
    | WTesting(idx: nat, at: nat)
    | WMoving(idx: nat, at: nat)
    | WPosting

  /** Where a reader stands: it waits for the semaphore, then reads until the ring is empty. */
  datatype ReaderPc =
    | RWaiting
    | RTop
    | RLoaded(idx: nat, at: nat)
    | RChecked(idx: nat, at: nat)
    | RCopying(idx: nat, at: nat)
    | RStoring(idx: nat, at: nat)
    | RHelping
    | RTesting(idx: nat, at: nat)
    | RMoving(idx: nat, at: nat)

  datatype State = State(
    blocks: seq<Block>,
    readStart: nat, readEnd: nat, writeStart: nat, writeEnd: nat,
    semaphore: nat,
    writers: map<int, WriterPc>,
    readers: map<int, ReaderPc>,
    // history: absolute positions, packets in claim order, packets handed out
    rs: nat, re: nat, ws: nat, we: nat,
    sent: seq<Packet>,
    got: map<nat, Packet>,
    returned: seq<Packet>)

  datatype Step =
    | WCall(t: int, p: Packet)
    | WLoadEnd(t: int)
    | WCheck(t: int)
    | WTimeout(t: int)
    | WClaim(t: int)
    | WClaimFail(t: int)
    | WScribble(t: int, junk: Packet)
    | WFill(t: int)
    | WStore(t: int)
    | WLoadStart(t: int)
    | WTest(t: int)
    | WMove(t: int)
    | WPost(t: int)
    | RWake(t: int)
    | RLoadEnd(t: int)
    | RCheck(t: int)
    | RClaim(t: int)
    | RClaimFail(t: int)
    | RCopy(t: int)
    | RStore(t: int)
    | RLoadStart(t: int)
    | RTest(t: int)
    | RMove(t: int)

  /** A packet longer than a block is cut at the block's capacity. */
  ghost function Cut(p: Packet): Packet {
    if |p.data| > MAX_PACKET_SIZE then p.(data := p.data[..MAX_PACKET_SIZE]) else p
  }

  ghost predicate Init(s: State) {
    && |s.blocks| >= 2
    && (forall i :: 0 <= i < |s.blocks| ==>
          && s.blocks[i].next == (if i + 1 == |s.blocks| then 0 else i + 1)
          && !s.blocks[i].hasBeenRead && !s.blocks[i].hasBeenWritten)
    && s.readStart == s.readEnd == s.writeStart == s.writeEnd == 0
    && s.semaphore == 0
    && (forall t :: t in s.writers ==> s.writers[t] == WIdle)
    && (forall t :: t in s.readers ==> s.readers[t] == RWaiting)
    && s.rs == s.re == s.ws == s.we == 0
    && s.sent == [] && s.got == map[] && s.returned == []
  }

  /** writeEnd comes back to a value that the writer has checked: its compare-exchange would succeed a lap late. */
  ghost predicate StaleW(pc: WriterPc, we: nat, n: nat) { pc.WChecked? && we + 1 >= pc.at + n }

  /** readEnd may come back to a value that the reader has loaded. */
  ghost predicate StaleR(pc: ReaderPc, we: nat, n: nat) { (pc.RLoaded? || pc.RChecked?) && we + 1 >= pc.at + n }

  /** The block that a thread is about to test is claimed again. */
  ghost predicate LapsW(pc: WriterPc, we: nat, n: nat) { pc.WTesting? && we >= pc.at + n }

  ghost predicate LapsR(pc: ReaderPc, we: nat, n: nat) { pc.RTesting? && we >= pc.at + n }

  /** A claim must not bring writeEnd all the way round to an index that some thread holds for its
      compare-exchange, and must not take the block whose flag some thread is about to test. */
  ghost predicate NoLap(s: State) {
    && (forall t :: t in s.writers ==> !StaleW(s.writers[t], s.we, |s.blocks|) && !LapsW(s.writers[t], s.we, |s.blocks|))
    && (forall t :: t in s.readers ==> !StaleR(s.readers[t], s.we, |s.blocks|) && !LapsR(s.readers[t], s.we, |s.blocks|))
  }

  ghost predicate InRange(s: State, idx: nat) { idx < |s.blocks| }

  ghost predicate WriterEnabled(s: State, step: Step, pc: WriterPc) {
    match step
    case WCall(_, _) => pc.WIdle?
    case WLoadEnd(_) => pc.WTop?
    case WCheck(_) => pc.WLoaded? && InRange(s, pc.idx)
    case WTimeout(_) => pc.WLoaded? && InRange(s, pc.idx) && s.blocks[pc.idx].next == s.readStart
    case WClaim(_) => pc.WChecked? && InRange(s, pc.idx) && s.writeEnd == pc.idx
    case WClaimFail(_) => pc.WChecked?
    case WScribble(_, _) => pc.WFilling? && InRange(s, pc.idx)
    case WFill(_) => pc.WFilling? && InRange(s, pc.idx)
    case WStore(_) => pc.WStoring? && InRange(s, pc.idx)
    case WLoadStart(_) => pc.WHelping?
    case WTest(_) => pc.WTesting? && InRange(s, pc.idx)
    case WMove(_) => pc.WMoving? && InRange(s, pc.idx)
    case WPost(_) => pc.WPosting?
    case _ => false
  }

  ghost predicate ReaderEnabled(s: State, step: Step, pc: ReaderPc) {
    match step
    case RWake(_) => pc.RWaiting? && s.semaphore > 0
    case RLoadEnd(_) => pc.RTop?
    case RCheck(_) => pc.RLoaded? && InRange(s, pc.idx)
    case RClaim(_) => pc.RChecked? && InRange(s, pc.idx) && s.readEnd == pc.idx
    case RClaimFail(_) => pc.RChecked?
    case RCopy(_) => pc.RCopying? && InRange(s, pc.idx)
    case RStore(_) => pc.RStoring? && InRange(s, pc.idx)
    case RLoadStart(_) => pc.RHelping?
    case RTest(_) => pc.RTesting? && InRange(s, pc.idx)
    case RMove(_) => pc.RMoving? && InRange(s, pc.idx)
    case _ => false
  }

  ghost predicate Enabled(s: State, step: Step) {
    || (step.t in s.writers && WriterEnabled(s, step, s.writers[step.t]))
    || (step.t in s.readers && ReaderEnabled(s, step, s.readers[step.t]))
  }

  ghost function SetW(s: State, t: int, pc: WriterPc): State { s.(writers := s.writers[t := pc]) }

  ghost function SetR(s: State, t: int, pc: ReaderPc): State { s.(readers := s.readers[t := pc]) }

  ghost function SetBlock(s: State, i: nat, b: Block): State
    requires i < |s.blocks|
  {
    s.(blocks := s.blocks[i := b])
  }

  /** The latest position, not beyond we, that uses the same block as x in a ring of n blocks. */
  ghost function Latest(x: nat, we: nat, n: nat): nat
    decreases if x <= we then we - x else 0
  {
    if n > 0 && x + n <= we then Latest(x + n, we, n) else x
  }

  /** The effect of one atomic operation.  A weak compare-exchange may also fail when the values
      agree (WClaimFail, RClaimFail); while it fills its block a writer may leave any content
      there (WScribble) before the final content is in place (WFill). */
  ghost function Apply(s: State, step: Step): State
    requires Enabled(s, step)
  {
    match step
    case WCall(t, p) => SetW(s, t, WTop(p))
    case WLoadEnd(t) => SetW(s, t, WLoaded(s.writers[t].p, s.writeEnd, s.we))
    case WCheck(t) =>
      var pc := s.writers[t];
      SetW(s, t, if s.blocks[pc.idx].next == s.readStart then WTop(pc.p) else WChecked(pc.p, pc.idx, Latest(pc.at, s.we, |s.blocks|)))
    case WTimeout(t) => SetW(s, t, WIdle)
    case WClaim(t) =>
      var pc := s.writers[t];
      SetW(s, t, WFilling(pc.p, pc.idx, s.we)).(
        writeEnd := s.blocks[pc.idx].next, we := s.we + 1, sent := s.sent + [Cut(pc.p)])
    case WClaimFail(t) => SetW(s, t, WTop(s.writers[t].p))
    case WScribble(t, junk) =>
      var pc := s.writers[t];
      SetBlock(s, pc.idx, s.blocks[pc.idx].(content := junk))
    case WFill(t) =>
      var pc := s.writers[t];
      SetBlock(SetW(s, t, WStoring(pc.idx, pc.at)), pc.idx, s.blocks[pc.idx].(content := Cut(pc.p)))
    case WStore(t) =>
      var pc := s.writers[t];
      SetBlock(SetW(s, t, WHelping), pc.idx, s.blocks[pc.idx].(hasBeenWritten := true))
    case WLoadStart(t) => SetW(s, t, WTesting(s.writeStart, s.ws))
    case WTest(t) =>
      var pc := s.writers[t];
      if s.blocks[pc.idx].hasBeenWritten then
        SetBlock(SetW(s, t, WMoving(pc.idx, pc.at)), pc.idx, s.blocks[pc.idx].(hasBeenWritten := false))
      else
        SetW(s, t, WPosting)
    case WMove(t) =>
      var pc := s.writers[t];
      if s.writeStart == pc.idx then
        SetW(s, t, WHelping).(writeStart := s.blocks[pc.idx].next, ws := s.ws + 1)
      else
        SetW(s, t, WHelping)
    case WPost(t) => SetW(s, t, WIdle).(semaphore := s.semaphore + 1)
    case RWake(t) => SetR(s, t, RTop).(semaphore := s.semaphore - 1)
    case RLoadEnd(t) => SetR(s, t, RLoaded(s.readEnd, s.re))
    case RCheck(t) =>
      var pc := s.readers[t];
      SetR(s, t, if pc.idx == s.writeStart then RWaiting else RChecked(pc.idx, pc.at))
    case RClaim(t) =>
      var pc := s.readers[t];
      SetR(s, t, RCopying(pc.idx, s.re)).(readEnd := s.blocks[pc.idx].next, re := s.re + 1)
    case RClaimFail(t) => SetR(s, t, RTop)
    case RCopy(t) =>
      var pc := s.readers[t];
      var packet := s.blocks[pc.idx].content;
      SetR(s, t, RStoring(pc.idx, pc.at)).(got := s.got[pc.at := packet], returned := s.returned + [packet])
    case RStore(t) =>
      var pc := s.readers[t];
      SetBlock(SetR(s, t, RHelping), pc.idx, s.blocks[pc.idx].(hasBeenRead := true))
    case RLoadStart(t) => SetR(s, t, RTesting(s.readStart, s.rs))
    case RTest(t) =>
      var pc := s.readers[t];
      if s.blocks[pc.idx].hasBeenRead then
        SetBlock(SetR(s, t, RMoving(pc.idx, pc.at)), pc.idx, s.blocks[pc.idx].(hasBeenRead := false))
      else
        SetR(s, t, RTop)
    case RMove(t) =>
      var pc := s.readers[t];
      if s.readStart == pc.idx then
        SetR(s, t, RHelping).(readStart := s.blocks[pc.idx].next, rs := s.rs + 1)
      else
        SetR(s, t, RHelping)
  }

  /** A step is allowed when it is enabled and, if it claims a block, no stale index is lapped. */
  ghost predicate Allowed(s: State, step: Step) {
    Enabled(s, step) && (step.WClaim? ==> NoLap(s))
  }

  ghost predicate IsRun(s: State, steps: seq<Step>)
    decreases |steps|
  {
    steps == [] || (Allowed(s, steps[0]) && IsRun(Apply(s, steps[0]), steps[1..]))
  }

  ghost function Run(s: State, steps: seq<Step>): State
    requires IsRun(s, steps)
    decreases |steps|
  {
    if steps == [] then s else Run(Apply(s, steps[0]), steps[1..])
  }

  // ----- The inductive invariant

  /** The block that an absolute position uses in a ring of n blocks. */
  ghost function Ring(x: nat, n: nat): (i: nat)
    requires n > 0
    ensures i < n
  {
    if x < n then x else Ring(x - n, n)
  }

  ghost function Slot(blocks: seq<Block>, x: nat): Block
    requires |blocks| > 0
  {
    blocks[Ring(x, |blocks|)]
  }

  /** The registers stand for positions in order, less than a lap apart. */
  ghost predicate Shape(s: State) {
    && |s.blocks| >= 2
    && (forall i :: 0 <= i < |s.blocks| ==> s.blocks[i].next == (if i + 1 == |s.blocks| then 0 else i + 1))
    && s.rs <= s.re <= s.ws <= s.we < s.rs + |s.blocks|
    && s.readStart == Ring(s.rs, |s.blocks|) && s.readEnd == Ring(s.re, |s.blocks|)
    && s.writeStart == Ring(s.ws, |s.blocks|) && s.writeEnd == Ring(s.we, |s.blocks|)
    && |s.sent| == s.we
  }

  /** What the place of one writer implies about the indices. */
  ghost predicate WriterOk(s: State, pc: WriterPc)
    requires |s.blocks| >= 2
  {
    match pc
    case WLoaded(_, idx, at) => idx == Ring(at, |s.blocks|) && at <= s.we
    case WChecked(_, idx, at) =>
      idx == Ring(at, |s.blocks|) && at <= s.we < at + |s.blocks| && at + 1 < s.rs + |s.blocks|
    case WFilling(p, idx, at) =>
      && idx == Ring(at, |s.blocks|) && s.ws <= at < s.we && at < |s.sent| && Cut(p) == s.sent[at]
      && !Slot(s.blocks, at).hasBeenWritten
    case WStoring(idx, at) =>
      idx == Ring(at, |s.blocks|) && s.ws <= at < s.we && !Slot(s.blocks, at).hasBeenWritten
    case WTesting(idx, at) => idx == Ring(at, |s.blocks|) && at <= s.ws && s.we <= at + |s.blocks|
    case WMoving(idx, at) =>
      idx == Ring(at, |s.blocks|) && at == s.ws < s.we && !Slot(s.blocks, at).hasBeenWritten
    case _ => true
  }

  ghost predicate ReaderOk(s: State, pc: ReaderPc)
    requires |s.blocks| >= 2
  {
    match pc
    case RLoaded(idx, at) => idx == Ring(at, |s.blocks|) && at <= s.re && s.we < at + |s.blocks|
    case RChecked(idx, at) => idx == Ring(at, |s.blocks|) && at <= s.re && at < s.ws && s.we < at + |s.blocks|
    case RCopying(idx, at) =>
      idx == Ring(at, |s.blocks|) && s.rs <= at < s.re && !Slot(s.blocks, at).hasBeenRead && at !in s.got
    case RStoring(idx, at) =>
      idx == Ring(at, |s.blocks|) && s.rs <= at < s.re && !Slot(s.blocks, at).hasBeenRead
    case RTesting(idx, at) => idx == Ring(at, |s.blocks|) && at <= s.rs && s.we <= at + |s.blocks|
    case RMoving(idx, at) =>
      idx == Ring(at, |s.blocks|) && at == s.rs < s.re && !Slot(s.blocks, at).hasBeenRead
    case _ => true
  }

  ghost predicate WritersOk(s: State)
    requires |s.blocks| >= 2
  {
    forall t :: t in s.writers ==> WriterOk(s, s.writers[t])
  }

  ghost predicate ReadersOk(s: State)
    requires |s.blocks| >= 2
  {
    forall t :: t in s.readers ==> ReaderOk(s, s.readers[t])
  }

  /** The writer owns the block it works on. */
  ghost predicate OwnsW(pc: WriterPc) { pc.WFilling? || pc.WStoring? || pc.WMoving? }

  ghost predicate OwnsR(pc: ReaderPc) { pc.RCopying? || pc.RStoring? || pc.RMoving? }

  ghost predicate BusyW(pc: WriterPc, x: nat) { OwnsW(pc) && pc.at == x }

  ghost predicate BusyR(pc: ReaderPc, x: nat) { OwnsR(pc) && pc.at == x }

  ghost predicate FillingAt(pc: WriterPc, x: nat) { pc.WFilling? && pc.at == x }

  ghost predicate CopyingAt(pc: ReaderPc, x: nat) { pc.RCopying? && pc.at == x }

  /** No two writers work on one position. */
  ghost predicate ExclusiveW(w: map<int, WriterPc>) {
    forall t, u :: t in w && u in w && OwnsW(w[t]) && OwnsW(w[u]) && w[t].at == w[u].at ==> t == u
  }

  /** No two readers work on one position. */
  ghost predicate ExclusiveR(r: map<int, ReaderPc>) {
    forall t, u :: t in r && u in r && OwnsR(r[t]) && OwnsR(r[u]) && r[t].at == r[u].at ==> t == u
  }

  ghost predicate SomeBusyW(w: map<int, WriterPc>, x: nat) { exists t :: t in w && BusyW(w[t], x) }

  ghost predicate SomeBusyR(r: map<int, ReaderPc>, x: nat) { exists t :: t in r && BusyR(r[t], x) }

  ghost predicate SomeFilling(w: map<int, WriterPc>, x: nat) { exists t :: t in w && FillingAt(w[t], x) }

  ghost predicate SomeCopying(r: map<int, ReaderPc>, x: nat) { exists t :: t in r && CopyingAt(r[t], x) }

  /** Each position a writer claimed is flagged or still has its thread; no other block is flagged. */
  ghost predicate FlagsW(blocks: seq<Block>, ws: nat, we: nat, w: map<int, WriterPc>)
    requires |blocks| >= 2
  {
    && (forall x :: ws <= x < we ==> Slot(blocks, x).hasBeenWritten || SomeBusyW(w, x))
    && (forall x :: we <= x < ws + |blocks| ==> !Slot(blocks, x).hasBeenWritten)
  }

  ghost predicate FlagsR(blocks: seq<Block>, rs: nat, re: nat, r: map<int, ReaderPc>)
    requires |blocks| >= 2
  {
    && (forall x :: rs <= x < re ==> Slot(blocks, x).hasBeenRead || SomeBusyR(r, x))
    && (forall x :: re <= x < rs + |blocks| ==> !Slot(blocks, x).hasBeenRead)
  }

  /** Blocks hold the packets in claim order, except where a writer is still filling. */
  ghost predicate Contents(blocks: seq<Block>, rs: nat, sent: seq<Packet>, w: map<int, WriterPc>)
    requires |blocks| >= 2
  {
    forall x :: rs <= x < |sent| ==> Slot(blocks, x).content == sent[x] || SomeFilling(w, x)
  }

  /** Every claimed read has handed out its packet or is about to. */
  ghost predicate HandedOut(got: map<nat, Packet>, re: nat, sent: seq<Packet>, r: map<int, ReaderPc>) {
    && (forall x :: x in got ==> x < re && x < |sent| && got[x] == sent[x])
    && (forall x :: 0 <= x < re ==> x in got || SomeCopying(r, x))
  }

  ghost predicate HelperW(pc: WriterPc, ws: nat) { pc.WHelping? || (pc.WTesting? && pc.at == ws) }

  ghost predicate HelperR(pc: ReaderPc, rs: nat) { pc.RHelping? || (pc.RTesting? && pc.at == rs) }

  ghost predicate SomeHelperW(w: map<int, WriterPc>, ws: nat) { exists t :: t in w && HelperW(w[t], ws) }

  ghost predicate SomeHelperR(r: map<int, ReaderPc>, rs: nat) { exists t :: t in r && HelperR(r[t], rs) }

  /** A flag at the frontier is never left behind. */
  ghost predicate HelpingW(blocks: seq<Block>, ws: nat, we: nat, w: map<int, WriterPc>)
    requires |blocks| >= 2
  {
    ws < we && Slot(blocks, ws).hasBeenWritten ==> SomeHelperW(w, ws)
  }

  ghost predicate HelpingR(blocks: seq<Block>, rs: nat, re: nat, r: map<int, ReaderPc>)
    requires |blocks| >= 2
  {
    rs < re && Slot(blocks, rs).hasBeenRead ==> SomeHelperR(r, rs)
  }

  ghost predicate YetToPost(pc: WriterPc) {
    pc.WFilling? || pc.WStoring? || pc.WHelping? || pc.WTesting? || pc.WMoving? || pc.WPosting?
  }

  ghost predicate SomeYetToPost(w: map<int, WriterPc>) { exists t :: t in w && YetToPost(w[t]) }

  ghost predicate SomeAwake(r: map<int, ReaderPc>) { exists t :: t in r && !r[t].RWaiting? }

  /** A readable block always has a token, a writer that will post, or a reader that is awake. */
  ghost predicate Wakeup(s: State) {
    s.re < s.ws ==> s.semaphore > 0 || SomeYetToPost(s.writers) || SomeAwake(s.readers)
  }

  ghost predicate Inv(s: State) {
    && Shape(s)
    && WritersOk(s) && ReadersOk(s)
    && ExclusiveW(s.writers) && ExclusiveR(s.readers)
    && FlagsW(s.blocks, s.ws, s.we, s.writers) && FlagsR(s.blocks, s.rs, s.re, s.readers)
    && Contents(s.blocks, s.rs, s.sent, s.writers)
    && HandedOut(s.got, s.re, s.sent, s.readers)
    && HelpingW(s.blocks, s.ws, s.we, s.writers) && HelpingR(s.blocks, s.rs, s.re, s.readers)
    && Wakeup(s)
  }

  // ----- Ring arithmetic

  lemma {:induction false} RingUnique(x: nat, y: nat, n: nat)
    requires 0 < n && x <= y < x + n && Ring(x, n) == Ring(y, n)
    ensures x == y
  {
    if x >= n { RingUnique(x - n, y - n, n); }
  }

  lemma {:induction false} LatestUses(x: nat, we: nat, n: nat)
    requires 0 < n && x <= we
    ensures Ring(Latest(x, we, n), n) == Ring(x, n) && x <= Latest(x, we, n) <= we < Latest(x, we, n) + n
    decreases we - x
  {
    if x + n <= we { LatestUses(x + n, we, n); }
  }

  lemma {:induction false} RingNext(x: nat, n: nat)
    requires 0 < n
    ensures Ring(x + 1, n) == if Ring(x, n) + 1 == n then 0 else Ring(x, n) + 1
  {
    if x >= n { RingNext(x - n, n); }
  }

  /** Changing the block of one position leaves the blocks of the positions around it alone. */
  lemma SlotUpdate(blocks: seq<Block>, at: nat, b: Block)
    requires |blocks| >= 2
    ensures var blocks' := blocks[Ring(at, |blocks|) := b];
            && Slot(blocks', at) == b
            && forall y: nat :: y != at && at < y + |blocks| && y < at + |blocks| ==> Slot(blocks', y) == Slot(blocks, y)
  {
    var blocks' := blocks[Ring(at, |blocks|) := b];
    forall y: nat | y != at && at < y + |blocks| && y < at + |blocks|
      ensures Slot(blocks', y) == Slot(blocks, y)
    {
      if Ring(y, |blocks|) == Ring(at, |blocks|) {
        if y < at { RingUnique(y, at, |blocks|); } else { RingUnique(at, y, |blocks|); }
      }
    }
  }

  // ----- What the move of one thread leaves in place

  lemma FrameW(w: map<int, WriterPc>, t: int, pc: WriterPc, ws: nat)
    requires t in w
    ensures var w' := w[t := pc];
            && (forall x :: SomeBusyW(w, x) && (BusyW(w[t], x) ==> BusyW(pc, x)) ==> SomeBusyW(w', x))
            && (forall x :: BusyW(pc, x) ==> SomeBusyW(w', x))
            && (forall x :: SomeFilling(w, x) && (FillingAt(w[t], x) ==> FillingAt(pc, x)) ==> SomeFilling(w', x))
            && (forall x :: FillingAt(pc, x) ==> SomeFilling(w', x))
            && (SomeYetToPost(w) && (YetToPost(w[t]) ==> YetToPost(pc)) ==> SomeYetToPost(w'))
            && (YetToPost(pc) ==> SomeYetToPost(w'))
            && (SomeHelperW(w, ws) && (HelperW(w[t], ws) ==> HelperW(pc, ws)) ==> SomeHelperW(w', ws))
            && (HelperW(pc, ws) ==> SomeHelperW(w', ws))
  {
    var w' := w[t := pc];
    forall u | u in w ensures u in w' && (u != t ==> w'[u] == w[u]) {}
    assert w'[t] == pc;
  }

  lemma FrameR(r: map<int, ReaderPc>, t: int, pc: ReaderPc, rs: nat)
    requires t in r
    ensures var r' := r[t := pc];
            && (forall x :: SomeBusyR(r, x) && (BusyR(r[t], x) ==> BusyR(pc, x)) ==> SomeBusyR(r', x))
            && (forall x :: BusyR(pc, x) ==> SomeBusyR(r', x))
            && (forall x :: SomeCopying(r, x) && (CopyingAt(r[t], x) ==> CopyingAt(pc, x)) ==> SomeCopying(r', x))
            && (forall x :: CopyingAt(pc, x) ==> SomeCopying(r', x))
            && (SomeAwake(r) && (!r[t].RWaiting? ==> !pc.RWaiting?) ==> SomeAwake(r'))
            && (!pc.RWaiting? ==> SomeAwake(r'))
            && (SomeHelperR(r, rs) && (HelperR(r[t], rs) ==> HelperR(pc, rs)) ==> SomeHelperR(r', rs))
            && (HelperR(pc, rs) ==> SomeHelperR(r', rs))
  {
    var r' := r[t := pc];
    forall u | u in r ensures u in r' && (u != t ==> r'[u] == r[u]) {}
    assert r'[t] == pc;
  }

  lemma HandedOutKept(got: map<nat, Packet>, re: nat, sent: seq<Packet>, r: map<int, ReaderPc>, t: int, pc: ReaderPc)
    requires t in r && !r[t].RCopying? && HandedOut(got, re, sent, r)
    ensures HandedOut(got, re, sent, r[t := pc])
  {
    FrameR(r, t, pc, 0);
  }

  lemma ContentsKept(blocks: seq<Block>, rs: nat, sent: seq<Packet>, w: map<int, WriterPc>, t: int, pc: WriterPc)
    requires |blocks| >= 2 && t in w && !w[t].WFilling? && Contents(blocks, rs, sent, w)
    ensures Contents(blocks, rs, sent, w[t := pc])
  {
    FrameW(w, t, pc, 0);
  }

  lemma ExclusiveKeptW(w: map<int, WriterPc>, t: int, pc: WriterPc)
    requires t in w && ExclusiveW(w)
    requires OwnsW(pc) ==> forall u :: u in w && u != t ==> !BusyW(w[u], pc.at)
    ensures ExclusiveW(w[t := pc])
  {
  }

  lemma ExclusiveKeptR(r: map<int, ReaderPc>, t: int, pc: ReaderPc)
    requires t in r && ExclusiveR(r)
    requires OwnsR(pc) ==> forall u :: u in r && u != t ==> !BusyR(r[u], pc.at)
    ensures ExclusiveR(r[t := pc])
  {
  }

  /** A writer's step that touches only its own place. */
  lemma PlaceW(s: State, t: int, pc: WriterPc)
    requires Inv(s) && t in s.writers && WriterOk(s, pc)
    requires !OwnsW(s.writers[t]) && !OwnsW(pc)
    requires YetToPost(s.writers[t]) ==> YetToPost(pc)
    requires s.ws < s.we && Slot(s.blocks, s.ws).hasBeenWritten && HelperW(s.writers[t], s.ws) ==> HelperW(pc, s.ws)
    ensures Inv(SetW(s, t, pc))
  {
    hide Ring;
    var s' := SetW(s, t, pc);
    assert WritersOk(s') by {
      forall u | u in s'.writers ensures WriterOk(s', s'.writers[u]) { assert u == t || WriterOk(s, s.writers[u]); }
    }
    assert ReadersOk(s') by {
      forall u | u in s'.readers ensures ReaderOk(s', s'.readers[u]) { assert ReaderOk(s, s.readers[u]); }
    }
    ExclusiveKeptW(s.writers, t, pc);
    FrameW(s.writers, t, pc, s.ws);
  }

  /** A reader's step that touches only its own place. */
  lemma PlaceR(s: State, t: int, pc: ReaderPc)
    requires Inv(s) && t in s.readers && ReaderOk(s, pc)
    requires !OwnsR(s.readers[t]) && !OwnsR(pc)
    requires s.re < s.ws ==> !pc.RWaiting?
    requires s.rs < s.re && Slot(s.blocks, s.rs).hasBeenRead && HelperR(s.readers[t], s.rs) ==> HelperR(pc, s.rs)
    ensures Inv(SetR(s, t, pc))
  {
    hide Ring, FlagsW;
    var s' := SetR(s, t, pc);
    assert WritersOk(s') by {
      forall u | u in s'.writers ensures WriterOk(s', s'.writers[u]) { assert WriterOk(s, s.writers[u]); }
    }
    assert ReadersOk(s') by {
      forall u | u in s'.readers ensures ReaderOk(s', s'.readers[u]) { assert u == t || ReaderOk(s, s.readers[u]); }
    }
    ExclusiveKeptR(s.readers, t, pc);
    FrameR(s.readers, t, pc, s.rs);
  }

  /** Setting the block of a position claimed by t, for the predicates about writers' flags. */
  lemma FlagsBlockW(blocks: seq<Block>, ws: nat, we: nat, w: map<int, WriterPc>, t: int, pc: WriterPc, at: nat, b: Block)
    requires |blocks| >= 2 && t in w && ws <= at < we <= ws + |blocks|
    requires FlagsW(blocks, ws, we, w) && HelpingW(blocks, ws, we, w)
    requires OwnsW(w[t]) ==> w[t].at == at
    requires b.hasBeenWritten || BusyW(pc, at)
    requires HelperW(w[t], ws) ==> at == ws
    requires at == ws && b.hasBeenWritten ==> HelperW(pc, ws)
    ensures FlagsW(blocks[Ring(at, |blocks|) := b], ws, we, w[t := pc])
    ensures HelpingW(blocks[Ring(at, |blocks|) := b], ws, we, w[t := pc])
  {
    FrameW(w, t, pc, ws);
    SlotUpdate(blocks, at, b);
  }

  lemma FlagsBlockR(blocks: seq<Block>, rs: nat, re: nat, r: map<int, ReaderPc>, t: int, pc: ReaderPc, at: nat, b: Block)
    requires |blocks| >= 2 && t in r && rs <= at < re <= rs + |blocks|
    requires FlagsR(blocks, rs, re, r) && HelpingR(blocks, rs, re, r)
    requires OwnsR(r[t]) ==> r[t].at == at
    requires b.hasBeenRead || BusyR(pc, at)
    requires HelperR(r[t], rs) ==> at == rs
    requires at == rs && b.hasBeenRead ==> HelperR(pc, rs)
    ensures FlagsR(blocks[Ring(at, |blocks|) := b], rs, re, r[t := pc])
    ensures HelpingR(blocks[Ring(at, |blocks|) := b], rs, re, r[t := pc])
  {
    FrameR(r, t, pc, rs);
    SlotUpdate(blocks, at, b);
  }

  /** The writers' flags and the contents do not see a read flag change. */
  lemma ReadFlagOnly(s: State, i: nat, b: Block)
    requires |s.blocks| >= 2 && i < |s.blocks| && b == s.blocks[i].(hasBeenRead := b.hasBeenRead)
    requires WritersOk(s) && FlagsW(s.blocks, s.ws, s.we, s.writers) && HelpingW(s.blocks, s.ws, s.we, s.writers)
    requires Contents(s.blocks, s.rs, s.sent, s.writers)
    ensures var s' := SetBlock(s, i, b);
            && WritersOk(s') && FlagsW(s'.blocks, s.ws, s.we, s.writers) && HelpingW(s'.blocks, s.ws, s.we, s.writers)
            && Contents(s'.blocks, s.rs, s.sent, s.writers)
  {
    var s' := SetBlock(s, i, b);
    forall x: nat ensures Slot(s'.blocks, x).hasBeenWritten == Slot(s.blocks, x).hasBeenWritten
                       && Slot(s'.blocks, x).content == Slot(s.blocks, x).content {}
    forall u | u in s.writers ensures WriterOk(s', s.writers[u]) { assert WriterOk(s, s.writers[u]); }
  }

  /** The readers' flags do not see a written flag or a content change. */
  lemma ReadFlagKept(s: State, i: nat, b: Block)
    requires |s.blocks| >= 2 && i < |s.blocks| && b.hasBeenRead == s.blocks[i].hasBeenRead
    requires ReadersOk(s) && FlagsR(s.blocks, s.rs, s.re, s.readers) && HelpingR(s.blocks, s.rs, s.re, s.readers)
    ensures var s' := SetBlock(s, i, b);
            ReadersOk(s') && FlagsR(s'.blocks, s.rs, s.re, s.readers) && HelpingR(s'.blocks, s.rs, s.re, s.readers)
  {
    var s' := SetBlock(s, i, b);
    forall x: nat ensures Slot(s'.blocks, x).hasBeenRead == Slot(s.blocks, x).hasBeenRead {}
    forall u | u in s.readers ensures ReaderOk(s', s.readers[u]) { assert ReaderOk(s, s.readers[u]); }
  }

  lemma WritersBlock(s: State, s': State, t: int, at: nat, b: Block)
    requires |s.blocks| >= 2 && WritersOk(s) && t in s.writers && t in s'.writers && |s'.blocks| >= 2 && WriterOk(s', s'.writers[t])
    requires s.we <= s.ws + |s.blocks| && s.ws <= at < s.we
    requires s' == s.(writers := s.writers[t := s'.writers[t]], blocks := s.blocks[Ring(at, |s.blocks|) := b])
    requires forall u :: u in s.writers && u != t ==> !BusyW(s.writers[u], at)
    ensures WritersOk(s')
  {
    SlotUpdate(s.blocks, at, b);
    forall u | u in s'.writers ensures WriterOk(s', s'.writers[u]) {
      assert u == t || (WriterOk(s, s.writers[u]) && !BusyW(s.writers[u], at));
    }
  }

  lemma ReadersBlock(s: State, s': State, t: int, at: nat, b: Block)
    requires |s.blocks| >= 2 && ReadersOk(s) && t in s.readers && t in s'.readers && |s'.blocks| >= 2 && ReaderOk(s', s'.readers[t])
    requires s.re <= s.rs + |s.blocks| && s.rs <= at < s.re
    requires s' == s.(readers := s.readers[t := s'.readers[t]], blocks := s.blocks[Ring(at, |s.blocks|) := b])
    requires forall u :: u in s.readers && u != t ==> !BusyR(s.readers[u], at)
    ensures ReadersOk(s')
  {
    SlotUpdate(s.blocks, at, b);
    forall u | u in s'.readers ensures ReaderOk(s', s'.readers[u]) {
      assert u == t || (ReaderOk(s, s.readers[u]) && !BusyR(s.readers[u], at));
    }
  }

  lemma ContentsBlock(blocks: seq<Block>, rs: nat, sent: seq<Packet>, w: map<int, WriterPc>, t: int, pc: WriterPc, at: nat, b: Block)
    requires |blocks| >= 2 && t in w && rs <= at < |sent| < rs + |blocks| && Contents(blocks, rs, sent, w)
    requires OwnsW(w[t]) ==> w[t].at == at
    requires b.content == sent[at] || FillingAt(pc, at)
    ensures Contents(blocks[Ring(at, |blocks|) := b], rs, sent, w[t := pc])
  {
    FrameW(w, t, pc, 0);
    SlotUpdate(blocks, at, b);
  }

  /** A writer's step on the block of a claimed position. */
  lemma BlockW(s: State, t: int, pc: WriterPc, at: nat, b: Block)
    requires Inv(s) && t in s.writers && s.ws <= at < s.we
    requires YetToPost(pc)
    requires forall u :: u in s.writers && u != t ==> !BusyW(s.writers[u], at)
    requires (OwnsW(s.writers[t]) ==> s.writers[t].at == at) && (OwnsW(pc) ==> pc.at == at)
    requires b.next == Slot(s.blocks, at).next && b.hasBeenRead == Slot(s.blocks, at).hasBeenRead
    requires b.content == s.sent[at] || FillingAt(pc, at)
    requires b.hasBeenWritten || BusyW(pc, at)
    requires HelperW(s.writers[t], s.ws) ==> at == s.ws
    requires at == s.ws && b.hasBeenWritten ==> HelperW(pc, s.ws)
    requires WriterOk(SetBlock(SetW(s, t, pc), Ring(at, |s.blocks|), b), pc)
    ensures Inv(SetBlock(SetW(s, t, pc), Ring(at, |s.blocks|), b))
  {
    hide Ring, FlagsR, Contents;
    var i := Ring(at, |s.blocks|);
    var s' := SetBlock(SetW(s, t, pc), i, b);
    ReadFlagKept(s, i, b);
    assert ReadersOk(s') by {
      forall u | u in s.readers ensures ReaderOk(s', s.readers[u]) { assert ReaderOk(SetBlock(s, i, b), s.readers[u]); }
    }
    WritersBlock(s, s', t, at, b);
    ExclusiveKeptW(s.writers, t, pc);
    FlagsBlockW(s.blocks, s.ws, s.we, s.writers, t, pc, at, b);
    ContentsBlock(s.blocks, s.rs, s.sent, s.writers, t, pc, at, b);
    assert Wakeup(s') by { FrameW(s.writers, t, pc, s.ws); }
  }

  /** A reader's step on the block of a claimed position. */
  lemma BlockR(s: State, t: int, pc: ReaderPc, at: nat, b: Block)
    requires Inv(s) && t in s.readers && s.rs <= at < s.re
    requires !pc.RWaiting? && !pc.RCopying? && !s.readers[t].RCopying?
    requires forall u :: u in s.readers && u != t ==> !BusyR(s.readers[u], at)
    requires (OwnsR(s.readers[t]) ==> s.readers[t].at == at) && (OwnsR(pc) ==> pc.at == at)
    requires b == Slot(s.blocks, at).(hasBeenRead := b.hasBeenRead)
    requires b.hasBeenRead || BusyR(pc, at)
    requires HelperR(s.readers[t], s.rs) ==> at == s.rs
    requires at == s.rs && b.hasBeenRead ==> HelperR(pc, s.rs)
    requires ReaderOk(SetBlock(SetR(s, t, pc), Ring(at, |s.blocks|), b), pc)
    ensures Inv(SetBlock(SetR(s, t, pc), Ring(at, |s.blocks|), b))
  {
    hide Ring, Contents, ExclusiveW, HelpingW, FlagsR, ReadersOk;
    var i := Ring(at, |s.blocks|);
    var s' := SetBlock(SetR(s, t, pc), i, b);
    ReadFlagOnly(s, i, b);
    assert WritersOk(s') by {
      forall u | u in s.writers ensures WriterOk(s', s.writers[u]) { assert WriterOk(SetBlock(s, i, b), s.writers[u]); }
    }
    ReadersBlock(s, s', t, at, b);
    ExclusiveKeptR(s.readers, t, pc);
    FlagsBlockR(s.blocks, s.rs, s.re, s.readers, t, pc, at, b);
    assert Wakeup(s') && HandedOut(s'.got, s'.re, s'.sent, s'.readers) by { FrameR(s.readers, t, pc, s.rs); }
  }

  /** Claiming the next position, for the predicates about writers. */
  lemma ClaimFlagsW(blocks: seq<Block>, ws: nat, we: nat, w: map<int, WriterPc>, t: int, pc: WriterPc)
    requires |blocks| >= 2 && t in w && ws <= we < ws + |blocks|
    requires FlagsW(blocks, ws, we, w) && HelpingW(blocks, ws, we, w) && ExclusiveW(w)
    requires !OwnsW(w[t]) && !HelperW(w[t], ws) && BusyW(pc, we)
    requires forall u :: u in w && OwnsW(w[u]) ==> w[u].at < we
    ensures FlagsW(blocks, ws, we + 1, w[t := pc]) && HelpingW(blocks, ws, we + 1, w[t := pc]) && ExclusiveW(w[t := pc])
  {
    FrameW(w, t, pc, ws);
    ExclusiveKeptW(w, t, pc);
  }

  /** Moving the frontier over a position whose flag was cleared. */
  lemma MoveFlagsW(blocks: seq<Block>, ws: nat, we: nat, w: map<int, WriterPc>, t: int)
    requires |blocks| >= 2 && t in w && ws < we <= ws + |blocks| && w[t].WMoving? && w[t].at == ws
    requires FlagsW(blocks, ws, we, w) && ExclusiveW(w) && !Slot(blocks, ws).hasBeenWritten
    ensures FlagsW(blocks, ws + 1, we, w[t := WHelping]) && HelpingW(blocks, ws + 1, we, w[t := WHelping])
    ensures ExclusiveW(w[t := WHelping])
  {
    FrameW(w, t, WHelping, ws + 1);
    ExclusiveKeptW(w, t, WHelping);
    assert Slot(blocks, ws + |blocks|) == Slot(blocks, ws);
  }

  /** Claiming the next position, for the predicates about readers. */
  lemma ClaimFlagsR(blocks: seq<Block>, rs: nat, re: nat, r: map<int, ReaderPc>, t: int, pc: ReaderPc)
    requires |blocks| >= 2 && t in r && rs <= re < rs + |blocks|
    requires FlagsR(blocks, rs, re, r) && HelpingR(blocks, rs, re, r) && ExclusiveR(r)
    requires !OwnsR(r[t]) && !HelperR(r[t], rs) && BusyR(pc, re)
    requires forall u :: u in r && OwnsR(r[u]) ==> r[u].at < re
    ensures FlagsR(blocks, rs, re + 1, r[t := pc]) && HelpingR(blocks, rs, re + 1, r[t := pc]) && ExclusiveR(r[t := pc])
  {
    FrameR(r, t, pc, rs);
    ExclusiveKeptR(r, t, pc);
  }

  /** Moving the frontier over a position whose flag was cleared. */
  lemma MoveFlagsR(blocks: seq<Block>, rs: nat, re: nat, r: map<int, ReaderPc>, t: int)
    requires |blocks| >= 2 && t in r && rs < re <= rs + |blocks| && r[t].RMoving? && r[t].at == rs
    requires FlagsR(blocks, rs, re, r) && ExclusiveR(r) && !Slot(blocks, rs).hasBeenRead
    ensures FlagsR(blocks, rs + 1, re, r[t := RHelping]) && HelpingR(blocks, rs + 1, re, r[t := RHelping])
    ensures ExclusiveR(r[t := RHelping])
  {
    FrameR(r, t, RHelping, rs + 1);
    ExclusiveKeptR(r, t, RHelping);
    assert Slot(blocks, rs + |blocks|) == Slot(blocks, rs);
  }

  lemma ClaimWThreads(s: State, t: int, p: Packet, next: nat)
    requires Shape(s) && WritersOk(s) && ReadersOk(s) && t in s.writers
    requires s.we + 1 < s.rs + |s.blocks| && NoLap(s) && FlagsW(s.blocks, s.ws, s.we, s.writers)
    ensures var s' := SetW(s, t, WFilling(p, s.writeEnd, s.we)).(writeEnd := next, we := s.we + 1, sent := s.sent + [Cut(p)]);
            WritersOk(s') && ReadersOk(s')
  {
  }

  /** A writer claims the next position. */
  lemma ClaimW(s: State, t: int, p: Packet, next: nat)
    requires Inv(s) && t in s.writers && NoLap(s) && !OwnsW(s.writers[t]) && !HelperW(s.writers[t], s.ws)
    requires s.we + 1 < s.rs + |s.blocks| && next == Ring(s.we + 1, |s.blocks|)
    ensures Inv(SetW(s, t, WFilling(p, s.writeEnd, s.we)).(writeEnd := next, we := s.we + 1, sent := s.sent + [Cut(p)]))
  {
    hide Ring, FlagsW, FlagsR, HelpingW, HelpingR, ExclusiveW, ReadersOk;
    var pc := WFilling(p, s.writeEnd, s.we);
    var s' := SetW(s, t, pc).(writeEnd := next, we := s.we + 1, sent := s.sent + [Cut(p)]);
    ClaimWThreads(s, t, p, next);
    forall u | u in s.writers ensures OwnsW(s.writers[u]) ==> s.writers[u].at < s.we { assert WriterOk(s, s.writers[u]); }
    ClaimFlagsW(s.blocks, s.ws, s.we, s.writers, t, pc);
    assert Contents(s'.blocks, s'.rs, s'.sent, s'.writers) && Wakeup(s') by { FrameW(s.writers, t, pc, s.ws); }
  }

  lemma MoveWThreads(s: State, t: int, next: nat)
    requires Shape(s) && WritersOk(s) && ReadersOk(s) && t in s.writers
    requires ExclusiveW(s.writers) && s.writers[t].WMoving?
    ensures var s' := SetW(s, t, WHelping).(writeStart := next, ws := s.ws + 1);
            WritersOk(s') && ReadersOk(s')
  {
  }

  /** The writer that cleared the flag at the frontier moves the frontier. */
  lemma MoveW(s: State, t: int, next: nat)
    requires Inv(s) && t in s.writers && s.writers[t].WMoving? && next == Ring(s.ws + 1, |s.blocks|)
    ensures Inv(SetW(s, t, WHelping).(writeStart := next, ws := s.ws + 1))
  {
    hide Ring;
    var s' := SetW(s, t, WHelping).(writeStart := next, ws := s.ws + 1);
    assert s.ws < s.we && !Slot(s.blocks, s.ws).hasBeenWritten && s.writers[t].at == s.ws by { assert WriterOk(s, s.writers[t]); }
    MoveFlagsW(s.blocks, s.ws, s.we, s.writers, t);
    MoveWThreads(s, t, next);
    ContentsKept(s.blocks, s.rs, s.sent, s.writers, t, WHelping);
    assert s'.writers[t].WHelping?;
  }

  lemma PostW(s: State, t: int)
    requires Inv(s) && t in s.writers && s.writers[t].WPosting?
    ensures Inv(SetW(s, t, WIdle).(semaphore := s.semaphore + 1))
  {
    hide Ring;
    var s' := SetW(s, t, WIdle).(semaphore := s.semaphore + 1);
    assert WritersOk(s') by {
      forall u | u in s'.writers ensures WriterOk(s', s'.writers[u]) { assert u == t || WriterOk(s, s.writers[u]); }
    }
    assert ReadersOk(s') by {
      forall u | u in s'.readers ensures ReaderOk(s', s'.readers[u]) { assert ReaderOk(s, s.readers[u]); }
    }
    ExclusiveKeptW(s.writers, t, WIdle);
    FrameW(s.writers, t, WIdle, s.ws);
  }

  lemma WakeR(s: State, t: int)
    requires Inv(s) && t in s.readers && s.readers[t].RWaiting? && s.semaphore > 0
    ensures Inv(SetR(s, t, RTop).(semaphore := s.semaphore - 1))
  {
    hide Ring, FlagsW, Contents;
    var s' := SetR(s, t, RTop).(semaphore := s.semaphore - 1);
    assert WritersOk(s') by {
      forall u | u in s'.writers ensures WriterOk(s', s'.writers[u]) { assert WriterOk(s, s.writers[u]); }
    }
    assert ReadersOk(s') by {
      forall u | u in s'.readers ensures ReaderOk(s', s'.readers[u]) { assert u == t || ReaderOk(s, s.readers[u]); }
    }
    ExclusiveKeptR(s.readers, t, RTop);
    FrameR(s.readers, t, RTop, s.rs);
  }

  lemma ClaimRThreads(s: State, t: int, next: nat)
    requires Shape(s) && WritersOk(s) && ReadersOk(s) && t in s.readers
    requires s.re < s.ws && HandedOut(s.got, s.re, s.sent, s.readers) && FlagsR(s.blocks, s.rs, s.re, s.readers)
    ensures var s' := SetR(s, t, RCopying(s.readEnd, s.re)).(readEnd := next, re := s.re + 1);
            WritersOk(s') && ReadersOk(s')
  {
  }

  /** A reader claims the next written position. */
  lemma ClaimR(s: State, t: int, next: nat)
    requires Inv(s) && t in s.readers && !OwnsR(s.readers[t]) && !HelperR(s.readers[t], s.rs)
    requires s.re < s.ws && next == Ring(s.re + 1, |s.blocks|)
    ensures Inv(SetR(s, t, RCopying(s.readEnd, s.re)).(readEnd := next, re := s.re + 1))
  {
    hide Ring, FlagsW, HelpingR, ExclusiveW;
    var pc := RCopying(s.readEnd, s.re);
    var s' := SetR(s, t, pc).(readEnd := next, re := s.re + 1);
    ClaimRThreads(s, t, next);
    forall u | u in s.readers ensures OwnsR(s.readers[u]) ==> s.readers[u].at < s.re { assert ReaderOk(s, s.readers[u]); }
    ClaimFlagsR(s.blocks, s.rs, s.re, s.readers, t, pc);
    assert HandedOut(s'.got, s'.re, s'.sent, s'.readers) && Wakeup(s') by { FrameR(s.readers, t, pc, s.rs); }
  }

  lemma CopyRThreads(s: State, t: int, packet: Packet)
    requires Shape(s) && WritersOk(s) && ReadersOk(s) && t in s.readers
    requires ExclusiveR(s.readers) && s.readers[t].RCopying?
    ensures var s' := SetR(s, t, RStoring(s.readers[t].idx, s.readers[t].at)).(
                got := s.got[s.readers[t].at := packet], returned := s.returned + [packet]);
            WritersOk(s') && ReadersOk(s')
  {
  }

  lemma CopyRFlags(s: State, t: int)
    requires Inv(s) && t in s.readers && s.readers[t].RCopying?
    ensures var r' := s.readers[t := RStoring(s.readers[t].idx, s.readers[t].at)];
            FlagsR(s.blocks, s.rs, s.re, r') && HelpingR(s.blocks, s.rs, s.re, r')
  {
    hide Ring, FlagsW, HelpingW, ExclusiveW, WritersOk, HandedOut, Contents;
    FrameR(s.readers, t, RStoring(s.readers[t].idx, s.readers[t].at), s.rs);
  }

  /** A reader copies the packet out: it is the packet sent at that position, handed out once. */
  lemma CopyR(s: State, t: int, packet: Packet)
    requires Inv(s) && t in s.readers && s.readers[t].RCopying? && packet == Slot(s.blocks, s.readers[t].at).content
    ensures s.readers[t].at < s.we && packet == s.sent[s.readers[t].at] && s.readers[t].at !in s.got
    ensures Inv(SetR(s, t, RStoring(s.readers[t].idx, s.readers[t].at)).(
                  got := s.got[s.readers[t].at := packet], returned := s.returned + [packet]))
  {
    hide Ring, FlagsW, FlagsR, HelpingW, HelpingR, ExclusiveW;
    CopyRFlags(s, t);
    var was := s.readers[t];
    assert ReaderOk(s, was);
    var pc := RStoring(was.idx, was.at);
    var s' := SetR(s, t, pc).(got := s.got[was.at := packet], returned := s.returned + [packet]);
    forall u | u in s.writers ensures !FillingAt(s.writers[u], was.at) { assert WriterOk(s, s.writers[u]); }
    CopyRThreads(s, t, packet);
    ExclusiveKeptR(s.readers, t, pc);
    FrameR(s.readers, t, pc, s.rs);
  }

  lemma MoveRThreads(s: State, t: int, next: nat)
    requires Shape(s) && WritersOk(s) && ReadersOk(s) && t in s.readers
    requires ExclusiveR(s.readers) && s.readers[t].RMoving?
    ensures var s' := SetR(s, t, RHelping).(readStart := next, rs := s.rs + 1);
            WritersOk(s') && ReadersOk(s')
  {
  }

  lemma MoveR(s: State, t: int, next: nat)
    requires Inv(s) && t in s.readers && s.readers[t].RMoving? && next == Ring(s.rs + 1, |s.blocks|)
    ensures Inv(SetR(s, t, RHelping).(readStart := next, rs := s.rs + 1))
  {
    hide Ring;
    var s' := SetR(s, t, RHelping).(readStart := next, rs := s.rs + 1);
    assert s.rs < s.re && !Slot(s.blocks, s.rs).hasBeenRead && s.readers[t].at == s.rs by { assert ReaderOk(s, s.readers[t]); }
    MoveFlagsR(s.blocks, s.rs, s.re, s.readers, t);
    MoveRThreads(s, t, next);
    HandedOutKept(s.got, s.re, s.sent, s.readers, t, RHelping);
    assert s'.readers[t].RHelping?;
  }

  // ----- Every step keeps the invariant

  lemma StepPlaceW(s: State, step: Step)
    requires Inv(s) && (step.WCall? || step.WLoadEnd? || step.WTimeout? || step.WClaimFail? || step.WLoadStart?) && Allowed(s, step)
    ensures Inv(Apply(s, step))
  {
    assert WriterOk(s, s.writers[step.t]);
    PlaceW(s, step.t, Apply(s, step).writers[step.t]);
  }

  lemma StepWCheck(s: State, step: Step)
    requires Inv(s) && step.WCheck? && Allowed(s, step)
    ensures Inv(Apply(s, step))
  {
    hide FlagsW, HelpingR;
    var pc := s.writers[step.t];
    assert WriterOk(s, pc);
    LatestUses(pc.at, s.we, |s.blocks|);
    hide Latest;
    RingNext(Latest(pc.at, s.we, |s.blocks|), |s.blocks|);
    PlaceW(s, step.t, Apply(s, step).writers[step.t]);
  }

  lemma StepWClaim(s: State, step: Step)
    requires Inv(s) && step.WClaim? && Allowed(s, step)
    ensures Inv(Apply(s, step))
  {
    hide FlagsW, ExclusiveR, Ring;
    var pc := s.writers[step.t];
    assert pc.at == s.we && s.we + 1 < s.rs + |s.blocks| by { assert WriterOk(s, pc); RingUnique(pc.at, s.we, |s.blocks|); }
    RingNext(s.we, |s.blocks|);
    ClaimW(s, step.t, pc.p, s.blocks[pc.idx].next);
  }

  lemma StepWScribble(s: State, step: Step)
    requires Inv(s) && step.WScribble? && Allowed(s, step)
    ensures Inv(Apply(s, step))
  {
    var pc, s' := s.writers[step.t], Apply(s, step);
    assert WriterOk(s, pc);
    assert BusyW(pc, pc.at);
    SlotUpdate(s.blocks, pc.at, s'.blocks[pc.idx]);
    BlockW(s, step.t, s'.writers[step.t], pc.at, s'.blocks[pc.idx]);
    assert s'.writers == s.writers[step.t := pc];
    assert s' == SetBlock(SetW(s, step.t, pc), pc.idx, s'.blocks[pc.idx]);
  }

  lemma StepBlockW(s: State, step: Step)
    requires Inv(s) && (step.WFill? || step.WStore?) && Allowed(s, step)
    ensures Inv(Apply(s, step))
  {
    hide FlagsR, HelpingW, HelpingR, Wakeup, Ring;
    var pc, s' := s.writers[step.t], Apply(s, step);
    assert WriterOk(s, pc);
    assert BusyW(pc, pc.at);
    SlotUpdate(s.blocks, pc.at, s'.blocks[pc.idx]);
    BlockW(s, step.t, s'.writers[step.t], pc.at, s'.blocks[pc.idx]);
  }

  lemma StepWTest(s: State, step: Step)
    requires Inv(s) && step.WTest? && Allowed(s, step)
    ensures Inv(Apply(s, step))
  {
    hide FlagsR, HelpingW;
    var pc, s' := s.writers[step.t], Apply(s, step);
    assert WriterOk(s, pc);
    if !s.blocks[pc.idx].hasBeenWritten {
      PlaceW(s, step.t, s'.writers[step.t]);
    } else {
      assert Slot(s.blocks, pc.at) == Slot(s.blocks, pc.at + |s.blocks|);
      assert pc.at == s.ws < s.we;
      forall u | u in s.writers ensures !BusyW(s.writers[u], pc.at) { assert WriterOk(s, s.writers[u]); }
      SlotUpdate(s.blocks, pc.at, s'.blocks[pc.idx]);
      BlockW(s, step.t, s'.writers[step.t], pc.at, s'.blocks[pc.idx]);
    }
  }

  lemma StepWMove(s: State, step: Step)
    requires Inv(s) && step.WMove? && Allowed(s, step)
    ensures Inv(Apply(s, step))
  {
    var pc := s.writers[step.t];
    assert pc.at == s.ws && pc.idx == s.writeStart by { assert WriterOk(s, pc); }
    var next := s.blocks[pc.idx].next;
    assert next == Ring(s.ws + 1, |s.blocks|) by { RingNext(s.ws, |s.blocks|); }
    assert Apply(s, step) == SetW(s, step.t, WHelping).(writeStart := next, ws := s.ws + 1);
    MoveW(s, step.t, next);
  }

  lemma StepWPost(s: State, step: Step)
    requires Inv(s) && step.WPost? && Allowed(s, step)
    ensures Inv(Apply(s, step))
  {
    hide FlagsW, Shape;
    PostW(s, step.t);
  }

  lemma StepRWake(s: State, step: Step)
    requires Inv(s) && step.RWake? && Allowed(s, step)
    ensures Inv(Apply(s, step))
  {
    WakeR(s, step.t);
  }

  lemma StepPlaceR(s: State, step: Step)
    requires Inv(s) && (step.RLoadEnd? || step.RClaimFail? || step.RLoadStart?) && Allowed(s, step)
    ensures Inv(Apply(s, step))
  {
    hide FlagsW, Contents;
    assert ReaderOk(s, s.readers[step.t]);
    PlaceR(s, step.t, Apply(s, step).readers[step.t]);
  }

  lemma StepRCheck(s: State, step: Step)
    requires Inv(s) && step.RCheck? && Allowed(s, step)
    ensures Inv(Apply(s, step))
  {
    hide FlagsW, FlagsR, HelpingR, ExclusiveW, ExclusiveR, WritersOk, Ring;
    var pc := s.readers[step.t];
    assert ReaderOk(s, pc);
    if pc.idx == s.writeStart { RingUnique(pc.at, s.ws, |s.blocks|); }
    PlaceR(s, step.t, Apply(s, step).readers[step.t]);
  }

  lemma StepRClaim(s: State, step: Step)
    requires Inv(s) && step.RClaim? && Allowed(s, step)
    ensures Inv(Apply(s, step))
  {
    hide FlagsW, HelpingW, HelpingR, ExclusiveW, Ring;
    var pc := s.readers[step.t];
    assert pc.at == s.re < s.ws by { assert ReaderOk(s, pc); RingUnique(pc.at, s.re, |s.blocks|); }
    var next := s.blocks[pc.idx].next;
    assert next == Ring(s.re + 1, |s.blocks|) by { RingNext(s.re, |s.blocks|); }
    assert Apply(s, step) == SetR(s, step.t, RCopying(s.readEnd, s.re)).(readEnd := next, re := s.re + 1);
    ClaimR(s, step.t, next);
  }

  lemma StepRCopy(s: State, step: Step)
    requires Inv(s) && step.RCopy? && Allowed(s, step)
    ensures Inv(Apply(s, step))
  {
    var pc := s.readers[step.t];
    assert ReaderOk(s, pc);
    CopyR(s, step.t, s.blocks[pc.idx].content);
  }

  lemma StepRStore(s: State, step: Step)
    requires Inv(s) && step.RStore? && Allowed(s, step)
    ensures Inv(Apply(s, step))
  {
    var pc, s' := s.readers[step.t], Apply(s, step);
    assert ReaderOk(s, pc);
    assert BusyR(pc, pc.at);
    SlotUpdate(s.blocks, pc.at, s'.blocks[pc.idx]);
    BlockR(s, step.t, s'.readers[step.t], pc.at, s'.blocks[pc.idx]);
  }

  lemma StepRTest(s: State, step: Step)
    requires Inv(s) && step.RTest? && Allowed(s, step)
    ensures Inv(Apply(s, step))
  {
    hide FlagsW, Contents, HelpingR, WritersOk;
    var pc, s' := s.readers[step.t], Apply(s, step);
    assert ReaderOk(s, pc);
    if !s.blocks[pc.idx].hasBeenRead {
      PlaceR(s, step.t, s'.readers[step.t]);
    } else {
      assert Slot(s.blocks, pc.at) == Slot(s.blocks, pc.at + |s.blocks|);
      assert pc.at == s.rs < s.re;
      forall u | u in s.readers ensures !BusyR(s.readers[u], pc.at) { assert ReaderOk(s, s.readers[u]); }
      SlotUpdate(s.blocks, pc.at, s'.blocks[pc.idx]);
      BlockR(s, step.t, s'.readers[step.t], pc.at, s'.blocks[pc.idx]);
    }
  }

  lemma StepRMove(s: State, step: Step)
    requires Inv(s) && step.RMove? && Allowed(s, step)
    ensures Inv(Apply(s, step))
  {
    var pc := s.readers[step.t];
    assert pc.at == s.rs && pc.idx == s.readStart by { assert ReaderOk(s, pc); }
    var next := s.blocks[pc.idx].next;
    assert next == Ring(s.rs + 1, |s.blocks|) by { RingNext(s.rs, |s.blocks|); }
    assert Apply(s, step) == SetR(s, step.t, RHelping).(readStart := next, rs := s.rs + 1);
    MoveR(s, step.t, next);
  }

  lemma StepKeepsInv(s: State, step: Step)
    requires Inv(s) && Allowed(s, step)
    ensures Inv(Apply(s, step))
  {
    match step {
      case WCall(_, _) => StepPlaceW(s, step);
      case WLoadEnd(_) => StepPlaceW(s, step);
      case WCheck(_) => StepWCheck(s, step);
      case WTimeout(_) => StepPlaceW(s, step);
      case WClaim(_) => StepWClaim(s, step);
      case WClaimFail(_) => StepPlaceW(s, step);
      case WScribble(_, _) => StepWScribble(s, step);
      case WFill(_) => StepBlockW(s, step);
      case WStore(_) => StepBlockW(s, step);
      case WLoadStart(_) => StepPlaceW(s, step);
      case WTest(_) => StepWTest(s, step);
      case WMove(_) => StepWMove(s, step);
      case WPost(_) => StepWPost(s, step);
      case RWake(_) => StepRWake(s, step);
      case RLoadEnd(_) => StepPlaceR(s, step);
      case RCheck(_) => StepRCheck(s, step);
      case RClaim(_) => StepRClaim(s, step);
      case RClaimFail(_) => StepPlaceR(s, step);
      case RCopy(_) => StepRCopy(s, step);
      case RStore(_) => StepRStore(s, step);
      case RLoadStart(_) => StepPlaceR(s, step);
      case RTest(_) => StepRTest(s, step);
      case RMove(_) => StepRMove(s, step);
    }
  }

  lemma InitInv(s: State)
    requires Init(s)
    ensures Inv(s)
  {
    forall x: nat ensures !Slot(s.blocks, x).hasBeenWritten && !Slot(s.blocks, x).hasBeenRead {}
  }

  lemma {:induction false} RunKeepsInv(s: State, steps: seq<Step>)
    requires Inv(s) && IsRun(s, steps)
    ensures Inv(Run(s, steps))
    decreases |steps|
  {
    if steps != [] {
      StepKeepsInv(s, steps[0]);
      RunKeepsInv(Apply(s, steps[0]), steps[1..]);
    }
  }

  // ----- What holds in every reachable state, in every interleaving

  /** The claims made about one state. */
  ghost predicate BlocksNeverShared(s: State) {
    // a block being filled is neither filled by another writer nor copied by a reader
    && (forall t, u :: t in s.writers && u in s.writers && t != u && s.writers[t].WFilling? && s.writers[u].WFilling?
          ==> s.writers[t].idx != s.writers[u].idx)
    && (forall t, u :: t in s.writers && u in s.readers && s.writers[t].WFilling? && s.readers[u].RCopying?
          ==> s.writers[t].idx != s.readers[u].idx)
    && (forall t, u :: t in s.readers && u in s.readers && t != u && s.readers[t].RCopying? && s.readers[u].RCopying?
          ==> s.readers[t].idx != s.readers[u].idx)
  }

  ghost predicate CopiesAreComplete(s: State) {
    forall t :: t in s.readers && s.readers[t].RCopying? ==>
      && InRange(s, s.readers[t].idx) && s.readers[t].at < |s.sent|
      && s.blocks[s.readers[t].idx].content == s.sent[s.readers[t].at]
  }

  /** Every position whose read was claimed has been handed out, once, with the packet that was sent
      at that position, or one reader is copying it now. */
  ghost predicate ExactlyOnce(s: State) {
    && s.re <= |s.sent|
    && (forall x :: x in s.got ==> x < s.re && s.got[x] == s.sent[x])
    && (forall x :: 0 <= x < s.re ==> (x in s.got <==> !SomeCopying(s.readers, x)))
  }

  /** Distinct outstanding positions use distinct blocks. */
  lemma DistinctBlocks(n: nat, lo: nat, x: nat, y: nat)
    requires n >= 2 && lo <= x < lo + n && lo <= y < lo + n && x != y
    ensures Ring(x, n) != Ring(y, n)
  {
    if Ring(x, n) == Ring(y, n) {
      if x < y { RingUnique(x, y, n); } else { RingUnique(y, x, n); }
    }
  }

  lemma InvNeverShares(s: State)
    requires Inv(s)
    ensures BlocksNeverShared(s)
  {
    var n := |s.blocks|;
    forall t, u | t in s.writers && u in s.writers && t != u && s.writers[t].WFilling? && s.writers[u].WFilling?
      ensures s.writers[t].idx != s.writers[u].idx
    {
      assert WriterOk(s, s.writers[t]) && WriterOk(s, s.writers[u]);
      DistinctBlocks(n, s.rs, s.writers[t].at, s.writers[u].at);
    }
    forall t, u | t in s.writers && u in s.readers && s.writers[t].WFilling? && s.readers[u].RCopying?
      ensures s.writers[t].idx != s.readers[u].idx
    {
      assert WriterOk(s, s.writers[t]) && ReaderOk(s, s.readers[u]);
      DistinctBlocks(n, s.rs, s.writers[t].at, s.readers[u].at);
    }
    forall t, u | t in s.readers && u in s.readers && t != u && s.readers[t].RCopying? && s.readers[u].RCopying?
      ensures s.readers[t].idx != s.readers[u].idx
    {
      assert ReaderOk(s, s.readers[t]) && ReaderOk(s, s.readers[u]);
      DistinctBlocks(n, s.rs, s.readers[t].at, s.readers[u].at);
    }
  }

  lemma InvCopiesComplete(s: State)
    requires Inv(s)
    ensures CopiesAreComplete(s) && ExactlyOnce(s)
  {
    forall t | t in s.readers && s.readers[t].RCopying?
      ensures && InRange(s, s.readers[t].idx) && s.readers[t].at < |s.sent| && s.readers[t].at !in s.got
              && s.blocks[s.readers[t].idx].content == s.sent[s.readers[t].at]
    {
      assert ReaderOk(s, s.readers[t]);
      CopyR(s, t, Slot(s.blocks, s.readers[t].at).content);
    }
  }

  // ----- Where the packets come from

  /** What a write call puts into a block: the opcode and the source as given, and the first 4096 bytes of the data. */
  ghost predicate Carries(sent: Packet, given: Packet) {
    && sent.opcode == given.opcode && sent.sourceId == given.sourceId
    && |sent.data| == (if |given.data| < 4096 then |given.data| else 4096) && sent.data <= given.data
  }

  /** Each packet carries what some write call among the steps was given, and no call is used twice: packet x stems
      from step origin[x]. */
  ghost predicate FromCalls(steps: seq<Step>, packets: seq<Packet>, origin: seq<nat>) {
    && |origin| == |packets| && NoRepeats(origin)
    && forall x :: 0 <= x < |origin| ==> StemsFrom(steps, packets[x], origin[x])
  }

  ghost predicate StemsFrom(steps: seq<Step>, packet: Packet, k: nat) {
    k < |steps| && steps[k].WCall? && Carries(packet, steps[k].p)
  }

  /** The writer has been called and has not claimed a block yet. */
  predicate Calling(pc: WriterPc) { pc.WTop? || pc.WLoaded? || pc.WChecked? }

  /** Every calling writer holds the packet of its last call, step calls[t], which is not sent yet. */
  ghost predicate CallsKnown(steps: seq<Step>, writers: map<int, WriterPc>, calls: map<int, nat>, origin: seq<nat>) {
    forall t :: t in writers && Calling(writers[t]) ==>
      && t in calls && calls[t] < |steps| && steps[calls[t]] == WCall(t, writers[t].p) && calls[t] !in origin
      && NoCallAfter(steps, t, calls[t], |steps|)
  }

  /** Writer t is not called again between steps k and m. */
  ghost predicate NoCallAfter(steps: seq<Step>, t: int, k: nat, m: nat)
    requires m <= |steps|
  {
    forall j :: k < j < m ==> !(steps[j].WCall? && steps[j].t == t)
  }

  /** Call k ended with a timeout. */
  ghost predicate TimedOut(steps: seq<Step>, k: nat)
    requires k < |steps|
  {
    exists m :: k < m < |steps| && steps[m] == WTimeout(steps[k].t) && NoCallAfter(steps, steps[k].t, k, m)
  }

  /** Every call has been sent, has timed out, or is the one that its writer is still busy with. */
  ghost predicate CallsKept(steps: seq<Step>, writers: map<int, WriterPc>, calls: map<int, nat>, origin: seq<nat>) {
    forall k :: 0 <= k < |steps| && steps[k].WCall? ==> k in origin || TimedOut(steps, k) || Busy(writers, calls, steps[k].t, k)
  }

  ghost predicate Busy(writers: map<int, WriterPc>, calls: map<int, nat>, t: int, k: nat) {
    t in writers && Calling(writers[t]) && t in calls && calls[t] == k
  }

  ghost predicate Origins(steps: seq<Step>, s: State, calls: map<int, nat>, origin: seq<nat>) {
    FromCalls(steps, s.sent, origin) && CallsKnown(steps, s.writers, calls, origin) && CallsKept(steps, s.writers, calls, origin)
  }

  lemma NoCallYet(steps: seq<Step>, step: Step, t: int, k: nat)
    requires NoCallAfter(steps, t, k, |steps|)
    ensures NoCallAfter(steps + [step], t, k, |steps|)
    ensures !(step.WCall? && step.t == t) ==> NoCallAfter(steps + [step], t, k, |steps| + 1)
  {
  }

  lemma TimedOutStays(steps: seq<Step>, step: Step, k: nat)
    requires k < |steps| && TimedOut(steps, k)
    ensures TimedOut(steps + [step], k)
  {
    var m :| k < m < |steps| && steps[m] == WTimeout(steps[k].t) && NoCallAfter(steps, steps[k].t, k, m);
    assert (steps + [step])[m] == steps[m] && NoCallAfter(steps + [step], steps[k].t, k, m);
  }

  lemma CutCarries(p: Packet)
    ensures Carries(Cut(p), p)
  {
  }

  /** What a step other than a call or a claim leaves alone. */
  lemma CallingKept(s: State, step: Step)
    requires Enabled(s, step) && !step.WCall? && !step.WClaim?
    ensures var s' := Apply(s, step);
            && s'.sent == s.sent && s'.writers.Keys == s.writers.Keys
            && (forall t :: t in s'.writers && Calling(s'.writers[t]) ==> Calling(s.writers[t]) && s'.writers[t].p == s.writers[t].p)
            && (forall t :: t in s.writers && Calling(s.writers[t]) && !Calling(s'.writers[t]) ==> step == WTimeout(t))
  {
    hide Enabled, Apply;
    if ByReader(step) || step.RClaim? || step.RCopy? {
      ReaderKeepsCalls(s, step);
    } else {
      WriterKeepsCalls(s, step);
    }
  }

  lemma ReaderKeepsCalls(s: State, step: Step)
    requires Enabled(s, step) && (ByReader(step) || step.RClaim? || step.RCopy?)
    ensures Apply(s, step).sent == s.sent && Apply(s, step).writers == s.writers
  {
  }

  lemma WriterKeepsCalls(s: State, step: Step)
    requires Enabled(s, step) && !ByReader(step) && !step.RClaim? && !step.RCopy? && !step.WCall? && !step.WClaim?
    ensures var s' := Apply(s, step);
            && s'.sent == s.sent && s'.writers.Keys == s.writers.Keys
            && (forall t :: t in s'.writers && Calling(s'.writers[t]) ==> Calling(s.writers[t]) && s'.writers[t].p == s.writers[t].p)
            && (forall t :: t in s.writers && Calling(s.writers[t]) && !Calling(s'.writers[t]) ==> step == WTimeout(t))
  {
    assert Apply(s, step).writers.Keys == s.writers.Keys;
  }

  lemma CallStep(done: seq<Step>, s: State, step: Step, calls: map<int, nat>, origin: seq<nat>)
    requires Enabled(s, step) && step.WCall? && Origins(done, s, calls, origin)
    ensures Origins(done + [step], Apply(s, step), calls[step.t := |done|], origin)
  {
    hide Carries, NoRepeats, TimedOut, NoCallAfter;
    var (steps, s', calls') := (done + [step], Apply(s, step), calls[step.t := |done|]);
    forall x | 0 <= x < |origin| ensures StemsFrom(steps, s.sent[x], origin[x]) && origin[x] != |done| {
      assert StemsFrom(done, s.sent[x], origin[x]);
    }
    forall t | t in s'.writers && Calling(s'.writers[t]) ensures NoCallAfter(steps, t, calls'[t], |steps|) {
      if t == step.t { NoneBetween(steps, t, |done|); } else { NoCallYet(done, step, t, calls[t]); }
    }
    forall k | 0 <= k < |steps| && steps[k].WCall? ensures k in origin || TimedOut(steps, k) || Busy(s'.writers, calls', steps[k].t, k) {
      if k < |done| && TimedOut(done, k) { TimedOutStays(done, step, k); }
    }
  }

  lemma NoneBetween(steps: seq<Step>, t: int, k: nat)
    requires |steps| == k + 1
    ensures NoCallAfter(steps, t, k, |steps|)
  {
  }

  lemma ClaimStep(done: seq<Step>, s: State, step: Step, calls: map<int, nat>, origin: seq<nat>)
    requires Enabled(s, step) && step.WClaim? && Origins(done, s, calls, origin)
    ensures step.t in calls && Origins(done + [step], Apply(s, step), calls, origin + [calls[step.t]])
  {
    var (steps, p, s') := (done + [step], s.writers[step.t].p, Apply(s, step));
    CutCarries(p);
    hide Carries, Cut, TimedOut, NoCallAfter;
    var k := calls[step.t];
    var origin' := origin + [k];
    forall x | 0 <= x < |origin'| ensures StemsFrom(steps, s'.sent[x], origin'[x]) {
      if x < |origin| { assert StemsFrom(done, s.sent[x], origin[x]); }
    }
    assert forall x :: 0 <= x < |origin| ==> origin[x] in origin;
    forall t | t in s'.writers && Calling(s'.writers[t]) ensures NoCallAfter(steps, t, calls[t], |steps|) {
      NoCallYet(done, step, t, calls[t]);
    }
    forall k | 0 <= k < |steps| && steps[k].WCall? ensures k in origin' || TimedOut(steps, k) || Busy(s'.writers, calls, steps[k].t, k) {
      if k < |done| && TimedOut(done, k) { TimedOutStays(done, step, k); }
    }
  }

  lemma OtherStep(done: seq<Step>, s: State, step: Step, calls: map<int, nat>, origin: seq<nat>)
    requires Enabled(s, step) && !step.WCall? && !step.WClaim? && Origins(done, s, calls, origin)
    ensures Origins(done + [step], Apply(s, step), calls, origin)
  {
    CallingKept(s, step);
    hide Carries, NoRepeats, Enabled, Apply, Calling, NoCallAfter;
    var (steps, s') := (done + [step], Apply(s, step));
    forall x | 0 <= x < |origin| ensures StemsFrom(steps, s.sent[x], origin[x]) {
      assert StemsFrom(done, s.sent[x], origin[x]);
    }
    forall t | t in s.writers && Calling(s.writers[t]) ensures NoCallAfter(steps, t, calls[t], |steps|) && NoCallAfter(steps, t, calls[t], |done|) {
      NoCallYet(done, step, t, calls[t]);
    }
    forall k | 0 <= k < |steps| && steps[k].WCall? ensures k in origin || TimedOut(steps, k) || Busy(s'.writers, calls, steps[k].t, k) {
      if TimedOut(done, k) { TimedOutStays(done, step, k); }
      if Busy(s.writers, calls, steps[k].t, k) && step == WTimeout(steps[k].t) {
        assert steps[|done|] == step;
      }
    }
  }

  lemma {:induction false} RunFromCalls(done: seq<Step>, s: State, steps: seq<Step>, calls: map<int, nat>, origin: seq<nat>)
    returns (calls': map<int, nat>, origin': seq<nat>)
    requires IsRun(s, steps) && Origins(done, s, calls, origin)
    ensures Origins(done + steps, Run(s, steps), calls', origin')
    decreases |steps|
  {
    hide Origins, Enabled, Apply, NoLap;
    if steps == [] {
      assert done + steps == done;
      return calls, origin;
    }
    var (step, done') := (steps[0], done + [steps[0]]);
    assert done' + steps[1..] == done + steps;
    calls', origin' := calls, origin;
    if step.WCall? {
      CallStep(done, s, step, calls, origin);
      calls' := calls[step.t := |done|];
    } else if step.WClaim? {
      ClaimStep(done, s, step, calls, origin);
      origin' := origin + [calls[step.t]];
    } else {
      OtherStep(done, s, step, calls, origin);
    }
    calls', origin' := RunFromCalls(done', Apply(s, step), steps[1..], calls', origin');
  }

  /** In every run, each packet on its way carries what a write call of its own was given; and once no writer is
      calling, every call has been sent or has timed out. */
  lemma SentByCalls(s: State, steps: seq<Step>) returns (origin: seq<nat>)
    requires Init(s) && IsRun(s, steps)
    ensures FromCalls(steps, Run(s, steps).sent, origin)
    ensures (forall t :: t in Run(s, steps).writers ==> !Calling(Run(s, steps).writers[t])) ==>
              forall k :: 0 <= k < |steps| && steps[k].WCall? ==> k in origin || TimedOut(steps, k)
  {
    hide Enabled, Apply, NoLap, Run, IsRun, TimedOut;
    assert [] + steps == steps;
    var calls;
    calls, origin := RunFromCalls([], s, steps, map[], []);
  }

  /** Safety over whole runs; what is handed out at position x is what call origin[x] was given. */
  lemma EveryRunIsSafe(s: State, steps: seq<Step>) returns (origin: seq<nat>)
    requires Init(s) && IsRun(s, steps)
    ensures var s' := Run(s, steps);
            BlocksNeverShared(s') && CopiesAreComplete(s') && ExactlyOnce(s')
    ensures FromCalls(steps, Run(s, steps).sent, origin)
    ensures forall x :: x in Run(s, steps).got ==> x < |origin| && StemsFrom(steps, Run(s, steps).got[x], origin[x])
  {
    InitInv(s);
    RunKeepsInv(s, steps);
    InvNeverShares(Run(s, steps));
    InvCopiesComplete(Run(s, steps));
    origin := SentByCalls(s, steps);
    hide StemsFrom, BlocksNeverShared, CopiesAreComplete, SomeCopying, Inv, Init;
  }

  /** Helping loses nothing: when every writer has returned, all claimed blocks are readable, and
      when every reader waits, all claimed reads have freed their blocks. */
  lemma HelpingLosesNothing(s: State, steps: seq<Step>)
    requires Init(s) && IsRun(s, steps)
    ensures var s' := Run(s, steps);
            && ((forall t :: t in s'.writers ==> s'.writers[t].WIdle?) ==> s'.ws == s'.we && s'.writeStart == s'.writeEnd)
            && ((forall t :: t in s'.readers ==> s'.readers[t].RWaiting?) ==> s'.rs == s'.re && s'.readStart == s'.readEnd)
  {
    InitInv(s);
    RunKeepsInv(s, steps);
    var s' := Run(s, steps);
    assert s'.ws < s'.we ==> Slot(s'.blocks, s'.ws).hasBeenWritten || SomeBusyW(s'.writers, s'.ws);
    assert s'.rs < s'.re ==> Slot(s'.blocks, s'.rs).hasBeenRead || SomeBusyR(s'.readers, s'.rs);
  }

  /** No wakeup is lost: while a block is readable and every reader waits, the semaphore is positive
      or some writer has claimed and not yet posted. */
  lemma NoLostWakeup(s: State, steps: seq<Step>)
    requires Init(s) && IsRun(s, steps)
    ensures var s' := Run(s, steps);
            s'.re < s'.ws && (forall t :: t in s'.readers ==> s'.readers[t].RWaiting?) ==>
              s'.semaphore > 0 || exists t :: t in s'.writers && YetToPost(s'.writers[t])
  {
    InitInv(s);
    RunKeepsInv(s, steps);
  }

  /** A run that has come to rest has delivered every packet that any writer claimed a block for, so that of every
      call that has not timed out. */
  lemma AtRestAllDelivered(s: State, steps: seq<Step>) returns (origin: seq<nat>)
    requires Init(s) && IsRun(s, steps)
    ensures FromCalls(steps, Run(s, steps).sent, origin)
    ensures var s' := Run(s, steps);
            && s'.semaphore == 0
            && (forall t :: t in s'.writers ==> s'.writers[t].WIdle?)
            && (forall t :: t in s'.readers ==> s'.readers[t].RWaiting?)
            ==> && s'.got == (map x | 0 <= x < |s'.sent| :: s'.sent[x])
                && forall k :: 0 <= k < |steps| && steps[k].WCall? ==> k in origin || TimedOut(steps, k)
  {
    InitInv(s);
    RunKeepsInv(s, steps);
    hide TimedOut, FromCalls;
    origin := SentByCalls(s, steps);
    var s' := Run(s, steps);
    if && s'.semaphore == 0
       && (forall t :: t in s'.writers ==> s'.writers[t].WIdle?)
       && (forall t :: t in s'.readers ==> s'.readers[t].RWaiting?)
    {
      HelpingLosesNothing(s, steps);
      assert !SomeYetToPost(s'.writers) && !SomeAwake(s'.readers);
      assert s'.re == s'.ws == s'.we == |s'.sent|;
      forall x: nat ensures x in s'.got <==> x < |s'.sent| { assert x < s'.re ==> x in s'.got || SomeCopying(s'.readers, x); }
    }
  }

  // ----- An undisturbed thread gets on

  lemma FourSteps(s: State, a: Step, s1: State, b: Step, s2: State, c: Step, s3: State, d: Step)
    requires Allowed(s, a) && Apply(s, a) == s1 && Allowed(s1, b) && Apply(s1, b) == s2
    requires Allowed(s2, c) && Apply(s2, c) == s3 && Allowed(s3, d)
    ensures IsRun(s, [a, b, c, d]) && Run(s, [a, b, c, d]) == Apply(s3, d)
  {
    hide Enabled, Apply, NoLap;
    assert [a, b, c, d][1..] == [b, c, d] && [b, c, d][1..] == [c, d] && [c, d][1..] == [d] && [d][1..] == [];
    assert IsRun(Apply(s3, d), []) && Run(Apply(s3, d), []) == Apply(s3, d);
    assert IsRun(s3, [d]) && Run(s3, [d]) == Apply(s3, d);
    assert IsRun(s2, [c, d]) && Run(s2, [c, d]) == Apply(s3, d);
  }

  /** A write may only time out, with the current end in hand, while the ring is full. */
  lemma TimeoutMeansFull(s: State, t: int)
    requires Inv(s) && t in s.writers && WriterEnabled(s, WTimeout(t), s.writers[t]) && s.writers[t].idx == s.writeEnd
    ensures s.we + 1 == s.rs + |s.blocks|
  {
    hide Ring, FlagsW, FlagsR, HelpingW, HelpingR, Contents, HandedOut, Wakeup;
    RingNext(s.we, |s.blocks|);
    if s.we + 1 < s.rs + |s.blocks| { RingUnique(s.rs, s.we + 1, |s.blocks|); }
  }

  lemma WriterSteps(s: State, t: int, p: Packet)
    requires t in s.writers && s.writers[t].WIdle? && s.writeEnd < |s.blocks| && s.blocks[s.writeEnd].next != s.readStart
    ensures var (s1, s2) := (SetW(s, t, WTop(p)), SetW(s, t, WLoaded(p, s.writeEnd, s.we)));
            && Enabled(s, WCall(t, p)) && Apply(s, WCall(t, p)) == s1
            && Enabled(s1, WLoadEnd(t)) && Apply(s1, WLoadEnd(t)) == s2
  {
  }

  lemma WriterClaims(s: State, t: int, p: Packet)
    requires t in s.writers && |s.blocks| >= 2 && NoLap(s) && s.writeEnd < |s.blocks| && s.blocks[s.writeEnd].next != s.readStart
    ensures var (s2, s3) := (SetW(s, t, WLoaded(p, s.writeEnd, s.we)), SetW(s, t, WChecked(p, s.writeEnd, s.we)));
            && Enabled(s2, WCheck(t)) && Apply(s2, WCheck(t)) == s3
            && Allowed(s3, WClaim(t)) && Apply(s3, WClaim(t)).sent == s.sent + [Cut(p)]
  {
    hide Cut;
    assert NoLap(SetW(s, t, WChecked(p, s.writeEnd, s.we)));
  }

  /** Unless the ring is full, four steps of an idle writer claim a block for its packet. */
  lemma WriterGetsOn(s: State, t: int, p: Packet)
    requires Inv(s) && NoLap(s) && t in s.writers && s.writers[t].WIdle? && s.we + 1 < s.rs + |s.blocks|
    ensures var steps := [WCall(t, p), WLoadEnd(t), WCheck(t), WClaim(t)];
            && IsRun(s, steps)
            && var sent := Run(s, steps).sent; |sent| == |s.sent| + 1 && sent[..|s.sent|] == s.sent && Carries(sent[|s.sent|], p)
  {
    hide NoLap, Ring, FlagsW, FlagsR, HelpingW, HelpingR, Contents, HandedOut, Wakeup, WritersOk, ReadersOk, ExclusiveW, ExclusiveR;
    RingNext(s.we, |s.blocks|);
    if s.blocks[s.writeEnd].next == s.readStart { RingUnique(s.rs, s.we + 1, |s.blocks|); }
    CutCarries(p);
    hide Cut, Carries, Inv, Enabled, Apply;
    WriterSteps(s, t, p);
    WriterClaims(s, t, p);
    FourSteps(s, WCall(t, p), SetW(s, t, WTop(p)), WLoadEnd(t), SetW(s, t, WLoaded(p, s.writeEnd, s.we)), WCheck(t),
              SetW(s, t, WChecked(p, s.writeEnd, s.we)), WClaim(t));
  }

  lemma ReaderSteps(s: State, t: int)
    requires t in s.readers && s.readers[t].RTop? && s.readEnd < |s.blocks| && s.readEnd != s.writeStart
    ensures var (s1, s2) := (SetR(s, t, RLoaded(s.readEnd, s.re)), SetR(s, t, RChecked(s.readEnd, s.re)));
            && Enabled(s, RLoadEnd(t)) && Apply(s, RLoadEnd(t)) == s1
            && Enabled(s1, RCheck(t)) && Apply(s1, RCheck(t)) == s2
  {
  }

  lemma ReaderCopies(s: State, t: int)
    requires t in s.readers && s.readEnd < |s.blocks|
    ensures var s2 := SetR(s, t, RChecked(s.readEnd, s.re));
            var s3 := SetR(s, t, RCopying(s.readEnd, s.re)).(readEnd := s.blocks[s.readEnd].next, re := s.re + 1);
            && Enabled(s2, RClaim(t)) && Apply(s2, RClaim(t)) == s3
            && Enabled(s3, RCopy(t)) && Apply(s3, RCopy(t)).returned == s.returned + [s.blocks[s.readEnd].content]
  {
  }

  /** While a written block is unread, four steps of an awake reader hand out the next packet. */
  lemma ReaderGetsOn(s: State, t: int)
    requires Inv(s) && t in s.readers && s.readers[t].RTop? && s.re < s.ws
    ensures s.re < |s.sent|
    ensures var steps := [RLoadEnd(t), RCheck(t), RClaim(t), RCopy(t)];
            IsRun(s, steps) && Run(s, steps).returned == s.returned + [s.sent[s.re]]
  {
    hide NoLap, Ring, FlagsW, FlagsR, HelpingW, HelpingR, HandedOut, Wakeup, ReadersOk, ExclusiveW, ExclusiveR, Enabled, Apply;
    NextIsWritten(s);
    if s.readEnd == s.writeStart { RingUnique(s.re, s.ws, |s.blocks|); }
    hide Inv;
    ReaderSteps(s, t);
    ReaderCopies(s, t);
    FourSteps(s, RLoadEnd(t), SetR(s, t, RLoaded(s.readEnd, s.re)), RCheck(t), SetR(s, t, RChecked(s.readEnd, s.re)), RClaim(t),
              SetR(s, t, RCopying(s.readEnd, s.re)).(readEnd := s.blocks[s.readEnd].next, re := s.re + 1), RCopy(t));
  }

  lemma NextIsWritten(s: State)
    requires Inv(s) && s.re < s.ws
    ensures s.readEnd < |s.blocks| && s.re < |s.sent| && s.blocks[s.readEnd].content == s.sent[s.re]
  {
    hide Ring, FlagsW, FlagsR, HelpingW, HelpingR, HandedOut, Wakeup;
    forall t | t in s.writers ensures !FillingAt(s.writers[t], s.re) { assert WriterOk(s, s.writers[t]); }
    assert s.blocks[s.readEnd] == Slot(s.blocks, s.re);
  }

  // ----- One reader: first in, first out

  /** With the single reader r, the packets returned so far are the packets sent, in claim order. */
  ghost predicate InOrder(s: State, r: int) {
    && s.readers.Keys == {r}
    && (if s.readers[r].RCopying? then s.re > 0 && s.readers[r].at == s.re - 1 else true)
    && |s.returned| == (if s.readers[r].RCopying? then s.re - 1 else s.re)
    && s.returned <= s.sent
  }

  predicate ByReader(step: Step) {
    step.RWake? || step.RLoadEnd? || step.RCheck? || step.RClaimFail? || step.RStore? || step.RLoadStart? || step.RTest? || step.RMove?
  }

  lemma WriterInOrder(s: State, step: Step)
    requires Enabled(s, step) && !ByReader(step) && !step.RClaim? && !step.RCopy?
    ensures var s' := Apply(s, step);
            s'.readers == s.readers && s'.re == s.re && s'.returned == s.returned && s.sent <= s'.sent
  {
  }

  lemma ReaderInOrder(s: State, step: Step, r: int)
    requires Enabled(s, step) && ByReader(step) && s.readers.Keys == {r}
    ensures var s' := Apply(s, step);
            && s'.readers.Keys == {r} && !s.readers[r].RCopying? && !s'.readers[r].RCopying?
            && s'.re == s.re && s'.returned == s.returned && s'.sent == s.sent
  {
    assert Apply(s, step).readers.Keys == s.readers.Keys;
  }

  lemma ClaimInOrder(s: State, t: int, r: int)
    requires InOrder(s, r) && Enabled(s, RClaim(t))
    ensures InOrder(Apply(s, RClaim(t)), r)
  {
    assert Apply(s, RClaim(t)).readers.Keys == s.readers.Keys;
  }

  lemma CopyInOrder(s: State, t: int, r: int)
    requires InOrder(s, r) && Enabled(s, RCopy(t)) && CopiesAreComplete(s)
    ensures InOrder(Apply(s, RCopy(t)), r)
  {
    assert Apply(s, RCopy(t)).readers.Keys == s.readers.Keys;
  }

  lemma StepInOrder(s: State, step: Step, r: int)
    requires InOrder(s, r) && Enabled(s, step)
    requires step.RCopy? ==> CopiesAreComplete(s)
    ensures InOrder(Apply(s, step), r)
  {
    hide Enabled, Apply;
    if step.RClaim? {
      ClaimInOrder(s, step.t, r);
    } else if step.RCopy? {
      CopyInOrder(s, step.t, r);
    } else if ByReader(step) {
      ReaderInOrder(s, step, r);
    } else {
      WriterInOrder(s, step);
    }
  }

  lemma {:induction false} RunInOrder(s: State, steps: seq<Step>, r: int)
    requires Inv(s) && InOrder(s, r) && IsRun(s, steps)
    ensures InOrder(Run(s, steps), r)
    decreases |steps|
  {
    if steps != [] {
      StepKeepsInv(s, steps[0]);
      InvCopiesComplete(s);
      StepInOrder(s, steps[0], r);
      RunInOrder(Apply(s, steps[0]), steps[1..], r);
    }
  }

  /** With one reader the ring is a queue: what it returned is a prefix of what was sent, and packet x of it is what
      call origin[x] was given. */
  lemma OneReaderIsFifo(s: State, steps: seq<Step>, r: int) returns (origin: seq<nat>)
    requires Init(s) && IsRun(s, steps) && s.readers.Keys == {r}
    ensures Run(s, steps).returned <= Run(s, steps).sent
    ensures FromCalls(steps, Run(s, steps).sent, origin)
    ensures |Run(s, steps).returned| <= |origin|
    ensures forall x :: 0 <= x < |Run(s, steps).returned| ==> StemsFrom(steps, Run(s, steps).returned[x], origin[x])
  {
    InitInv(s);
    RunInOrder(s, steps, r);
    origin := SentByCalls(s, steps);
    hide StemsFrom, Inv, Init, IsRun;
  }
}
