/**
  Receiving side of the Trilogy protocol (`ack_mgr_trilogy.c`, `ack_common.c`): numbered pieces arrive in
  any order, wait in a buffer indexed by their distance from the expected number, and leave as whole packets.
 */
module Reassembly {

  type Byte = b: nat | b < 256

  const WINDOW: nat := 1024

  /** A received piece; number 0 marks an unused slot of the buffer. */
  datatype Input = Input(ackRequest: nat, fragCount: nat, opcode: nat, data: seq<Byte>)

  datatype Delivery = Delivery(opcode: nat, data: seq<Byte>)

  datatype Rx = Rx(expected: nat, inputs: seq<Input>, delivered: seq<Delivery>)

  datatype Relativity = Present | Future | Past

  const UNUSED: Input := Input(0, 0, 0, [])

  predicate Filled(x: Input) { x.ackRequest != 0 }

  /** ack_compare.  The operands promote to int, so the lower limit may be negative. */
  function AckCompare(got: nat, expected: nat): Relativity {
    if got == expected then Present
    else if (got > expected && got < expected + WINDOW) || got < expected - WINDOW then Future
    else Past
  }

  // ----- The machine

  function Concat(xs: seq<Input>): seq<Byte> {
    if xs == [] then [] else Concat(xs[..|xs| - 1]) + xs[|xs| - 1].data
  }

  /** Grow the buffer until it has a slot at distance diff. */
  function Expand(inputs: seq<Input>, diff: nat): (r: seq<Input>)
    ensures |r| > diff && inputs <= r
  {
    if diff >= |inputs| then inputs + seq(diff + 1 - |inputs|, _ => UNUSED) else inputs
  }

  /** What the scan over the buffer completes from position i on: how many slots are done, the number expected
      next, and the packets handed over. */
  function Scan(inputs: seq<Input>, i: nat, frags: nat, done: nat, next: nat, out: seq<Delivery>): (r: (nat, nat, seq<Delivery>))
    requires done + frags <= i <= |inputs|
    ensures r.0 <= |inputs|
    decreases |inputs| - i
  {
    if i == |inputs| || !Filled(inputs[i]) then (done, next, out)
    else
      var x := inputs[i];
      if x.fragCount == 0 then
        Scan(inputs, i + 1, frags, done + 1, (x.ackRequest + 1) % 0x10000, out + [Delivery(x.opcode, x.data)])
      else if x.fragCount > |inputs| then (done, next, out)
      else if frags + 1 == x.fragCount then
        Scan(inputs, i + 1, 0, done + frags + 1, (x.ackRequest + 1) % 0x10000,
             out + [Delivery(inputs[i - frags].opcode, Concat(inputs[i - frags..i + 1]))])
      else Scan(inputs, i + 1, frags + 1, done, next, out)
  }

  /** The slot of an arrival, as a difference of unsigned numbers. */
  function Distance(rx: Rx, a: Input): nat { (a.ackRequest - rx.expected) % 0x1_0000_0000 }

  /** The state after one arrival. */
  function Receive(rx: Rx, a: Input): Rx {
    if a.ackRequest == rx.expected && a.fragCount == 0 then
      Rx((rx.expected + 1) % 0x10000, rx.inputs, rx.delivered + [Delivery(a.opcode, a.data)])
    else if AckCompare(a.ackRequest, rx.expected).Past? then rx
    else
      var diff := Distance(rx, a);
      var inputs := Expand(rx.inputs, diff);
      if Filled(inputs[diff]) then rx.(inputs := inputs) else Settle(rx.expected, inputs[diff := a], rx.delivered)
  }

  /** The filled slots do not put a whole packet between the fragments of another, which the receiver relies on. */
  predicate Orderly(inputs: seq<Input>, i: nat, frags: nat)
    requires i <= |inputs|
    decreases |inputs| - i
  {
    i == |inputs| || !Filled(inputs[i]) ||
    var x := inputs[i];
    if x.fragCount == 0 then frags == 0 && Orderly(inputs, i + 1, 0)
    else if x.fragCount > |inputs| then true
    else Orderly(inputs, i + 1, if frags + 1 == x.fragCount then 0 else frags + 1)
  }

  /** After the arrival is stored, the buffer is orderly. */
  predicate Tidy(rx: Rx, a: Input) {
    !AckCompare(a.ackRequest, rx.expected).Past? ==>
      Orderly(Expand(rx.inputs, Distance(rx, a))[Distance(rx, a) := a], 0, 0)
  }

  function Settle(expected: nat, inputs: seq<Input>, delivered: seq<Delivery>): Rx {
    var (done, next, out) := Scan(inputs, 0, 0, 0, expected, delivered);
    if done > 0 then Rx(next, inputs[done..], out) else Rx(expected, inputs, out)
  }

  class Receiver {
    var expected: nat
    var inputs: seq<Input>
    var delivered: seq<Delivery>

    function State(): Rx
      reads this
    {
      Rx(expected, inputs, delivered)
    }

    constructor (first: nat)
      ensures State() == Rx(first, [], [])
    {
      expected, inputs, delivered := first, [], [];
    }

    /** ack_mgr_trilogy_complete_input_fragments: join the fragments in a buffer of the added-up length. */
    method CompleteFragments(length: nat, from: nat, to: nat) returns (next: nat)
      requires from <= to < |inputs| && length == |Concat(inputs[from..to + 1])|
      modifies this`delivered
      ensures next == (inputs[to].ackRequest + 1) % 0x10000
      ensures delivered == old(delivered) + [Delivery(inputs[from].opcode, Concat(inputs[from..to + 1]))]
    {
      hide Concat;
      ConcatNone();
      var data := new Byte[length];
      var cursor := 0;
      var opcode := inputs[from].opcode;
      assert inputs[from..from] == [];
      for i := from to to + 1
        invariant cursor == |Concat(inputs[from..i])| <= length
        invariant data[..cursor] == Concat(inputs[from..i])
        invariant fresh(data) && unchanged(this)
      {
        ConcatNext(inputs, from, i);
        ConcatGrows(inputs[from..to + 1], i + 1 - from);
        assert inputs[from..to + 1][..i + 1 - from] == inputs[from..i + 1];
        cursor := WriteBuffer(data, cursor, inputs[i].data);
      }
      assert data[..] == data[..cursor];
      delivered := delivered + [Delivery(opcode, data[..])];
      next := (inputs[to].ackRequest + 1) % 0x10000;
    }

    /** ack_mgr_trilogy_recv_packet */
    method RecvPacket(a: Input)
      requires Tidy(State(), a)
      modifies this
      ensures State() == Receive(old(State()), a)
    {
      hide Concat;
      var nextAck := expected;
      if a.ackRequest == nextAck && a.fragCount == 0 {
        expected := (nextAck + 1) % 0x10000;
        delivered := delivered + [Delivery(a.opcode, a.data)];
        return;
      }
      if AckCompare(a.ackRequest, nextAck).Past? { return; }
      var diff := (a.ackRequest - nextAck) % 0x1_0000_0000;
      var n := |inputs|;
      while diff >= n
        invariant n == |inputs| && expected == old(expected) && delivered == old(delivered)
        invariant n <= diff + 1 || inputs == old(inputs)
        invariant inputs == old(inputs) + seq(n - |old(inputs)|, _ => UNUSED) && n >= |old(inputs)|
      {
        inputs := inputs + [UNUSED];
        n := n + 1;
      }
      assert inputs == Expand(old(inputs), diff);
      if Filled(inputs[diff]) { return; }
      inputs := inputs[diff := a];
      var done := Complete();
      if done > 0 {
        inputs := inputs[done..];
        expected := nextExpected;
      }
    }

    var nextExpected: nat

    /** The scan loop: hand over every packet that the filled slots complete. */
    method Complete() returns (done: nat)
      requires Orderly(inputs, 0, 0)
      modifies this`delivered, this`nextExpected
      ensures (done, nextExpected, delivered) == Scan(inputs, 0, 0, 0, expected, old(delivered))
    {
      hide Concat;
      var i, frags, length := 0, 0, 0;
      done, nextExpected := 0, expected;
      ghost var wanted := Scan(inputs, 0, 0, 0, expected, delivered);
      ConcatNone();
      while i < |inputs|
        invariant done + frags <= i <= |inputs| && length == |Concat(inputs[i - frags..i])|
        invariant Scan(inputs, i, frags, done, nextExpected, delivered) == wanted && Orderly(inputs, i, frags)
      {
        var x := inputs[i];
        if !Filled(x) { break; }
        assert inputs[i..i] == [] && inputs[i + 1..i + 1] == [];
        if x.fragCount == 0 {
          delivered := delivered + [Delivery(x.opcode, x.data)];
          nextExpected := (x.ackRequest + 1) % 0x10000;
          done := done + 1;
        } else {
          if x.fragCount > |inputs| { break; }
          ConcatNext(inputs, i - frags, i);
          length := length + |x.data|;
          frags := frags + 1;
          if frags == x.fragCount {
            done := done + frags;
            var next := CompleteFragments(length, i - (frags - 1), i);
            nextExpected := next;
            length, frags := 0, 0;
            ConcatNone();
          }
        }
        i := i + 1;
      }
    }
  }

  /** aligned_write_buffer, within bounds */
  method WriteBuffer(buffer: array<Byte>, cursor: nat, data: seq<Byte>) returns (cursor': nat)
    requires cursor + |data| <= buffer.Length
    modifies buffer
    ensures cursor' == cursor + |data| && buffer[..cursor'] == old(buffer[..cursor]) + data
  {
    for i := 0 to |data|
      invariant buffer[..cursor] == old(buffer[..cursor]) && buffer[cursor..cursor + i] == data[..i]
    {
      buffer[cursor + i] := data[i];
    }
    cursor' := cursor + |data|;
    assert buffer[..cursor'] == buffer[..cursor] + buffer[cursor..cursor'];
  }

  lemma ConcatNone()
    ensures Concat([]) == []
  {
  }

  lemma ConcatNext(inputs: seq<Input>, from: nat, i: nat)
    requires from <= i < |inputs|
    ensures Concat(inputs[from..i + 1]) == Concat(inputs[from..i]) + inputs[i].data
  {
    assert inputs[from..i + 1][..i - from] == inputs[from..i];
  }

  lemma {:induction false} ConcatGrows(xs: seq<Input>, k: nat)
    requires k <= |xs|
    ensures |Concat(xs[..k])| <= |Concat(xs)|
    decreases |xs|
  {
    if k == |xs| {
      assert xs[..k] == xs;
    } else {
      ConcatGrows(xs[..|xs| - 1], k);
      assert xs[..|xs| - 1][..k] == xs[..k];
    }
  }

  // ----- A stream of packets

  datatype Packet = Packet(opcode: nat, frags: seq<seq<Byte>>)

  function Flatten(frags: seq<seq<Byte>>): seq<Byte> {
    if frags == [] then [] else Flatten(frags[..|frags| - 1]) + frags[|frags| - 1]
  }

  function Whole(p: Packet): Delivery { Delivery(p.opcode, Flatten(p.frags)) }

  function Wholes(packets: seq<Packet>): (r: seq<Delivery>)
    ensures |r| == |packets| && forall k :: 0 <= k < |r| ==> r[k] == Whole(packets[k])
  {
    seq(|packets|, k requires 0 <= k < |packets| => Whole(packets[k]))
  }

  /** The number of pieces of a list of packets. */
  function Total(packets: seq<Packet>): nat {
    if packets == [] then 0 else Total(packets[..|packets| - 1]) + |packets[|packets| - 1].frags|
  }

  function Start(packets: seq<Packet>, p: nat): nat
    requires p <= |packets|
  {
    Total(packets[..p])
  }

  /** Fragment f of a packet whose first piece has number `at`.  A packet of one piece is not marked as a fragment. */
  function Piece(at: nat, p: Packet, f: nat): Input
    requires f < |p.frags|
  {
    Input(at + f, if |p.frags| == 1 then 0 else |p.frags|, if f == 0 then p.opcode else 0, p.frags[f])
  }

  /** The pieces of all packets, numbered one after the other from base. */
  function Pieces(base: nat, packets: seq<Packet>): seq<Input> {
    if packets == [] then []
    else
      var (front, last) := (packets[..|packets| - 1], packets[|packets| - 1]);
      Pieces(base, front) + seq(|last.frags|, f requires 0 <= f < |last.frags| => Piece(base + Total(front), last, f))
  }

  lemma {:induction false} PiecesLength(base: nat, packets: seq<Packet>)
    ensures |Pieces(base, packets)| == Total(packets)
  {
    if packets != [] { PiecesLength(base, packets[..|packets| - 1]); }
  }

  lemma {:induction false} PieceAt(base: nat, packets: seq<Packet>, p: nat, f: nat)
    requires p < |packets| && f < |packets[p].frags|
    ensures Start(packets, p) + f < |Pieces(base, packets)| && Pieces(base, packets)[Start(packets, p) + f] == Piece(base + Start(packets, p), packets[p], f)
    decreases |packets|
  {
    var front := packets[..|packets| - 1];
    PiecesLength(base, front);
    if p < |front| {
      PieceAt(base, front, p, f);
      assert front[..p] == packets[..p];
    }
  }

  lemma StartNext(packets: seq<Packet>, p: nat)
    requires p < |packets|
    ensures Start(packets, p + 1) == Start(packets, p) + |packets[p].frags|
  {
    assert packets[..p + 1][..p] == packets[..p];
  }

  lemma {:induction false} StartGrows(packets: seq<Packet>, p: nat, q: nat)
    requires p <= q <= |packets|
    ensures Start(packets, p) <= Start(packets, q)
    decreases q
  {
    if p < q {
      StartGrows(packets, p, q - 1);
      StartNext(packets, q - 1);
    }
  }

  lemma {:induction false} NumbersAreConsecutive(base: nat, packets: seq<Packet>, j: nat)
    requires j < |Pieces(base, packets)|
    ensures Pieces(base, packets)[j].ackRequest == base + j
  {
    var front := packets[..|packets| - 1];
    PiecesLength(base, front);
    if j < |Pieces(base, front)| {
      NumbersAreConsecutive(base, front, j);
    } else {
      PieceAt(base, packets, |front|, j - Total(front));
    }
  }

  /** A stream whose numbers neither start at 0 nor wrap. */
  ghost predicate IsStream(base: nat, packets: seq<Packet>) {
    && 0 < base && base + Total(packets) < 0x10000
    && forall p :: 0 <= p < |packets| ==> |packets[p].frags| > 0
  }

  /** All pieces of packet p have been accepted. */
  ghost predicate Arrived(packets: seq<Packet>, seen: set<nat>, p: nat)
    requires p < |packets|
  {
    forall j :: Start(packets, p) <= j < Start(packets, p) + |packets[p].frags| ==> j in seen
  }

  /** Slot k is unused or holds the piece numbered k behind the expected one, and is used exactly if that piece
      has been accepted. */
  ghost predicate SlotOk(inputs: seq<Input>, pieces: seq<Input>, start: nat, seen: set<nat>, k: nat)
    requires k < |inputs|
  {
    && (Filled(inputs[k]) ==> start + k < |pieces| && inputs[k] == pieces[start + k])
    && (Filled(inputs[k]) <==> start + k in seen)
  }

  ghost predicate BufferOk(inputs: seq<Input>, pieces: seq<Input>, start: nat, seen: set<nat>) {
    && (forall k :: 0 <= k < |inputs| ==> SlotOk(inputs, pieces, start, seen, k))
    && (forall j :: j in seen ==> j < start + |inputs|)
  }

  /** The receiver has accepted exactly the pieces in `seen`, and has handed over the packets before p: all
      of them, in order, once each.  Packet p is still incomplete. */
  ghost predicate Tracks(rx: Rx, base: nat, packets: seq<Packet>, seen: set<nat>, p: nat) {
    && p <= |packets|
    && rx.expected == base + Start(packets, p)
    && rx.delivered == Wholes(packets[..p])
    && BufferOk(rx.inputs, Pieces(base, packets), Start(packets, p), seen)
    && (forall j :: 0 <= j < Start(packets, p) ==> j in seen)
    && (p < |packets| ==> !Arrived(packets, seen, p))
  }

  // ----- The scan over an orderly buffer

  /** The scan stands at fragment f of packet q, all of whose earlier fragments are in the buffer. */
  ghost predicate Standing(inputs: seq<Input>, packets: seq<Packet>, start: nat, q: nat, f: nat) {
    && q <= |packets| && start <= Start(packets, q)
    && (f > 0 ==> q < |packets| && f < |packets[q].frags|)
    && Start(packets, q) + f - start <= |inputs|
    && forall k :: 0 <= k < Start(packets, q) + f - start ==> Filled(inputs[k])
  }

  /** Joining the buffered fragments gives the packet. */
  lemma {:induction false} JoinsPrefix(inputs: seq<Input>, base: nat, packets: seq<Packet>, start: nat, seen: set<nat>, q: nat, f: nat)
    requires BufferOk(inputs, Pieces(base, packets), start, seen)
    requires q < |packets| && f <= |packets[q].frags| && start <= Start(packets, q) && Start(packets, q) + f - start <= |inputs|
    requires forall k :: 0 <= k < Start(packets, q) + f - start ==> Filled(inputs[k])
    ensures var i := Start(packets, q) - start;
            Concat(inputs[i..i + f]) == Flatten(packets[q].frags[..f])
  {
    var i := Start(packets, q) - start;
    if f > 0 {
      hide Start, Pieces, Total, Concat, Flatten, BufferOk;
      JoinsPrefix(inputs, base, packets, start, seen, q, f - 1);
      ConcatNext(inputs, i, i + f - 1);
      PieceAt(base, packets, q, f - 1);
      SlotHolds(inputs, Pieces(base, packets), start, seen, i + f - 1);
      FlattenPrefix(packets[q].frags, f);
    }
  }

  lemma SlotHolds(inputs: seq<Input>, pieces: seq<Input>, start: nat, seen: set<nat>, k: nat)
    requires BufferOk(inputs, pieces, start, seen) && k < |inputs| && Filled(inputs[k])
    ensures start + k < |pieces| && inputs[k] == pieces[start + k]
  {
    assert SlotOk(inputs, pieces, start, seen, k);
  }

  lemma FlattenPrefix(frags: seq<seq<Byte>>, f: nat)
    requires 0 < f <= |frags|
    ensures Flatten(frags[..f]) == Flatten(frags[..f - 1]) + frags[f - 1]
  {
    assert frags[..f][..f - 1] == frags[..f - 1];
  }

  /** The piece in the slot where the scan stands. */
  lemma PieceInSlot(inputs: seq<Input>, base: nat, packets: seq<Packet>, start: nat, seen: set<nat>, q: nat, f: nat)
    requires IsStream(base, packets) && BufferOk(inputs, Pieces(base, packets), start, seen) && Standing(inputs, packets, start, q, f)
    ensures var i := Start(packets, q) + f - start;
            i < |inputs| && Filled(inputs[i]) ==>
              q < |packets| && f < |packets[q].frags| && inputs[i] == Piece(base + Start(packets, q), packets[q], f)
  {
    var i := Start(packets, q) + f - start;
    if i < |inputs| && Filled(inputs[i]) {
      assert SlotOk(inputs, Pieces(base, packets), start, seen, i);
      PiecesLength(base, packets);
      assert packets[..|packets|] == packets;
      PieceAt(base, packets, q, f);
    }
  }

  /** What a scan from packet q gives that hands over the packets up to q'. */
  ghost function Completed(base: nat, packets: seq<Packet>, start: nat, q: nat, q': nat, next: nat, out: seq<Delivery>): (int, nat, seq<Delivery>)
    requires q <= q' <= |packets|
  {
    (Start(packets, q') - start, if q' == q then next else base + Start(packets, q'), out + Wholes(packets[q..q']))
  }

  /** Packet q, if there is one, is not all in the buffer. */
  ghost predicate Incomplete(inputs: seq<Input>, packets: seq<Packet>, start: nat, q: nat)
    requires q <= |packets|
  {
    q < |packets| ==> exists g :: 0 <= g < |packets[q].frags| && Missing(inputs, packets, start, q, g)
  }

  /** The scan is at slot i, with `done` slots completed and f fragments of packet q taken in. */
  ghost predicate ScanAt(inputs: seq<Input>, base: nat, packets: seq<Packet>, start: nat, seen: set<nat>, q: nat, f: nat, i: nat, done: nat) {
    && IsStream(base, packets) && BufferOk(inputs, Pieces(base, packets), start, seen) && Standing(inputs, packets, start, q, f)
    && q <= |packets| && done == Start(packets, q) - start && i == done + f <= |inputs|
  }

  /** From there it hands over the packets up to q', which is not all there. */
  ghost predicate Found(inputs: seq<Input>, base: nat, packets: seq<Packet>, start: nat, q: nat, q': nat, f: nat, i: nat, done: nat,
                        next: nat, out: seq<Delivery>) {
    && q <= q' <= |packets| && done + f <= i <= |inputs| && Standing(inputs, packets, start, q', 0) && Incomplete(inputs, packets, start, q')
    && Scan(inputs, i, f, done, next, out) == Completed(base, packets, start, q, q', next, out) && Orderly(inputs, i, f)
  }

  /** The scan hands over exactly the packets whose fragments are all there, up to the first that is not. */
  lemma {:induction false} ScanCompletes(inputs: seq<Input>, base: nat, packets: seq<Packet>, start: nat, seen: set<nat>,
                                         q: nat, f: nat, i: nat, done: nat, next: nat, out: seq<Delivery>) returns (q': nat)
    requires ScanAt(inputs, base, packets, start, seen, q, f, i, done)
    ensures Found(inputs, base, packets, start, q, q', f, i, done, next, out)
    decreases |inputs| - i
  {
    ScanBounds(inputs, base, packets, start, seen, q, f, i, done);
    hide Start, ScanAt, Found;
    if i == |inputs| || !Filled(inputs[i]) || (q < |packets| && |packets[q].frags| > |inputs|) {
      q' := q;
      ScanStops(inputs, base, packets, start, seen, q, f, i, done, next, out);
    } else if f + 1 == |packets[q].frags| {
      StandsAtNext(inputs, base, packets, start, seen, q, f, i, done);
      q' := ScanCompletes(inputs, base, packets, start, seen, q + 1, 0, i + 1, i + 1, base + Start(packets, q + 1), out + [Whole(packets[q])]);
      ScanHandsOver(inputs, base, packets, start, seen, q, q', f, i, done, next, out);
    } else {
      ScanStores(inputs, base, packets, start, seen, q, f, i, done);
      q' := ScanCompletes(inputs, base, packets, start, seen, q, f + 1, i + 1, done, next, out);
      FoundLater(inputs, base, packets, start, seen, q, q', f, i, done, next, out);
    }
  }

  lemma CompletedFrom(base: nat, packets: seq<Packet>, start: nat, q: nat, q': nat, next: nat, out: seq<Delivery>)
    requires q < q' <= |packets|
    ensures Completed(base, packets, start, q + 1, q', base + Start(packets, q + 1), out + [Whole(packets[q])])
            == Completed(base, packets, start, q, q', next, out)
  {
    hide Whole, Start;
    WholesFrom(packets, q, q', out);
  }

  /** A filled slot belongs to a packet of the stream. */
  lemma ScanBounds(inputs: seq<Input>, base: nat, packets: seq<Packet>, start: nat, seen: set<nat>, q: nat, f: nat, i: nat, done: nat)
    requires ScanAt(inputs, base, packets, start, seen, q, f, i, done)
    ensures q <= |packets| && i <= |inputs|
    ensures i < |inputs| && Filled(inputs[i]) ==> q < |packets| && f < |packets[q].frags|
  {
    hide Start, Pieces, BufferOk;
    PieceInSlot(inputs, base, packets, start, seen, q, f);
  }

  lemma WholesFrom(packets: seq<Packet>, q: nat, q': nat, out: seq<Delivery>)
    requires q < q' <= |packets|
    ensures out + Wholes(packets[q..q']) == out + [Whole(packets[q])] + Wholes(packets[q + 1..q'])
  {
    hide Whole, Flatten;
    var (all, rest) := (packets[q..q'], packets[q + 1..q']);
    var wanted := [Whole(packets[q])] + Wholes(rest);
    forall k | 0 <= k < |all| ensures Wholes(all)[k] == wanted[k] {
      assert all[k] == if k == 0 then packets[q] else rest[k - 1];
    }
    assert Wholes(all) == wanted;
  }

  /** The scan ends at an unused slot, or where the buffer is shorter than the packet. */
  lemma ScanStops(inputs: seq<Input>, base: nat, packets: seq<Packet>, start: nat, seen: set<nat>, q: nat, f: nat, i: nat, done: nat,
                  next: nat, out: seq<Delivery>)
    requires ScanAt(inputs, base, packets, start, seen, q, f, i, done)
    requires i == |inputs| || !Filled(inputs[i]) || (q < |packets| && |packets[q].frags| > |inputs|)
    ensures Found(inputs, base, packets, start, q, q, f, i, done, next, out)
  {
    hide Start, Total, Pieces, Concat, BufferOk;
    PieceInSlot(inputs, base, packets, start, seen, q, f);
    assert out + Wholes(packets[q..q]) == out;
    if i == |inputs| || !Filled(inputs[i]) {
      assert q < |packets| ==> Missing(inputs, packets, start, q, f);
    } else {
      assert Missing(inputs, packets, start, q, |packets[q].frags| - 1);
    }
  }

  /** It takes in a fragment that is not the last. */
  lemma ScanStores(inputs: seq<Input>, base: nat, packets: seq<Packet>, start: nat, seen: set<nat>, q: nat, f: nat, i: nat, done: nat)
    requires ScanAt(inputs, base, packets, start, seen, q, f, i, done) && i < |inputs| && Filled(inputs[i])
    requires q < |packets| && f < |packets[q].frags| && f + 1 != |packets[q].frags|
    ensures ScanAt(inputs, base, packets, start, seen, q, f + 1, i + 1, done)
  {
    hide Start, Total, Pieces, BufferOk;
  }

  lemma FoundLater(inputs: seq<Input>, base: nat, packets: seq<Packet>, start: nat, seen: set<nat>, q: nat, q': nat, f: nat, i: nat, done: nat,
                   next: nat, out: seq<Delivery>)
    requires ScanAt(inputs, base, packets, start, seen, q, f, i, done) && i < |inputs| && Filled(inputs[i])
    requires q < |packets| && f < |packets[q].frags| && f + 1 != |packets[q].frags| <= |inputs|
    requires Found(inputs, base, packets, start, q, q', f + 1, i + 1, done, next, out)
    ensures Found(inputs, base, packets, start, q, q', f, i, done, next, out)
  {
    hide Start, Total, Pieces, Concat, Flatten, BufferOk, Completed, Incomplete, Standing;
    PieceInSlot(inputs, base, packets, start, seen, q, f);
  }

  /** It takes in the last fragment and stands at the next packet. */
  lemma StandsAtNext(inputs: seq<Input>, base: nat, packets: seq<Packet>, start: nat, seen: set<nat>, q: nat, f: nat, i: nat, done: nat)
    requires ScanAt(inputs, base, packets, start, seen, q, f, i, done) && i < |inputs| && Filled(inputs[i])
    requires q < |packets| && f + 1 == |packets[q].frags|
    ensures ScanAt(inputs, base, packets, start, seen, q + 1, 0, i + 1, i + 1)
  {
    StartNext(packets, q);
    hide Start, Pieces, BufferOk, IsStream;
  }

  /** It hands the packet over. */
  lemma ScanHandsOver(inputs: seq<Input>, base: nat, packets: seq<Packet>, start: nat, seen: set<nat>, q: nat, q': nat, f: nat, i: nat, done: nat,
                      next: nat, out: seq<Delivery>)
    requires ScanAt(inputs, base, packets, start, seen, q, f, i, done) && i < |inputs| && Filled(inputs[i])
    requires q < |packets| && f + 1 == |packets[q].frags| <= |inputs|
    requires Found(inputs, base, packets, start, q + 1, q', 0, i + 1, i + 1, base + Start(packets, q + 1), out + [Whole(packets[q])])
    ensures Found(inputs, base, packets, start, q, q', f, i, done, next, out)
  {
    hide Start, Total, Pieces, Concat, BufferOk, Standing, Whole, Completed, Incomplete;
    StartNext(packets, q);
    StartBound(base, packets, q + 1);
    PieceInSlot(inputs, base, packets, start, seen, q, f);
    LastJoins(inputs, base, packets, start, seen, q, f, i, done);
    CompletedFrom(base, packets, start, q, q', next, out);
  }

  /** The pieces in the buffer make the whole packet. */
  lemma LastJoins(inputs: seq<Input>, base: nat, packets: seq<Packet>, start: nat, seen: set<nat>, q: nat, f: nat, i: nat, done: nat)
    requires IsStream(base, packets) && BufferOk(inputs, Pieces(base, packets), start, seen) && Standing(inputs, packets, start, q, f)
    requires done == Start(packets, q) - start && i == done + f < |inputs| && Filled(inputs[i])
    requires q < |packets| && f + 1 == |packets[q].frags|
    ensures Delivery(inputs[done].opcode, Concat(inputs[done..i + 1])) == Whole(packets[q])
    ensures f == 0 ==> Concat(inputs[done..i + 1]) == inputs[i].data
  {
    hide Start, Total, Pieces, Concat, Flatten, BufferOk;
    JoinsPrefix(inputs, base, packets, start, seen, q, f + 1);
    assert packets[q].frags[..f + 1] == packets[q].frags;
    PieceInSlot(inputs, base, packets, start, seen, q, 0);
    if f == 0 {
      JoinsOne(inputs[i]);
      assert inputs[done..i + 1] == [inputs[i]];
    }
  }

  lemma JoinsOne(x: Input)
    ensures Concat([x]) == x.data
  {
    ConcatNext([x], 0, 0);
  }

  ghost predicate Missing(inputs: seq<Input>, packets: seq<Packet>, start: nat, q: nat, g: nat)
    requires q <= |packets|
  {
    var k := Start(packets, q) + g - start;
    k >= |inputs| || (k >= 0 && !Filled(inputs[k]))
  }

  lemma StartBound(base: nat, packets: seq<Packet>, p: nat)
    requires IsStream(base, packets) && p <= |packets|
    ensures base + Start(packets, p) < 0x10000
  {
    StartGrows(packets, p, |packets|);
    assert packets[..|packets|] == packets;
  }

  // ----- One arrival

  /** Storing piece j in its slot. */
  lemma StoreOk(inputs: seq<Input>, pieces: seq<Input>, start: nat, seen: set<nat>, j: nat)
    requires BufferOk(inputs, pieces, start, seen) && start <= j < |pieces| && Filled(pieces[j])
    ensures var diff := j - start;
            && (Filled(Expand(inputs, diff)[diff]) <==> j in seen)
            && (j in seen ==> Expand(inputs, diff) == inputs)
            && BufferOk(Expand(inputs, diff)[diff := pieces[j]], pieces, start, seen + {j})
  {
    var diff := j - start;
    var wide := Expand(inputs, diff);
    assert diff < |inputs| ==> SlotOk(inputs, pieces, start, seen, diff);
    var stored := wide[diff := pieces[j]];
    forall k | 0 <= k < |stored| ensures SlotOk(stored, pieces, start, seen + {j}, k) {
      if k < |inputs| { assert SlotOk(inputs, pieces, start, seen, k); }
    }
  }

  /** Completed packets leave the buffer. */
  lemma ShiftOk(inputs: seq<Input>, pieces: seq<Input>, start: nat, seen: set<nat>, done: nat)
    requires BufferOk(inputs, pieces, start, seen) && done <= |inputs|
    ensures BufferOk(inputs[done..], pieces, start + done, seen)
  {
    var rest, start' := inputs[done..], start + done;
    forall k | 0 <= k < |rest| ensures SlotOk(rest, pieces, start', seen, k) {
      assert SlotOk(inputs, pieces, start, seen, done + k);
    }
  }

  /** The scan after an arrival restores the invariant, for the packet now first incomplete. */
  lemma SettleTracks(inputs: seq<Input>, base: nat, packets: seq<Packet>, seen: set<nat>, p: nat) returns (p': nat)
    requires IsStream(base, packets) && p <= |packets| && BufferOk(inputs, Pieces(base, packets), Start(packets, p), seen)
    requires forall j :: 0 <= j < Start(packets, p) ==> j in seen
    ensures p <= p' && Tracks(Settle(base + Start(packets, p), inputs, Wholes(packets[..p])), base, packets, seen, p')
    ensures Orderly(inputs, 0, 0)
  {
    hide Start, Total, Pieces, BufferOk;
    var start := Start(packets, p);
    p' := ScanCompletes(inputs, base, packets, start, seen, p, 0, 0, 0, base + start, Wholes(packets[..p]));
    var done := Start(packets, p') - start;
    assert Wholes(packets[..p]) + Wholes(packets[p..p']) == Wholes(packets[..p']);
    ShiftOk(inputs, Pieces(base, packets), start, seen, done);
    SlotsSeen(inputs, Pieces(base, packets), start, seen);
    if p' < |packets| {
      var g :| 0 <= g < |packets[p'].frags| && Missing(inputs, packets, start, p', g);
      assert Start(packets, p') + g !in seen;
    }
    StartBetween(packets, p, p');
    assert inputs[0..] == inputs;
  }

  lemma SlotsSeen(inputs: seq<Input>, pieces: seq<Input>, start: nat, seen: set<nat>)
    requires BufferOk(inputs, pieces, start, seen)
    ensures forall j :: start <= j < start + |inputs| ==> (j in seen <==> Filled(inputs[j - start]))
    ensures forall j :: j in seen ==> j < start + |inputs|
  {
    forall j | start <= j < start + |inputs| ensures j in seen <==> Filled(inputs[j - start]) {
      assert SlotOk(inputs, pieces, start, seen, j - start);
    }
  }

  /** Nothing moves on only if no packet is completed. */
  lemma StartBetween(packets: seq<Packet>, p: nat, q: nat)
    requires p <= q <= |packets| && forall k :: 0 <= k < |packets| ==> |packets[k].frags| > 0
    ensures p < q ==> Start(packets, p) < Start(packets, q)
  {
    if p < q {
      StartNext(packets, p);
      StartGrows(packets, p + 1, q);
    }
  }

  /** The pieces accepted after an arrival: those too far ahead are dropped. */
  ghost function Accepted(rx: Rx, base: nat, seen: set<nat>, j: nat): set<nat> {
    if base + j < rx.expected + WINDOW then seen + {j} else seen
  }

  /** An arrival that the protocol allows for: not more than 1024 behind, and no lone packet overtaken by
      buffered pieces. */
  ghost predicate Fair(rx: Rx, base: nat, packets: seq<Packet>, j: nat)
    requires j < |Pieces(base, packets)|
  {
    && rx.expected <= base + j + WINDOW
    && (base + j == rx.expected && Pieces(base, packets)[j].fragCount == 0 ==> NothingBuffered(rx))
  }

  predicate NothingBuffered(rx: Rx) { forall k :: 0 <= k < |rx.inputs| ==> !Filled(rx.inputs[k]) }

  /** Every arrival keeps the invariant. */
  lemma ReceiveTracks(rx: Rx, base: nat, packets: seq<Packet>, seen: set<nat>, p: nat, j: nat) returns (p': nat)
    requires IsStream(base, packets) && Tracks(rx, base, packets, seen, p)
    requires j < |Pieces(base, packets)| && Fair(rx, base, packets, j)
    ensures p <= p' && Tracks(Receive(rx, Pieces(base, packets)[j]), base, packets, Accepted(rx, base, seen, j), p')
    ensures Tidy(rx, Pieces(base, packets)[j])
  {
    hide Start, Total, Pieces, BufferOk, Settle, Orderly, Wholes;
    var a, start := Pieces(base, packets)[j], Start(packets, p);
    NumbersAreConsecutive(base, packets, j);
    StartBound(base, packets, p);
    PiecesLength(base, packets);
    if j < start {
      p' := p;
      assert AckCompare(a.ackRequest, rx.expected).Past? && seen + {j} == seen;
    } else if j >= start + WINDOW {
      p' := p;
      assert AckCompare(a.ackRequest, rx.expected).Past?;
    } else {
      StoreOk(rx.inputs, Pieces(base, packets), start, seen, j);
      assert Distance(rx, a) == j - start;
      p' := SettleTracks(Expand(rx.inputs, j - start)[j - start := a], base, packets, seen + {j}, p);
      if j == start && a.fragCount == 0 {
        p' := LonePacket(rx, base, packets, seen, p);
      } else if j in seen {
        p' := p;
        assert seen + {j} == seen;
        assert Receive(rx, a) == rx;
      } else {
        assert Receive(rx, a) == Settle(rx.expected, Expand(rx.inputs, j - start)[j - start := a], rx.delivered);
      }
    }
  }

  lemma StartAll(packets: seq<Packet>)
    ensures Start(packets, |packets|) == Total(packets)
  {
    assert packets[..|packets|] == packets;
  }

  lemma FlattenOne(frags: seq<seq<Byte>>)
    ensures |frags| == 1 ==> Flatten(frags) == frags[0]
  {
    if |frags| == 1 { assert Flatten(frags[..0]) == []; }
  }

  /** The direct path for an expected packet of one piece, when nothing is buffered. */
  lemma LonePacket(rx: Rx, base: nat, packets: seq<Packet>, seen: set<nat>, p: nat) returns (p': nat)
    requires IsStream(base, packets) && Tracks(rx, base, packets, seen, p) && NothingBuffered(rx)
    requires Start(packets, p) < |Pieces(base, packets)| && Pieces(base, packets)[Start(packets, p)].fragCount == 0
    ensures p' == p + 1 && Tracks(Receive(rx, Pieces(base, packets)[Start(packets, p)]), base, packets, seen + {Start(packets, p)}, p')
  {
    hide Start, Total, Pieces, Settle, Orderly, Scan;
    var start := Start(packets, p);
    p' := p + 1;
    PiecesLength(base, packets);
    StartAll(packets);
    StartNext(packets, p);
    PieceAt(base, packets, p, 0);
    FlattenOne(packets[p].frags);
    StartBound(base, packets, p + 1);
    NumbersAreConsecutive(base, packets, start);
    assert Wholes(packets[..p + 1]) == Wholes(packets[..p]) + [Whole(packets[p])];
    NoneAhead(rx.inputs, Pieces(base, packets), start, seen);
    assert p + 1 < |packets| ==> start + 1 !in seen + {start};
  }

  /** An unused buffer fits any start. */
  lemma NoneAhead(inputs: seq<Input>, pieces: seq<Input>, start: nat, seen: set<nat>)
    requires BufferOk(inputs, pieces, start, seen) && forall k :: 0 <= k < |inputs| ==> !Filled(inputs[k])
    ensures forall j :: j in seen ==> j < start
    ensures BufferOk(inputs, pieces, start + 1, seen + {start})
  {
    SlotsSeen(inputs, pieces, start, seen);
    var start', seen' := start + 1, seen + {start};
    forall k | 0 <= k < |inputs| ensures SlotOk(inputs, pieces, start', seen', k) {}
  }

  // ----- Whole runs

  ghost predicate Within(js: seq<nat>, n: nat) { forall k :: 0 <= k < |js| ==> js[k] < n }

  /** The receiver after the pieces numbered js have arrived in that order, repeats included. */
  ghost function After(base: nat, packets: seq<Packet>, js: seq<nat>): Rx
    requires Within(js, |Pieces(base, packets)|)
  {
    if js == [] then Rx(base, [], [])
    else Receive(After(base, packets, js[..|js| - 1]), Pieces(base, packets)[js[|js| - 1]])
  }

  ghost function SeenAfter(base: nat, packets: seq<Packet>, js: seq<nat>): set<nat>
    requires Within(js, |Pieces(base, packets)|)
  {
    if js == [] then {}
    else
      var front := js[..|js| - 1];
      Accepted(After(base, packets, front), base, SeenAfter(base, packets, front), js[|js| - 1])
  }

  /** Every arrival of the run is fair at its time. */
  ghost predicate FairRun(base: nat, packets: seq<Packet>, js: seq<nat>)
    requires Within(js, |Pieces(base, packets)|)
  {
    js == [] ||
    var front := js[..|js| - 1];
    FairRun(base, packets, front) && Fair(After(base, packets, front), base, packets, js[|js| - 1])
  }

  /** Only pieces that have arrived are accepted. */
  lemma {:induction false} SeenHaveArrived(base: nat, packets: seq<Packet>, js: seq<nat>)
    requires Within(js, |Pieces(base, packets)|)
    ensures forall j :: j in SeenAfter(base, packets, js) ==> j in js
  {
    hide After, Pieces;
    if js != [] {
      SeenHaveArrived(base, packets, js[..|js| - 1]);
      assert js == js[..|js| - 1] + [js[|js| - 1]];
    }
  }

  /** In every fair run, what has been handed over is a prefix of the stream: the packets before the first that
      is not fully accepted, in order, once each, with their content; and every piece of them has arrived. */
  lemma {:induction false} RunDeliversPrefix(base: nat, packets: seq<Packet>, js: seq<nat>) returns (p: nat)
    requires IsStream(base, packets) && Within(js, |Pieces(base, packets)|) && FairRun(base, packets, js)
    ensures Tracks(After(base, packets, js), base, packets, SeenAfter(base, packets, js), p)
    ensures forall j :: 0 <= j < Start(packets, p) ==> j in js
  {
    hide Receive, Pieces, Accepted, Fair, Tidy;
    SeenHaveArrived(base, packets, js);
    if js == [] {
      p := 0;
      assert packets[..0] == [] && Start(packets, 0) == 0;
      assert Start(packets, 0) !in SeenAfter(base, packets, js);
    } else {
      hide Tracks, IsStream;
      var front := js[..|js| - 1];
      var p0 := RunDeliversPrefix(base, packets, front);
      p := ReceiveTracks(After(base, packets, front), base, packets, SeenAfter(base, packets, front), p0, js[|js| - 1]);
    }
  }

  /** Once every piece has been accepted, the whole stream has been handed over and nothing stays buffered. */
  lemma AllAcceptedAllDelivered(base: nat, packets: seq<Packet>, js: seq<nat>)
    requires IsStream(base, packets) && Within(js, |Pieces(base, packets)|) && FairRun(base, packets, js)
    requires forall j :: 0 <= j < Total(packets) ==> j in SeenAfter(base, packets, js)
    ensures After(base, packets, js).delivered == Wholes(packets) && After(base, packets, js).expected == base + Total(packets)
    ensures NothingBuffered(After(base, packets, js))
  {
    hide After, SeenAfter, Pieces, FairRun, Wholes;
    var rx := After(base, packets, js);
    var p := RunDeliversPrefix(base, packets, js);
    StartAll(packets);
    if p < |packets| {
      StartNext(packets, p);
      StartGrows(packets, p + 1, |packets|);
    }
    assert p == |packets| && packets[..p] == packets;
    PiecesLength(base, packets);
    forall k | 0 <= k < |rx.inputs| ensures !Filled(rx.inputs[k]) {
      assert SlotOk(rx.inputs, Pieces(base, packets), Start(packets, p), SeenAfter(base, packets, js), k);
    }
  }

  /** A packet of more than 1024 fragments is never handed over, and nothing behind it is: its fragments from 1024
      on are not accepted while it is the first that is incomplete. */
  lemma {:induction false} TooLongNeverDelivered(base: nat, packets: seq<Packet>, js: seq<nat>, p: nat)
    requires IsStream(base, packets) && Within(js, |Pieces(base, packets)|) && FairRun(base, packets, js)
    requires p < |packets| && |packets[p].frags| > 1024
    ensures Start(packets, p) + 1024 !in SeenAfter(base, packets, js)
    ensures |After(base, packets, js).delivered| <= p
  {
    hide Pieces, Start, Total, Fair, BufferOk, Receive;
    var x := Start(packets, p) + WINDOW;
    if js != [] {
      var front := js[..|js| - 1];
      TooLongNeverDelivered(base, packets, front, p);
      var q := RunDeliversPrefix(base, packets, front);
      StartGrows(packets, q, p);
    }
    var q := RunDeliversPrefix(base, packets, js);
    hide After, SeenAfter, FairRun;
    if q > p {
      StartNext(packets, p);
      StartGrows(packets, p + 1, q);
    }
  }

  /** Streams of fragmented packets never meet the direct path: only the window limits them. */
  lemma {:induction false} FragmentedIsFair(rx: Rx, base: nat, packets: seq<Packet>, j: nat)
    requires j < |Pieces(base, packets)| && forall p :: 0 <= p < |packets| ==> |packets[p].frags| > 1
    ensures Pieces(base, packets)[j].fragCount > 1
    ensures Fair(rx, base, packets, j) <==> rx.expected <= base + j + 1024
  {
    var front := packets[..|packets| - 1];
    PiecesLength(base, front);
    if j < |Pieces(base, front)| {
      FragmentedIsFair(rx, base, front, j);
    } else {
      PieceAt(base, packets, |front|, j - Total(front));
    }
  }

  // ----- Where the receiver's two shortcuts hold

  /** A number is taken for a past one exactly if it is up to 1024 behind the expected one, as it should be, or
      1024 or more ahead of it. */
  lemma PastIff(got: nat, expected: nat)
    ensures AckCompare(got, expected).Past? <==> got < expected <= got + 1024 || expected + 1024 <= got
    ensures AckCompare(got, expected).Present? <==> got == expected
  {
  }

  /** The scan does not get past an unused slot. */
  lemma {:induction false} ScanStopsAt(inputs: seq<Input>, i: nat, frags: nat, done: nat, next: nat, out: seq<Delivery>, m: nat)
    requires done + frags <= i <= m < |inputs| && !Filled(inputs[m])
    ensures Scan(inputs, i, frags, done, next, out).0 <= m
    decreases |inputs| - i
  {
    hide Concat;
    if i < m && Filled(inputs[i]) {
      var x := inputs[i];
      if x.fragCount == 0 {
        ScanStopsAt(inputs, i + 1, frags, done + 1, (x.ackRequest + 1) % 0x10000, out + [Delivery(x.opcode, x.data)], m);
      } else if x.fragCount <= |inputs| {
        if frags + 1 == x.fragCount {
          ScanStopsAt(inputs, i + 1, 0, done + frags + 1, (x.ackRequest + 1) % 0x10000,
                      out + [Delivery(inputs[i - frags].opcode, Concat(inputs[i - frags..i + 1]))], m);
        } else {
          ScanStopsAt(inputs, i + 1, frags + 1, done, next, out, m);
        }
      }
    }
  }

  /** A piece more than 1024 behind is taken for a future one, stored billions of slots away and stays there. */
  lemma StrayStays(rx: Rx, a: Input)
    requires 0 < a.ackRequest && a.ackRequest + 1024 < rx.expected < 0x10000 && |rx.inputs| < 0x10000
    ensures exists k :: 0x10000 <= k < |Receive(rx, a).inputs| && Filled(Receive(rx, a).inputs[k])
  {
    var diff := Distance(rx, a);
    var stored := Expand(rx.inputs, diff)[diff := a];
    assert diff >= 0xFFFF_0000;
    assert Receive(rx, a) == Settle(rx.expected, stored, rx.delivered);
    ScanStopsAt(stored, 0, 0, 0, rx.expected, rx.delivered, |rx.inputs|);
    var done := Scan(stored, 0, 0, 0, rx.expected, rx.delivered).0;
    hide Scan;
    assert stored[done..][diff - done] == a;
    assert done == 0 ==> stored[diff] == a;
  }

  /** A repeat of a delivered piece leaves the receiver in order if and only if it is at most 1024 behind. */
  lemma WindowIff(rx: Rx, base: nat, packets: seq<Packet>, seen: set<nat>, p: nat, j: nat)
    requires IsStream(base, packets) && Tracks(rx, base, packets, seen, p) && |rx.inputs| < 0x10000
    requires j < Start(packets, p) && j < |Pieces(base, packets)|
    ensures (exists p' :: Tracks(Receive(rx, Pieces(base, packets)[j]), base, packets, seen, p'))
            <==> rx.expected <= base + j + 1024
  {
    hide Start, Total, Pieces, Settle, Scan, Wholes;
    var a := Pieces(base, packets)[j];
    NumbersAreConsecutive(base, packets, j);
    StartBound(base, packets, p);
    if rx.expected <= base + j + WINDOW {
      PastIff(a.ackRequest, rx.expected);
      assert Receive(rx, a) == rx;
    } else {
      StrayStays(rx, a);
      var rx' := Receive(rx, a);
      var k :| 0x10000 <= k < |rx'.inputs| && Filled(rx'.inputs[k]);
      PiecesLength(base, packets);
      forall p' ensures !Tracks(rx', base, packets, seen, p') {
        assert Tracks(rx', base, packets, seen, p') ==> SlotOk(rx'.inputs, Pieces(base, packets), Start(packets, p'), seen, k);
      }
    }
  }

  /** The direct path keeps the invariant exactly when nothing is buffered. */
  lemma DirectPathIff(rx: Rx, base: nat, packets: seq<Packet>, seen: set<nat>, p: nat)
    requires IsStream(base, packets) && Tracks(rx, base, packets, seen, p)
    requires Start(packets, p) < |Pieces(base, packets)| && Pieces(base, packets)[Start(packets, p)].fragCount == 0
    ensures (exists p' :: Tracks(Receive(rx, Pieces(base, packets)[Start(packets, p)]), base, packets, seen + {Start(packets, p)}, p'))
            <==> NothingBuffered(rx)
  {
    hide Total, Pieces;
    var start := Start(packets, p);
    var pieces := Pieces(base, packets);
    var rx' := Receive(rx, pieces[start]);
    NumbersAreConsecutive(base, packets, start);
    StartBound(base, packets, p);
    if NothingBuffered(rx) {
      var p' := LonePacket(rx, base, packets, seen, p);
    }
    forall p' | Tracks(rx', base, packets, seen + {start}, p') ensures NothingBuffered(rx) {
      forall k | 0 <= k < |rx.inputs| ensures !Filled(rx.inputs[k]) {
        assert SlotOk(rx.inputs, pieces, start, seen, k);
        assert SlotOk(rx'.inputs, pieces, Start(packets, p'), seen + {start}, k);
        if Filled(rx.inputs[k]) {
          NumbersAreConsecutive(base, packets, start + k);
          NumbersAreConsecutive(base, packets, Start(packets, p') + k);
        }
      }
    }
  }

  const OVERTAKEN: seq<Packet> := [Packet(1, [[]]), Packet(2, [[]]), Packet(3, [[], []])]

  lemma LoneNext(base: nat, front: seq<Packet>, last: Packet)
    requires |last.frags| == 1
    ensures Total(front + [last]) == Total(front) + 1
    ensures Pieces(base, front + [last]) == Pieces(base, front) + [Input(base + Total(front), 0, last.opcode, last.frags[0])]
  {
    assert (front + [last])[..|front|] == front;
    var added := seq(1, f requires 0 <= f < 1 => Piece(base + Total(front), last, f));
    assert added == [Piece(base + Total(front), last, 0)];
  }

  lemma PairNext(base: nat, front: seq<Packet>, last: Packet)
    requires |last.frags| == 2
    ensures Total(front + [last]) == Total(front) + 2
    ensures Pieces(base, front + [last]) == Pieces(base, front) + [Input(base + Total(front), 2, last.opcode, last.frags[0])]
                                            + [Input(base + Total(front) + 1, 2, 0, last.frags[1])]
  {
    assert (front + [last])[..|front|] == front;
    var added := seq(2, f requires 0 <= f < 2 => Piece(base + Total(front), last, f));
    assert added == [Piece(base + Total(front), last, 0), Piece(base + Total(front), last, 1)];
  }

  lemma OvertakenPieces()
    ensures IsStream(1, OVERTAKEN)
    ensures Pieces(1, OVERTAKEN) == [Input(1, 0, 1, []), Input(2, 0, 2, []), Input(3, 2, 3, []), Input(4, 2, 0, [])]
  {
    var (a, b, c) := (Packet(1, [[]]), Packet(2, [[]]), Packet(3, [[], []]));
    assert Total([]) == 0 && Pieces(1, []) == [];
    hide Total, Pieces;
    LoneNext(1, [], a);
    assert [] + [a] == [a] && [] + [Input(1, 0, 1, [])] == [Input(1, 0, 1, [])];
    LoneNext(1, [a], b);
    assert [a] + [b] == [a, b];
    PairNext(1, [a, b], c);
    assert [a, b] + [c] == OVERTAKEN;
    assert [Input(1, 0, 1, [])] + [Input(2, 0, 2, [])] + [Input(3, 2, 3, [])] + [Input(4, 2, 0, [])]
           == [Input(1, 0, 1, []), Input(2, 0, 2, []), Input(3, 2, 3, []), Input(4, 2, 0, [])];
  }

  lemma ScanWakes(out: seq<Delivery>)
    ensures Settle(3, [Input(3, 2, 3, []), Input(2, 0, 2, [])], out).delivered == out + [Delivery(2, [])]
  {
    var stored := [Input(3, 2, 3, []), Input(2, 0, 2, [])];
    assert Scan(stored, 2, 1, 1, 3, out + [Delivery(2, [])]) == (1, 3, out + [Delivery(2, [])]);
    assert Scan(stored, 1, 1, 0, 3, out) == (1, 3, out + [Delivery(2, [])]);
  }

  /** Otherwise a packet can be handed over twice: lone packets 1 and 2 arrive out of order, 2 is sent again,
      and the first fragment of packet 3 wakes the copy of 2 that was left in the buffer. */
  lemma OvertakenIsRepeated()
    ensures IsStream(1, OVERTAKEN) && |Pieces(1, OVERTAKEN)| == 4
    ensures After(1, OVERTAKEN, [1, 0, 1, 2]).delivered == [Delivery(1, []), Delivery(2, []), Delivery(2, [])]
  {
    OvertakenPieces();
    hide Pieces, Total;
    var js := [1, 0, 1, 2];
    assert js[..3] == [1, 0, 1] && js[..3][..2] == [1, 0] && js[..3][..2][..1] == [1];
    var two := Input(2, 0, 2, []);
    assert Expand([], 1) == [UNUSED, UNUSED] && [UNUSED, UNUSED][1 := two] == [UNUSED, two];
    assert After(1, OVERTAKEN, [1]) == Rx(1, [UNUSED, two], []);
    assert After(1, OVERTAKEN, [1, 0]) == Rx(2, [UNUSED, two], [Delivery(1, [])]);
    assert After(1, OVERTAKEN, [1, 0, 1]) == Rx(3, [UNUSED, two], [Delivery(1, []), Delivery(2, [])]);
    assert Expand([UNUSED, two], 0)[0 := Input(3, 2, 3, [])] == [Input(3, 2, 3, []), two];
    ScanWakes([Delivery(1, []), Delivery(2, [])]);
  }
}
