/**
  The full path of a Trilogy packet: fragmented in place, framed backwards fragment by fragment, parsed and
  reassembled.
 */
module TrilogyPath {
  import opened Reassembly
  import opened PacketTrilogy
  import opened TrilogyWire

  // ----- What the sender takes for fragment k

  /** The payload bytes before fragment k: the first fragment shares its room with the opcode. */
  function Offset(k: nat): nat { if k == 0 then 0 else SPACE * k - 2 }

  /** Where the sender expects the payload of fragment k. */
  function Position(k: nat): nat { Offset(k) + HEADER + (HEADER + CRC) * k }

  function Room(k: nat): nat { if k == 0 then SPACE - 2 else SPACE }

  function PartLength(length: nat, k: nat): nat {
    if length - Offset(k) > Room(k) then Room(k) else if length >= Offset(k) then length - Offset(k) else 0
  }

  ghost function Part(data: seq<Byte>, length: nat, k: nat): seq<Byte> {
    if Position(k) + PartLength(length, k) <= |data| then data[Position(k)..Position(k) + PartLength(length, k)] else []
  }

  /** The fragments that the sender reads lie in the buffer, one behind the other. */
  lemma PartFits(length: nat, k: nat)
    requires k <= FragCount(length)
    ensures Position(k) + PartLength(length, k) + CRC <= RawLength(length) && length >= Offset(k)
    ensures k < FragCount(length) ==> PartLength(length, k) == Room(k) && Position(k + 1) == Position(k) + Room(k) + CRC + HEADER
  {
    CountIsQuotient(length);
    hide FragCount;
  }

  /** The last fragment has room for the rest exactly if the length is exact. */
  lemma LastPart(length: nat)
    ensures var n := FragCount(length);
            && (Exact(length) <==> Offset(n) + PartLength(length, n) == length)
            && Offset(n) + PartLength(length, n) <= length
  {
    var n := FragCount(length);
    if length > SPACE {
      CountIsQuotient(length);
      Remainder(length, n, length - SPACE * n);
    }
    hide FragCount;
  }

  /** Frame k carries part k of the buffer; only the first carries the ack response. */
  ghost predicate FrameOk(crc: seq<Byte> -> nat, frame: seq<Byte>, w: Wrapper, opcode: U16, ackResponse: U16, sequence: U16, k: U16, part: seq<Byte>) {
    frame == Frame(crc, w, opcode, if k == 0 then ackResponse else 0, (sequence + k) % 0x10000, k, part)
  }

  ghost predicate FramesOk(crc: seq<Byte> -> nat, frames: seq<seq<Byte>>, w: Wrapper, opcode: U16, ackResponse: U16, sequence: U16,
                           parts: seq<seq<Byte>>) {
    && |frames| == |parts| < 0x10000
    && forall k :: 0 <= k < |frames| ==> FrameOk(crc, frames[k], w, opcode, ackResponse, sequence, k, parts[k])
  }

  /** The parts that the sender reads, up to a given fragment. */
  ghost function Parts(data: seq<Byte>, length: nat, n: nat): (r: seq<seq<Byte>>)
    ensures |r| == n
  {
    if n == 0 then [] else Parts(data, length, n - 1) + [Part(data, length, n - 1)]
  }

  lemma SameBehind(now: seq<Byte>, was: seq<Byte>, cursor: nat, at: nat, size: nat)
    requires |now| == |was| && cursor <= at && at + size <= |was| && now[cursor..] == was[cursor..]
    ensures now[at..at + size] == was[at..at + size] && now[at + size..] == was[at + size..]
  {
    SliceOfSuffix(now, cursor, at - cursor, size);
    SliceOfSuffix(was, cursor, at - cursor, size);
  }

  /** The sending loop of network_client_trilogy_send_queued for a packet sent from its first fragment. */
  method SendPacket(crc: seq<Byte> -> nat, buffer: array<Byte>, length: nat, w: Wrapper, opcode: U16, ackResponse: U16, sequence: U16)
    returns (frames: seq<seq<Byte>>)
    requires buffer.Length == RawLength(length) && w.fragCount == FragCount(length) + 1
    modifies buffer
    ensures FramesOk(crc, frames, w, opcode, ackResponse, sequence, Parts(old(buffer[..]), length, w.fragCount))
  {
    hide FragCount, RawLength, Position, Frame, Offset, Room, PartLength, OnTheWire;
    frames := [];
    var cursor, dataLength := 0, length as int;
    var response := ackResponse;
    ghost var was := buffer[..];
    Starts();
    for index := 0 to w.fragCount
      invariant response == (if index == 0 then ackResponse else 0)
      invariant dataLength == length - Offset(index)
      invariant index < w.fragCount ==> cursor + HEADER == Position(index)
      invariant 0 <= cursor <= buffer.Length && buffer[..][cursor..] == was[cursor..]
      invariant FramesOk(crc, frames, w, opcode, ackResponse, sequence, Parts(was, length, index))
    {
      PartFits(length, index);
      PartSize(length, index);
      var space := Room(index);
      var size := if dataLength > space then space else dataLength;
      SameBehind(buffer[..], was, cursor, cursor + HEADER, size + CRC);
      SameBehind(buffer[..], was, cursor, cursor + HEADER, size);
      cursor := cursor + HEADER;
      var frame;
      frame, cursor := SendFragment(crc, buffer, cursor, size, w, opcode, response, (sequence + index) % 0x10000, index);
      assert FrameOk(crc, frame, w, opcode, ackResponse, sequence, index, Part(was, length, index));
      frames := frames + [frame];
      response := 0;
      dataLength := dataLength - space;
      hide FrameOk;
    }
  }

  lemma Starts()
    ensures Position(0) == HEADER && Offset(0) == 0
  {
  }

  lemma PartSize(length: nat, k: nat)
    requires k <= FragCount(length)
    ensures PartLength(length, k) == if length - Offset(k) > Room(k) then Room(k) else length - Offset(k)
    ensures Offset(k + 1) == Offset(k) + Room(k)
  {
    PartFits(length, k);
  }

  // ----- The fragments of an exact length hold the payload

  /** The buffer after packet_trilogy_fragmentize. */
  ghost predicate Fragmented(data: seq<Byte>, was: seq<Byte>, length: nat) {
    && |data| == |was| == RawLength(length) && HEADER + length <= |was|
    && MovedFrom(data, was, length, 1)
    && var keep := if FragCount(length) == 0 then |was| else HEADER + Stay(length);
       0 <= keep <= |was| && data[..keep] == was[..keep]
  }

  /** Fragment k of a fragmented buffer is the payload's own part k. */
  lemma PartOfPayload(data: seq<Byte>, was: seq<Byte>, length: nat, k: nat)
    requires Fragmented(data, was, length) && k <= FragCount(length) && Exact(length)
    ensures var (o, n) := (Offset(k), PartLength(length, k));
            o + n <= length && Position(k) + n <= |data| && Part(data, length, k) == was[HEADER + o..HEADER + o + n]
  {
    PartFits(length, k);
    if k == 0 {
      FirstPart(data, was, length);
    } else {
      LaterPart(data, was, length, k);
    }
  }

  lemma FirstPart(data: seq<Byte>, was: seq<Byte>, length: nat)
    requires Fragmented(data, was, length) && Exact(length)
    ensures var n := PartLength(length, 0);
            n <= length && Position(0) + n <= |data| && Part(data, length, 0) == was[HEADER..HEADER + n]
  {
    PartFits(length, 0);
    if length > SPACE { StayIff(length); }
    var keep := if FragCount(length) == 0 then |was| else HEADER + Stay(length);
    hide FragCount, RawLength, MovedFrom, Stay;
    var n := PartLength(length, 0);
    SliceOfPrefix(data, keep, HEADER, HEADER + n);
    SliceOfPrefix(was, keep, HEADER, HEADER + n);
  }

  lemma LaterPart(data: seq<Byte>, was: seq<Byte>, length: nat, k: nat)
    requires Fragmented(data, was, length) && 1 <= k <= FragCount(length) && Exact(length)
    ensures var (o, n) := (Offset(k), PartLength(length, k));
            o + n <= length && Position(k) + n <= |data| && Part(data, length, k) == was[HEADER + o..HEADER + o + n]
  {
    PartFits(length, k);
    StayIff(length);
    LastPart(length);
    Blocks(length, k);
    assert Moved(data, was, length, k);
    hide FragCount, RawLength, MovedFrom, Stay, Tail;
  }

  /** The payload bytes in the first n fragments. */
  function End(length: nat, n: nat): nat { if n == 0 then 0 else Offset(n - 1) + PartLength(length, n - 1) }

  lemma EndNext(length: nat, n: nat)
    requires n <= FragCount(length)
    ensures End(length, n) == Offset(n) && End(length, n + 1) == Offset(n) + PartLength(length, n)
    ensures Position(n) + PartLength(length, n) <= RawLength(length)
  {
    PartFits(length, n);
    if n > 0 { PartFits(length, n - 1); PartSize(length, n - 1); }
  }

  /** Exactly the payload is sent. */
  lemma {:induction false} PartsJoin(data: seq<Byte>, was: seq<Byte>, length: nat, n: nat)
    requires Fragmented(data, was, length) && n <= FragCount(length) + 1 && Exact(length)
    ensures End(length, n) <= length <= |was| - HEADER && Flatten(Parts(data, length, n)) == was[HEADER..HEADER + End(length, n)]
  {
    hide Fragmented, RawLength, Exact, FragCount, PartLength, Offset, Position, Part, Parts, Flatten;
    if n == 0 {
      NoParts(data, was, length);
    } else {
      EndNext(length, n - 1);
      PartsJoin(data, was, length, n - 1);
      PartOfPayload(data, was, length, n - 1);
      hide End;
      PartsNext(data, length, n);
      Adjoin(was, HEADER, HEADER + Offset(n - 1), HEADER + End(length, n));
    }
  }

  lemma NoParts(data: seq<Byte>, was: seq<Byte>, length: nat)
    requires Fragmented(data, was, length)
    ensures length <= |was| - HEADER && Flatten(Parts(data, length, 0)) == was[HEADER..HEADER]
  {
  }

  lemma PartsNext(data: seq<Byte>, length: nat, n: nat)
    requires n > 0
    ensures Flatten(Parts(data, length, n)) == Flatten(Parts(data, length, n - 1)) + Part(data, length, n - 1)
  {
    hide Part;
    FlattenNext(Parts(data, length, n - 1), Part(data, length, n - 1));
  }

  lemma Adjoin(s: seq<Byte>, a: nat, b: nat, c: nat)
    requires a <= b <= c <= |s|
    ensures s[a..b] + s[b..c] == s[a..c]
  {
  }

  lemma FlattenNext(frags: seq<seq<Byte>>, last: seq<Byte>)
    ensures Flatten(frags + [last]) == Flatten(frags) + last
  {
    assert (frags + [last])[..|frags|] == frags;
  }

  /** The number of payload bytes sent. */
  lemma {:induction false} PartsLength(data: seq<Byte>, length: nat, n: nat)
    requires |data| == RawLength(length) && n <= FragCount(length) + 1
    ensures |Flatten(Parts(data, length, n))| == End(length, n)
  {
    hide FragCount, RawLength, PartLength, Offset, Position, Parts, Flatten, Part;
    if n == 0 {
      FlattenNone(data, length);
    } else {
      EndNext(length, n - 1);
      PartsLength(data, length, n - 1);
      PartsNext(data, length, n);
      PartIs(data, length, n - 1);
    }
  }

  lemma FlattenNone(data: seq<Byte>, length: nat)
    ensures Flatten(Parts(data, length, 0)) == []
  {
  }

  lemma PartIs(data: seq<Byte>, length: nat, k: nat)
    requires Position(k) + PartLength(length, k) <= |data|
    ensures |Part(data, length, k)| == PartLength(length, k)
  {
    hide Position, PartLength;
  }

  /** packet_trilogy_fragmentize and the sending loop in sequence: the frames carry the payload if and only if
      its length is exact. */
  method Transmit(crc: seq<Byte> -> nat, buffer: array<Byte>, payload: seq<Byte>, w: Wrapper, opcode: U16, ackResponse: U16, sequence: U16)
    returns (frames: seq<seq<Byte>>, ghost parts: seq<seq<Byte>>)
    requires buffer.Length == RawLength(|payload|) && w.fragCount == FragCount(|payload|) + 1
    requires buffer[..][HEADER..HEADER + |payload|] == payload
    modifies buffer
    ensures FramesOk(crc, frames, w, opcode, ackResponse, sequence, parts) && |frames| == w.fragCount
    ensures Flatten(parts) == payload <==> |payload| == 0 || (|payload| % 512 != 0 && |payload| % 512 != 511)
    ensures |Flatten(parts)| <= |payload| && |parts[0]| == if |payload| < 510 then |payload| else 510
    ensures forall k :: 0 < k < |parts| ==> |parts[k]| == (if |payload| - (512 * k - 2) > 512 then 512 else |payload| - (512 * k - 2))
  {
    hide Flatten, MovedFrom, Stay, Offset, PartLength;
    var length := |payload|;
    ghost var was := buffer[..];
    Fragmentize(buffer, length);
    assert Fragmented(buffer[..], was, length);
    hide FragCount, RawLength, End;
    ghost var data := buffer[..];
    parts := Parts(data, length, w.fragCount);
    LastPart(length);
    hide Fragmented, Parts;
    PartsLength(data, length, w.fragCount);
    if Exact(length) { PartsJoin(data, was, length, w.fragCount); }
    EndNext(length, w.fragCount - 1);
    PartSizes(data, length, w.fragCount);
    frames := SendPacket(crc, buffer, length, w, opcode, ackResponse, sequence);
  }

  /** The first fragment carries up to 510 bytes of the payload, every later one up to 512. */
  lemma {:induction false} PartSizes(data: seq<Byte>, length: nat, n: nat)
    requires |data| == RawLength(length) && n <= FragCount(length) + 1
    ensures n > 0 ==> |Parts(data, length, n)[0]| == if length < 510 then length else 510
    ensures forall k :: 0 < k < n ==> |Parts(data, length, n)[k]| == (if length - (512 * k - 2) > 512 then 512 else length - (512 * k - 2))
  {
    if n > 0 {
      PartSizes(data, length, n - 1);
      EndNext(length, n - 1);
      PartIs(data, length, n - 1);
      PartSize(length, n - 1);
      hide FragCount, RawLength, Part, PartLength, Position, End;
    }
  }

  // ----- Arrival in order at an idle receiver

  /** The receiver after the frames have been parsed and handled one after the other. */
  ghost function Handled(crc: seq<Byte> -> nat, rx: Rx, frames: seq<seq<Byte>>): Rx {
    if frames == [] then rx
    else
      var rx' := Handled(crc, rx, frames[..|frames| - 1]);
      match Parse(crc, frames[|frames| - 1]).outcome
      case ToAckManager(piece) => Receive(rx', piece)
      case Direct(packet) => rx'.(delivered := rx'.delivered + [packet])
      case _ => rx'
  }

  ghost function Ascending(n: nat): (r: seq<nat>)
    ensures |r| == n && (forall k :: 0 <= k < n ==> r[k] == k) && Within(r, n)
  {
    seq(n, k requires 0 <= k => k)
  }

  lemma AscendingWithin(n: nat, m: nat)
    requires n <= m
    ensures Within(Ascending(n), m)
  {
  }

  lemma AscendingFront(n: nat)
    requires n > 0
    ensures Ascending(n)[..n - 1] == Ascending(n - 1)
  {
  }

  /** Of the first n numbers, those within the window. */
  ghost predicate IsFirst(seen: set<nat>, n: nat) { forall j: nat :: j in seen <==> j < n && j < WINDOW }

  lemma AcceptNext(rx: Rx, base: nat, seen: set<nat>, j: nat)
    requires rx.expected == base && IsFirst(seen, j)
    ensures IsFirst(Accepted(rx, base, seen, j), j + 1)
  {
  }

  /** While fragments of one packet arrive in order, only the first 1024 of them are accepted. */
  lemma {:induction false} InOrder(base: nat, p: Packet, n: nat)
    requires IsStream(base, [p]) && n <= |p.frags| && |Pieces(base, [p])| == |p.frags|
    ensures Within(Ascending(n), |p.frags|) && FairRun(base, [p], Ascending(n)) && IsFirst(SeenAfter(base, [p], Ascending(n)), n)
  {
    if n > 0 {
      hide Pieces, Tracks, IsStream, Fair, After, SeenAfter, FairRun, Ascending, Within, IsFirst, Accepted;
      var js := Ascending(n - 1);
      AscendingWithin(n, |p.frags|);
      InOrder(base, p, n - 1);
      var q := RunDeliversPrefix(base, [p], js);
      NotYet(SeenAfter(base, [p], js), n - 1);
      StillFirst(base, p, js, q, n - 1);
      FairNext(After(base, [p], js), base, p, n - 1);
      OneMore(base, p, n);
      AcceptNext(After(base, [p], js), base, SeenAfter(base, [p], js), n - 1);
    }
  }

  lemma NotYet(seen: set<nat>, n: nat)
    requires IsFirst(seen, n)
    ensures n !in seen
  {
  }

  lemma OneMore(base: nat, p: Packet, n: nat)
    requires 0 < n <= |p.frags| == |Pieces(base, [p])|
    ensures FairRun(base, [p], Ascending(n)) <==>
            FairRun(base, [p], Ascending(n - 1)) && Fair(After(base, [p], Ascending(n - 1)), base, [p], n - 1)
    ensures SeenAfter(base, [p], Ascending(n)) == Accepted(After(base, [p], Ascending(n - 1)), base, SeenAfter(base, [p], Ascending(n - 1)), n - 1)
  {
    hide Pieces, Fair, After, Accepted;
    AscendingFront(n);
  }

  /** The next fragment of a packet not yet handed over is fair. */
  lemma FairNext(rx: Rx, base: nat, p: Packet, j: nat)
    requires j < |p.frags| == |Pieces(base, [p])| && rx.expected == base && (j == 0 ==> rx.inputs == [])
    ensures Fair(rx, base, [p], j)
  {
    PieceAt(base, [p], 0, j);
    OnePacket(p);
    hide Pieces, Start;
  }

  /** Before its last fragment has arrived, the packet is not handed over. */
  lemma StillFirst(base: nat, p: Packet, js: seq<nat>, q: nat, j: nat)
    requires IsStream(base, [p]) && Within(js, |Pieces(base, [p])|)
    requires Tracks(After(base, [p], js), base, [p], SeenAfter(base, [p], js), q) && j < |p.frags|
    requires j !in SeenAfter(base, [p], js)
    ensures q == 0 && After(base, [p], js).expected == base && After(base, [p], js).delivered == []
  {
    hide After, SeenAfter, Pieces, BufferOk;
    OnePacket(p);
  }

  lemma OnePacket(p: Packet)
    ensures Start([p], 0) == 0 && Start([p], 1) == |p.frags| == Total([p])
  {
    assert [p][..0] == [] && [p][..1] == [p];
  }

  /** One packet, all fragments in order: it is handed over if and only if it has at most 1024. */
  lemma InOrderDelivers(base: nat, p: Packet)
    requires IsStream(base, [p]) && |Pieces(base, [p])| == |p.frags|
    ensures After(base, [p], Ascending(|p.frags|)).delivered == if |p.frags| <= 1024 then [Whole(p)] else []
  {
    var n := |p.frags|;
    var js := Ascending(n);
    InOrder(base, p, n);
    OnePacket(p);
    hide After, SeenAfter, Pieces, FairRun, Flatten;
    if n <= WINDOW {
      AllAcceptedAllDelivered(base, [p], js);
      assert Wholes([p]) == [Whole(p)];
    } else {
      var q := RunDeliversPrefix(base, [p], js);
      StillFirst(base, p, js, q, WINDOW);
    }
  }

  /** The packet that the receiver makes of the parts: a packet without an opcode gives two bytes of payload for one. */
  ghost function Read(opcode: U16, parts: seq<seq<Byte>>): Packet
    requires parts != []
  {
    Packet(ReadOpcode(opcode, 0, parts[0]), parts[0 := ReadData(opcode, 0, parts[0])])
  }

  /** The frames of one packet arrive as the pieces of a stream of one packet. */
  lemma {:induction false} HandledIsAfter(crc: seq<Byte> -> nat, frames: seq<seq<Byte>>, w: Wrapper, opcode: U16, ackResponse: U16, sequence: U16,
                                          parts: seq<seq<Byte>>, n: nat)
    requires Scheduled(w) && w.header != PLAIN && w.fragCount == |parts|
    requires FramesOk(crc, frames, w, opcode, ackResponse, sequence, parts) && n <= |frames|
    requires |Pieces(w.ackRequest, [Read(opcode, parts)])| == |parts|
    ensures Handled(crc, Rx(w.ackRequest, [], []), frames[..n]) == After(w.ackRequest, [Read(opcode, parts)], Ascending(n))
  {
    hide Parse, Frame, Receive;
    var p := Read(opcode, parts);
    if n > 0 {
      HandledIsAfter(crc, frames, w, opcode, ackResponse, sequence, parts, n - 1);
      assert frames[..n][..n - 1] == frames[..n - 1];
      AscendingFront(n);
      OnePacket(p);
      assert FrameOk(crc, frames[n - 1], w, opcode, ackResponse, sequence, n - 1, parts[n - 1]);
      FrameParses(crc, w, opcode, if n == 1 then ackResponse else 0, (sequence + (n - 1)) % 0x10000, n - 1, parts[n - 1]);
      PieceAt(w.ackRequest, [p], 0, n - 1);
      hide Pieces, Start;
      assert Parse(crc, frames[n - 1]).outcome == ToAckManager(Pieces(w.ackRequest, [p])[n - 1]);
    }
  }

  /** Changing the first part changes the length by as much. */
  lemma {:induction false} FlattenFirst(parts: seq<seq<Byte>>, first: seq<Byte>)
    requires parts != []
    ensures |Flatten(parts[0 := first])| == |Flatten(parts)| - |parts[0]| + |first|
  {
    var parts' := parts[0 := first];
    var (front, front') := (parts[..|parts| - 1], parts'[..|parts| - 1]);
    if |parts| > 1 {
      FlattenFirst(front, first);
      assert front[0 := first] == front';
    } else {
      assert front == [] && front' == [];
    }
  }

  /** The receiver reads what was sent exactly if there is an opcode, or too little payload to be taken for one. */
  lemma ReadIsSent(opcode: U16, parts: seq<seq<Byte>>, payload: seq<Byte>)
    requires parts != [] && |Flatten(parts)| <= |payload| && |parts[0]| == if |payload| < SPACE - 2 then |payload| else SPACE - 2
    ensures Whole(Read(opcode, parts)) == Delivery(opcode, payload) <==> Flatten(parts) == payload && (opcode != 0 || |payload| < 2)
  {
    hide Flatten, FromLittle;
    FlattenFirst(parts, ReadData(opcode, 0, parts[0]));
    assert parts[0 := parts[0]] == parts;
  }

  /** A packet survives the full path, from an empty buffer, if and only if its length is exact and needs at most
      1024 fragments, and it has an opcode or, with an ack request, less than two bytes of payload. */
  method SendAndReceive(crc: seq<Byte> -> nat, buffer: array<Byte>, payload: seq<Byte>, w: Wrapper, opcode: U16, ackResponse: U16, sequence: U16)
    returns (ghost rx: Rx)
    requires buffer.Length == RawLength(|payload|) && w.fragCount == FragCount(|payload|) + 1
    requires buffer[..][HEADER..HEADER + |payload|] == payload
    requires Scheduled(w)
    modifies buffer
    ensures rx.delivered == [Delivery(opcode, payload)] <==>
            && (|payload| == 0 || (|payload| % 512 != 0 && |payload| % 512 != 511))
            && w.fragCount <= 1024 && (opcode != 0 || (w.header != PLAIN && |payload| < 2))
  {
    hide FragCount, RawLength, Flatten, Handled, Read, Whole;
    var frames, parts := Transmit(crc, buffer, payload, w, opcode, ackResponse, sequence);
    rx := Handled(crc, Rx(w.ackRequest, [], []), frames);
    ReadIsSent(opcode, parts, payload);
    Received(crc, frames, w, opcode, ackResponse, sequence, parts);
  }

  /** What the receiver makes of the frames of one packet. */
  lemma Received(crc: seq<Byte> -> nat, frames: seq<seq<Byte>>, w: Wrapper, opcode: U16, ackResponse: U16, sequence: U16, parts: seq<seq<Byte>>)
    requires Scheduled(w) && w.fragCount == |parts| && FramesOk(crc, frames, w, opcode, ackResponse, sequence, parts)
    ensures Handled(crc, Rx(w.ackRequest, [], []), frames).delivered
            == if |parts| <= 1024 && (w.header == PLAIN ==> ReadOpcode(opcode, 0, parts[0]) != 0) then [Whole(Read(opcode, parts))] else []
  {
    hide Flatten, FromLittle;
    assert frames[..|frames|] == frames;
    var p := Read(opcode, parts);
    if w.header == PLAIN {
      LoneFrame(crc, frames, w, opcode, ackResponse, sequence, parts);
    } else {
      OnePacket(p);
      PiecesLength(w.ackRequest, [p]);
      HandledIsAfter(crc, frames, w, opcode, ackResponse, sequence, parts, |frames|);
      InOrderDelivers(w.ackRequest, p);
    }
  }

  /** A packet without ack request needs no buffer; without an opcode read it is dropped. */
  lemma LoneFrame(crc: seq<Byte> -> nat, frames: seq<seq<Byte>>, w: Wrapper, opcode: U16, ackResponse: U16, sequence: U16, parts: seq<seq<Byte>>)
    requires Scheduled(w) && w.header == PLAIN && w.fragCount == |parts|
    requires FramesOk(crc, frames, w, opcode, ackResponse, sequence, parts)
    ensures Handled(crc, Rx(w.ackRequest, [], []), frames).delivered
            == if Read(opcode, parts).opcode != 0 then [Whole(Read(opcode, parts))] else []
  {
    hide Parse, Frame, FromLittle;
    assert FrameOk(crc, frames[0], w, opcode, ackResponse, sequence, 0, parts[0]);
    FrameParses(crc, w, opcode, ackResponse, sequence % 0x10000, 0, parts[0]);
    FlattenOne(Read(opcode, parts).frags);
    assert frames[..0] == [];
  }
}
