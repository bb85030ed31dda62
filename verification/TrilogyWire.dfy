/**
  Frames of the Trilogy protocol: written backwards from the opcode (`network_client_trilogy.c`) and parsed
  forwards (`protocol_handler_trilogy.c`).  The checksum is a parameter.
 */
module TrilogyWire {
  import opened Wrappers
  import opened Reassembly

  const HAS_ACK_REQUEST: nat := 0x2
  const IS_CLOSING: nat := 0x4
  const IS_FRAGMENT: nat := 0x8
  const HAS_ACK_COUNTER: nat := 0x10
  const IS_FIRST: nat := 0x20
  const IS_CLOSING2: nat := 0x40
  const HAS_ACK_RESPONSE: nat := 0x400

  type U16 = v: nat | v < 0x10000

  /** OutputPacketTrilogy, without its packet. */
  datatype Wrapper = Wrapper(header: U16, ackRequest: U16, fragGroup: U16, fragCount: U16, alwaysOne: Byte, counter: Byte)

  // ----- Numbers as bytes

  predicate HasBit(header: nat, bit: nat)
    requires bit > 0
  {
    header / bit % 2 == 1
  }

  function Little(v: U16): (r: seq<Byte>)
    ensures |r| == 2
  {
    [v % 256, v / 256]
  }

  function FromLittle(s: seq<Byte>): U16
    requires |s| >= 2
  {
    (s[0] as nat) + 256 * (s[1] as nat)
  }

  /** toNetworkUint16 and toHostUint16 on a little-endian machine */
  function Swapped(v: U16): U16 { v % 256 * 256 + v / 256 }

  function Little32(v: nat): (r: seq<Byte>)
    ensures |r| == 4
  {
    [v % 256, v / 256 % 256, v / 65536 % 256, v / 16777216 % 256]
  }

  lemma SwappedTwice(v: U16)
    ensures Swapped(Swapped(v)) == v
  {
    TwoDigits(v % 256, v / 256);
  }

  lemma TwoDigits(high: nat, low: nat)
    requires low < 256
    ensures (high * 256 + low) / 256 == high && (high * 256 + low) % 256 == low
  {
  }

  lemma LittleRead(v: U16, rest: seq<Byte>)
    ensures FromLittle(Little(v) + rest) == v && (Little(v) + rest)[2..] == rest
  {
  }

  // ----- Frames

  /** The fields before the payload, in the order of their bytes. */
  function Head(w: Wrapper, opcode: U16, ackResponse: U16, sequence: U16, index: U16): seq<Byte>
  {
    Little(Flags(w, ackResponse)) + (Little(Swapped(sequence)) + AfterSequence(w, opcode, ackResponse, index))
  }

  function Flags(w: Wrapper, ackResponse: U16): U16 {
    if ackResponse != 0 && !HasBit(w.header, HAS_ACK_RESPONSE) then w.header + HAS_ACK_RESPONSE else w.header
  }

  function AfterSequence(w: Wrapper, opcode: U16, ackResponse: U16, index: U16): seq<Byte> {
    (if ackResponse != 0 then Little(ackResponse) else []) + AfterResponse(w, opcode, index)
  }

  function AfterResponse(w: Wrapper, opcode: U16, index: U16): seq<Byte> {
    (if HasBit(w.header, HAS_ACK_REQUEST) then Little(Swapped((w.ackRequest + index) % 0x10000)) else []) + AfterRequest(w, opcode, index)
  }

  function AfterRequest(w: Wrapper, opcode: U16, index: U16): seq<Byte> {
    (if HasBit(w.header, IS_FRAGMENT) then
       Little(Swapped(w.fragGroup)) + (Little(Swapped(index)) + (Little(Swapped(w.fragCount)) + AfterFragment(w, opcode, index)))
     else AfterFragment(w, opcode, index))
  }

  function AfterFragment(w: Wrapper, opcode: U16, index: U16): seq<Byte> {
    (if HasBit(w.header, HAS_ACK_REQUEST) then [w.alwaysOne, (w.counter + index) % 256] else []) + AfterCounters(opcode, index)
  }

  function AfterCounters(opcode: U16, index: U16): seq<Byte> {
    if index == 0 && opcode != 0 then Little(opcode) else []
  }

  /** The fields before the payload, byte by byte: flags low byte first, numbers of the protocol high byte first, the
      opcode low byte first.  The ack response is given as it goes out. */
  lemma HeadBytes(w: Wrapper, opcode: U16, ackResponse: U16, sequence: U16, index: U16)
    ensures var flags := w.header + (if ackResponse != 0 && w.header / 0x400 % 2 == 0 then 0x400 else 0);
            var (asks, request) := (w.header / 2 % 2 == 1, (w.ackRequest + index) % 0x10000);
            Head(w, opcode, ackResponse, sequence, index)
            == [flags % 256, flags / 256, sequence / 256, sequence % 256]
               + ((if ackResponse != 0 then [ackResponse % 256, ackResponse / 256] else [])
                  + ((if asks then [request / 256, request % 256] else [])
                     + ((if w.header / 8 % 2 == 1 then
                           [w.fragGroup / 256, w.fragGroup % 256, index / 256, index % 256, w.fragCount / 256, w.fragCount % 256]
                         else [])
                        + ((if asks then [w.alwaysOne, (w.counter + index) % 256] else [])
                           + (if index == 0 && opcode != 0 then [opcode % 256, opcode / 256] else [])))))
  {
    AfterResponseBytes(w, opcode, index);
    FlagsBytes(w, ackResponse);
    NetworkBytes(sequence);
    LittleBytes(ackResponse);
    hide Swapped, Little, Flags, HasBit, AfterResponse;
  }

  lemma AfterResponseBytes(w: Wrapper, opcode: U16, index: U16)
    ensures var asks := w.header / 2 % 2 == 1;
            var request := (w.ackRequest + index) % 0x10000;
            AfterResponse(w, opcode, index)
            == (if asks then [request / 256, request % 256] else [])
               + ((if w.header / 8 % 2 == 1 then
                     [w.fragGroup / 256, w.fragGroup % 256, index / 256, index % 256, w.fragCount / 256, w.fragCount % 256]
                   else [])
                  + ((if asks then [w.alwaysOne, (w.counter + index) % 256] else [])
                     + (if index == 0 && opcode != 0 then [opcode % 256, opcode / 256] else [])))
  {
    NetworkBytes((w.ackRequest + index) % 0x10000);
    NetworkBytes(w.fragGroup);
    NetworkBytes(index);
    NetworkBytes(w.fragCount);
    LittleBytes(opcode);
    hide Swapped, Little;
  }

  lemma LittleBytes(v: U16)
    ensures Little(v) == [v % 256, v / 256]
  {
  }

  lemma NetworkBytes(v: U16)
    ensures Little(Swapped(v)) == [v / 256, v % 256]
  {
  }

  lemma FlagsBytes(w: Wrapper, ackResponse: U16)
    ensures var flags := w.header + (if ackResponse != 0 && w.header / 0x400 % 2 == 0 then 0x400 else 0);
            Little(Flags(w, ackResponse)) == [flags % 256, flags / 256]
  {
  }

  function Frame(crc: seq<Byte> -> nat, w: Wrapper, opcode: U16, ackResponse: U16, sequence: U16, index: U16, data: seq<Byte>): seq<Byte> {
    var body := Head(w, opcode, ackResponse, sequence, index) + data;
    body + Little32(crc(body))
  }

  /** A frame, byte by byte: the fields, the payload, and the checksum of both, low byte first. */
  ghost predicate OnTheWire(crc: seq<Byte> -> nat, frame: seq<Byte>, w: Wrapper, opcode: U16, ackResponse: U16, sequence: U16, index: U16,
                            data: seq<Byte>) {
    var flags := w.header + (if ackResponse != 0 && w.header / 0x400 % 2 == 0 then 0x400 else 0);
    var (asks, request) := (w.header / 2 % 2 == 1, (w.ackRequest + index) % 0x10000);
    var head: seq<nat> := [flags % 256, flags / 256, sequence / 256, sequence % 256]
               + ((if ackResponse != 0 then [ackResponse % 256, ackResponse / 256] else [])
                  + ((if asks then [request / 256, request % 256] else [])
                     + ((if w.header / 8 % 2 == 1 then
                           [w.fragGroup / 256, w.fragGroup % 256, index / 256, index % 256, w.fragCount / 256, w.fragCount % 256]
                         else [])
                        + ((if asks then [w.alwaysOne, (w.counter + index) % 256] else [])
                           + (if index == 0 && opcode != 0 then [opcode % 256, opcode / 256] else [])))));
    && |frame| >= 4 && frame[..|frame| - 4] == head + data
    && var sum := crc(frame[..|frame| - 4]);
       frame[|frame| - 4..] == [sum % 256, sum / 256 % 256, sum / 65536 % 256, sum / 16777216 % 256]
  }

  lemma FrameIsOnTheWire(crc: seq<Byte> -> nat, w: Wrapper, opcode: U16, ackResponse: U16, sequence: U16, index: U16, data: seq<Byte>)
    ensures OnTheWire(crc, Frame(crc, w, opcode, ackResponse, sequence, index, data), w, opcode, ackResponse, sequence, index, data)
  {
    HeadBytes(w, opcode, ackResponse, sequence, index);
    hide Head;
  }

  // ----- Writing backwards

  /** aligned_write_reverse_uint16, and its effect on what lies before `end`. */
  method ReverseU16(buffer: array<Byte>, cursor: nat, v: U16, ghost end: nat) returns (cursor': nat)
    requires 2 <= cursor <= end <= buffer.Length
    modifies buffer
    ensures cursor' == cursor - 2
    ensures buffer[cursor'..end] == Little(v) + old(buffer[cursor..end])
    ensures buffer[..cursor'] == old(buffer[..cursor']) && buffer[end..] == old(buffer[end..])
  {
    buffer[cursor - 2] := v % 256;
    buffer[cursor - 1] := v / 256;
    cursor' := cursor - 2;
  }

  /** aligned_write_reverse_uint8 */
  method ReverseU8(buffer: array<Byte>, cursor: nat, v: Byte, ghost end: nat) returns (cursor': nat)
    requires 1 <= cursor <= end <= buffer.Length
    modifies buffer
    ensures cursor' == cursor - 1
    ensures buffer[cursor'..end] == [v] + old(buffer[cursor..end])
    ensures buffer[..cursor'] == old(buffer[..cursor']) && buffer[end..] == old(buffer[end..])
  {
    buffer[cursor - 1] := v;
    cursor' := cursor - 1;
  }

  /** The bytes after `from` are those that were there, behind a head that grew from nothing. */
  ghost predicate Written(now: seq<Byte>, was: seq<Byte>, cursor: nat, at: nat, end: nat, head: seq<Byte>) {
    && |now| == |was| && cursor <= at <= end <= |was| && cursor + |head| == at
    && now[cursor..end] == head + was[at..end]
    && now[..cursor] == was[..cursor] && now[end..] == was[end..]
  }

  lemma WrittenMore(before: seq<Byte>, now: seq<Byte>, was: seq<Byte>, cursor: nat, cursor': nat, at: nat, end: nat, head: seq<Byte>, more: seq<Byte>)
    requires Written(before, was, cursor, at, end, head) && |now| == |was| && cursor' + |more| == cursor
    requires now[cursor'..end] == more + before[cursor..end] && now[..cursor'] == before[..cursor'] && now[end..] == before[end..]
    ensures Written(now, was, cursor', at, end, more + head)
  {
    assert more + before[cursor..end] == (more + head) + was[at..end];
    assert before[..cursor'] == before[..cursor][..cursor'] && was[..cursor'] == was[..cursor][..cursor'];
  }

  method PrependU16(buffer: array<Byte>, cursor: nat, v: U16, ghost was: seq<Byte>, ghost at: nat, ghost end: nat, ghost head: seq<Byte>)
    returns (cursor': nat)
    requires Written(buffer[..], was, cursor, at, end, head) && cursor >= 2
    modifies buffer
    ensures cursor' == cursor - 2 && Written(buffer[..], was, cursor', at, end, Little(v) + head)
  {
    hide Little;
    ghost var before := buffer[..];
    cursor' := ReverseU16(buffer, cursor, v, end);
    assert before[cursor..end] == old(buffer[cursor..end]);
    WrittenMore(before, buffer[..], was, cursor, cursor', at, end, head, Little(v));
  }

  method PrependU8(buffer: array<Byte>, cursor: nat, v: Byte, ghost was: seq<Byte>, ghost at: nat, ghost end: nat, ghost head: seq<Byte>)
    returns (cursor': nat)
    requires Written(buffer[..], was, cursor, at, end, head) && cursor >= 1
    modifies buffer
    ensures cursor' == cursor - 1 && Written(buffer[..], was, cursor', at, end, [v] + head)
  {
    ghost var before := buffer[..];
    cursor' := ReverseU8(buffer, cursor, v, end);
    assert before[cursor..end] == old(buffer[cursor..end]);
    WrittenMore(before, buffer[..], was, cursor, cursor', at, end, head, [v]);
  }

  /** The header fields, written backwards from the payload at `at`. */
  method WriteHead(buffer: array<Byte>, at: nat, w: Wrapper, opcode: U16, ackResponse: U16, sequence: U16, index: U16, ghost end: nat)
    returns (cursor: nat)
    requires 18 <= at <= end <= buffer.Length
    modifies buffer
    ensures at - 18 <= cursor && Written(buffer[..], old(buffer[..]), cursor, at, end, Head(w, opcode, ackResponse, sequence, index))
  {
    hide Written, Little, Swapped, HasBit;
    ghost var was := buffer[..];
    cursor := at;
    ghost var head: seq<Byte> := [];
    assert Written(buffer[..], was, cursor, at, end, head) by { WrittenNothing(was, at, end); }
    if index == 0 && opcode != 0 {
      cursor := PrependU16(buffer, cursor, opcode, was, at, end, head);
      assert Little(opcode) + head == Little(opcode);
    }
    head := AfterCounters(opcode, index);
    if HasBit(w.header, HAS_ACK_REQUEST) {
      cursor := PrependU8(buffer, cursor, (w.counter + index) % 256, was, at, end, head);
      cursor := PrependU8(buffer, cursor, w.alwaysOne, was, at, end, [(w.counter + index) % 256] + head);
      assert [w.alwaysOne] + ([(w.counter + index) % 256] + head) == AfterFragment(w, opcode, index);
    } else {
      assert [] + head == head;
    }
    head := AfterFragment(w, opcode, index);
    if HasBit(w.header, IS_FRAGMENT) {
      cursor := PrependU16(buffer, cursor, Swapped(w.fragCount), was, at, end, head);
      cursor := PrependU16(buffer, cursor, Swapped(index), was, at, end, Little(Swapped(w.fragCount)) + head);
      cursor := PrependU16(buffer, cursor, Swapped(w.fragGroup), was, at, end, Little(Swapped(index)) + (Little(Swapped(w.fragCount)) + head));
    }
    head := AfterRequest(w, opcode, index);
    if HasBit(w.header, HAS_ACK_REQUEST) {
      cursor := PrependU16(buffer, cursor, Swapped((w.ackRequest + index) % 0x10000), was, at, end, head);
    } else {
      assert [] + head == head;
    }
    head := AfterResponse(w, opcode, index);
    if ackResponse != 0 {
      cursor := PrependU16(buffer, cursor, ackResponse, was, at, end, head);
    } else {
      assert [] + head == head;
    }
    head := AfterSequence(w, opcode, ackResponse, index);
    cursor := PrependU16(buffer, cursor, Swapped(sequence), was, at, end, head);
    cursor := PrependU16(buffer, cursor, Flags(w, ackResponse), was, at, end, Little(Swapped(sequence)) + head);
  }

  lemma WrittenNothing(was: seq<Byte>, at: nat, end: nat)
    requires at <= end <= |was|
    ensures Written(was, was, at, at, end, [])
  {
  }

  /** network_client_trilogy_send_fragment: the frame is the head, the payload as it was, and the checksum of both. */
  method SendFragment(crc: seq<Byte> -> nat, buffer: array<Byte>, at: nat, size: nat, w: Wrapper, opcode: U16, ackResponse: U16,
                      sequence: U16, index: U16) returns (frame: seq<Byte>, cursor: nat)
    requires 18 <= at && at + size + 4 <= buffer.Length
    modifies buffer
    ensures cursor == at + size + 4
    ensures frame == Frame(crc, w, opcode, ackResponse, sequence, index, old(buffer[..])[at..at + size])
    ensures OnTheWire(crc, frame, w, opcode, ackResponse, sequence, index, old(buffer[..])[at..at + size])
    ensures buffer[..][cursor..] == old(buffer[..])[cursor..]
  {
    FrameIsOnTheWire(crc, w, opcode, ackResponse, sequence, index, buffer[..][at..at + size]);
    hide Head, Little32, OnTheWire;
    var end := at + size;
    var start := WriteHead(buffer, at, w, opcode, ackResponse, sequence, index, end);
    ghost var was, now := old(buffer[..]), buffer[..];
    var body := buffer[start..end];
    assert body == Head(w, opcode, ackResponse, sequence, index) + was[at..end];
    cursor := WriteU32(buffer, end, crc(body));
    frame := buffer[start..cursor];
    Spliced(now, buffer[..], start, end, Little32(crc(body)));
    TailOfTail(now, was, end, 4);
  }

  /** aligned_write_uint32 */
  method WriteU32(buffer: array<Byte>, cursor: nat, v: nat) returns (cursor': nat)
    requires cursor + 4 <= buffer.Length
    modifies buffer
    ensures cursor' == cursor + 4
    ensures buffer[..] == old(buffer[..])[..cursor] + Little32(v) + old(buffer[..])[cursor + 4..]
  {
    var bytes := Little32(v);
    buffer[cursor] := bytes[0];
    buffer[cursor + 1] := bytes[1];
    buffer[cursor + 2] := bytes[2];
    buffer[cursor + 3] := bytes[3];
    cursor' := cursor + 4;
  }

  lemma Spliced(before: seq<Byte>, after: seq<Byte>, start: nat, end: nat, bytes: seq<Byte>)
    requires start <= end && end + |bytes| <= |before| && after == before[..end] + bytes + before[end + |bytes|..]
    ensures after[start..end + |bytes|] == before[start..end] + bytes
    ensures after[end + |bytes|..] == before[end + |bytes|..]
  {
  }

  lemma TailOfTail(a: seq<Byte>, b: seq<Byte>, end: nat, n: nat)
    requires |a| == |b| && end + n <= |a| && a[end..] == b[end..]
    ensures a[end + n..] == b[end + n..]
  {
    assert a[end + n..] == a[end..][n..] && b[end + n..] == b[end..][n..];
  }

  // ----- Parsing

  /** What the handler does with a frame after the acknowledgements in it. */
  datatype Outcome = Nothing | Thrown | Closing(ack: U16) | ToAckManager(piece: Input) | Direct(packet: Delivery)

  datatype Parsed = Parsed(response: Option<U16>, request: Option<(U16, bool)>, outcome: Outcome)

  /** protocol_handler_trilogy_recv; the cursor is what is left to read. */
  function Parse(crc: seq<Byte> -> nat, frame: seq<Byte>): Parsed {
    if |frame| < 10 then Parsed(None, None, Nothing)
    else
      var body := frame[..|frame| - 4];
      if frame[|frame| - 4..] != Little32(crc(body)) then Parsed(None, None, Nothing)
      else ParseResponse(FromLittle(body), body[4..])
  }

  function ParseResponse(header: U16, s: seq<Byte>): Parsed
    requires |s| >= 2
  {
    if HasBit(header, HAS_ACK_RESPONSE) then
      var response := Some(Swapped(FromLittle(s)));
      if |s| == 2 then Parsed(response, None, Nothing) else ParseUnknown(header, s[2..]).(response := response)
    else ParseUnknown(header, s)
  }

  /** The bytes of fields that are skipped. */
  function UnknownBytes(header: U16): nat {
    (if HasBit(header, 0x800) then 2 else 0) + (if HasBit(header, 0x1000) then 1 else 0) + (if HasBit(header, 0x2000) then 2 else 0)
    + (if HasBit(header, 0x4000) then 4 else 0) + (if HasBit(header, 0x8000) then 8 else 0)
  }

  function ParseUnknown(header: U16, s: seq<Byte>): Parsed {
    if |s| < UnknownBytes(header) then Parsed(None, None, Thrown) else ParseRequest(header, s[UnknownBytes(header)..])
  }

  function ParseRequest(header: U16, s: seq<Byte>): Parsed {
    if !HasBit(header, HAS_ACK_REQUEST) then Parsed(None, None, ParseFragment(header, 0, s))
    else if |s| < 2 then Parsed(None, None, Thrown)
    else
      var ack := Swapped(FromLittle(s));
      Parsed(None, Some((ack, HasBit(header, IS_FIRST))), ParseFragment(header, ack, s[2..]))
  }

  function ParseFragment(header: U16, ack: U16, s: seq<Byte>): Outcome {
    if !HasBit(header, IS_FRAGMENT) then ParseCounters(header, ack, 0, 0, s)
    else if |s| < 6 then Nothing
    else ParseCounters(header, ack, Swapped(FromLittle(s[2..])), Swapped(FromLittle(s[2..][2..])), s[2..][2..][2..])
  }

  function ParseCounters(header: U16, ack: U16, index: U16, count: U16, s: seq<Byte>): Outcome {
    var n := if !HasBit(header, HAS_ACK_COUNTER) then 0 else if HasBit(header, HAS_ACK_REQUEST) then 2 else 1;
    if |s| < n then Thrown
    else if index == 0 && |s| >= n + 2 then Dispatch(header, ack, count, FromLittle(s[n..]), s[n..][2..])
    else Dispatch(header, ack, count, 0, s[n..])
  }

  function Dispatch(header: U16, ack: U16, count: U16, opcode: U16, data: seq<Byte>): Outcome {
    if HasBit(header, IS_CLOSING) || HasBit(header, IS_CLOSING2) then Closing(ack)
    else if ack != 0 then ToAckManager(Input(ack, count, opcode, data))
    else if opcode != 0 then Direct(Delivery(opcode, data))
    else Nothing
  }

  // ----- Parsing by position

  /** Where the ack request stands, behind the flags, the sequence number, the ack response and the fields that are
      skipped. */
  function RequestPosition(flags: nat): nat {
    4 + (if HasBit(flags, 0x400) then 2 else 0) + (if HasBit(flags, 0x800) then 2 else 0) + (if HasBit(flags, 0x1000) then 1 else 0)
    + (if HasBit(flags, 0x2000) then 2 else 0) + (if HasBit(flags, 0x4000) then 4 else 0) + (if HasBit(flags, 0x8000) then 8 else 0)
  }

  /** The number at a position, high byte first. */
  function Number(frame: seq<Byte>, at: nat): nat
    requires at + 2 <= |frame|
  {
    256 * (frame[at] as nat) + frame[at + 1]
  }

  lemma DropDrop(s: seq<Byte>, a: nat, b: nat)
    requires a + b <= |s|
    ensures |s[a..]| == |s| - a && s[a..][b..] == s[a + b..]
  {
  }

  lemma NumberAt(s: seq<Byte>, at: nat)
    requires at + 2 <= |s|
    ensures Swapped(FromLittle(s[at..])) == Number(s, at) && FromLittle(s[at..]) == s[at] as nat + 256 * (s[at + 1] as nat)
  {
  }

  /** What is dispatched when the opcode or the payload stands at q. */
  function Dispatched(flags: U16, ack: U16, index: U16, count: U16, body: seq<Byte>, q: nat): Outcome
    requires q <= |body|
  {
    var named := index == 0 && q + 2 <= |body|;
    var opcode := if named then body[q] as nat + 256 * (body[q + 1] as nat) else 0;
    var data := if named then body[q + 2..] else body[q..];
    if HasBit(flags, 4) || HasBit(flags, 0x40) then Closing(ack)
    else if ack != 0 then ToAckManager(Input(ack, count, opcode, data))
    else if opcode != 0 then Direct(Delivery(opcode, data))
    else Nothing
  }

  lemma CountersAt(flags: U16, ack: U16, index: U16, count: U16, body: seq<Byte>, r: nat)
    requires r <= |body|
    ensures var q := r + (if !HasBit(flags, 0x10) then 0 else if HasBit(flags, 2) then 2 else 1);
            ParseCounters(flags, ack, index, count, body[r..]) == if q <= |body| then Dispatched(flags, ack, index, count, body, q) else Thrown
  {
    var n := if !HasBit(flags, 0x10) then 0 else if HasBit(flags, 2) then 2 else 1;
    if r + n <= |body| {
      DropDrop(body, r, n);
      if r + n + 2 <= |body| {
        NumberAt(body, r + n);
        DropDrop(body, r + n, 2);
      }
    }
    hide HasBit, FromLittle;
  }

  lemma FragmentAt(flags: U16, ack: U16, body: seq<Byte>, r: nat)
    requires r <= |body|
    ensures var u := r + (if HasBit(flags, 8) then 6 else 0);
            var q := u + (if !HasBit(flags, 0x10) then 0 else if HasBit(flags, 2) then 2 else 1);
            && (u > |body| ==> ParseFragment(flags, ack, body[r..]) == Nothing)
            && (u <= |body| < q ==> ParseFragment(flags, ack, body[r..]) == Thrown)
            && (q <= |body| ==>
                  var (index, count) := if HasBit(flags, 8) then (Number(body, r + 2), Number(body, r + 4)) else (0, 0);
                  ParseFragment(flags, ack, body[r..]) == Dispatched(flags, ack, index, count, body, q))
  {
    if HasBit(flags, 8) {
      if r + 6 <= |body| {
        DropDrop(body, r, 2);
        DropDrop(body, r + 2, 2);
        DropDrop(body, r + 4, 2);
        NumberAt(body, r + 2);
        NumberAt(body, r + 4);
        CountersAt(flags, ack, Number(body, r + 2), Number(body, r + 4), body, r + 6);
      }
    } else {
      CountersAt(flags, ack, 0, 0, body, r);
    }
    hide ParseCounters, Dispatched, FromLittle, Swapped, Number;
  }

  /** What is read behind the fields that are skipped, by position: the ack request at p, the fragment's numbers, the
      counters, the opcode and the payload. */
  ghost predicate ReadFrom(flags: U16, body: seq<Byte>, p: nat, parsed: Parsed) {
    var f := p + (if HasBit(flags, 2) then 2 else 0);
    var q := f + (if HasBit(flags, 8) then 6 else 0) + (if !HasBit(flags, 0x10) then 0 else if HasBit(flags, 2) then 2 else 1);
    && parsed.request == (if HasBit(flags, 2) && p + 2 <= |body| then Some((Number(body, p), HasBit(flags, 0x20))) else None)
    && (q > |body| ==> parsed.outcome == Thrown || parsed.outcome == Nothing)
    && (q <= |body| ==>
          var ack := if HasBit(flags, 2) then Number(body, p) else 0;
          var (index, count) := if HasBit(flags, 8) then (Number(body, f + 2), Number(body, f + 4)) else (0, 0);
          parsed.outcome == Dispatched(flags, ack, index, count, body, q))
  }

  lemma UnknownAt(flags: U16, body: seq<Byte>, start: nat)
    requires start <= |body|
    ensures ReadFrom(flags, body, start + UnknownBytes(flags), ParseUnknown(flags, body[start..]))
    ensures ParseUnknown(flags, body[start..]).response == None
  {
    hide HasBit, UnknownBytes, ParseFragment, Number, FromLittle, Swapped, Dispatched;
    var p := start + UnknownBytes(flags);
    if p <= |body| {
      DropDrop(body, start, UnknownBytes(flags));
      if !HasBit(flags, 2) {
        FragmentAt(flags, 0, body, p);
      } else if p + 2 <= |body| {
        NumberAt(body, p);
        DropDrop(body, p, 2);
        FragmentAt(flags, Number(body, p), body, p + 2);
      }
    }
  }

  lemma ResponseAt(flags: U16, body: seq<Byte>)
    requires |body| >= 6
    ensures var parsed := ParseResponse(flags, body[4..]);
            && parsed.response == (if HasBit(flags, 0x400) then Some(Number(body, 4)) else None)
            && (HasBit(flags, 0x400) && |body| == 6 ==> parsed.request == None && parsed.outcome == Nothing)
            && (!(HasBit(flags, 0x400) && |body| == 6) ==> ReadFrom(flags, body, RequestPosition(flags), parsed))
  {
    var start := if HasBit(flags, 0x400) then 6 else 4;
    assert RequestPosition(flags) == start + UnknownBytes(flags);
    hide RequestPosition, UnknownBytes;
    UnknownAt(flags, body, start);
    NumberAt(body, 4);
    DropDrop(body, 4, 2);
    hide ParseUnknown, FromLittle, Swapped, Number, Dispatched;
  }

  /** The frame is long enough and ends with its checksum, low byte first. */
  predicate Intact(crc: seq<Byte> -> nat, frame: seq<Byte>) {
    |frame| >= 10 &&
    var sum := crc(frame[..|frame| - 4]);
    frame[|frame| - 4..] == [sum % 256, sum / 256 % 256, sum / 65536 % 256, sum / 16777216 % 256]
  }

  /** What the parser makes of a frame, by the positions of its bytes: the flags stand low byte first, numbers of the
      protocol high byte first, and bit 0x20 of the flags marks the first packet.  A damaged frame is dropped. */
  lemma ParseByPosition(crc: seq<Byte> -> nat, frame: seq<Byte>)
    ensures !Intact(crc, frame) ==> Parse(crc, frame) == Parsed(None, None, Nothing)
    ensures Intact(crc, frame) ==>
              var (body, parsed) := (frame[..|frame| - 4], Parse(crc, frame));
              var flags := body[0] as nat + 256 * (body[1] as nat);
              && parsed.response == (if HasBit(flags, 0x400) then Some(Number(body, 4)) else None)
              && (HasBit(flags, 0x400) && |body| == 6 ==> parsed.request == None && parsed.outcome == Nothing)
              && (!(HasBit(flags, 0x400) && |body| == 6) ==> ReadFrom(flags, body, RequestPosition(flags), parsed))
  {
    hide ParseResponse, ReadFrom, HasBit, Number, RequestPosition;
    if Intact(crc, frame) {
      ResponseAt(FromLittle(frame[..|frame| - 4]), frame[..|frame| - 4]);
    }
  }

  // ----- Frames parse to what was sent

  const PLAIN: U16 := 0
  const ACKED: U16 := 0x12
  const PARTED: U16 := 0x1A

  /** Wrappers as the ack manager schedules them: fragments always ask for an ack, and numbers do not wrap. */
  ghost predicate Scheduled(w: Wrapper) {
    && w.header in {PLAIN, ACKED, PARTED} && w.fragCount >= 1
    && (w.header == PARTED <==> w.fragCount > 1)
    && (w.header != PLAIN ==> w.ackRequest > 0 && w.ackRequest + w.fragCount < 0x10000)
  }

  lemma FlagBits(w: Wrapper, ackResponse: U16)
    requires w.header in {PLAIN, ACKED, PARTED}
    ensures var h := Flags(w, ackResponse);
            && (HasBit(h, HAS_ACK_RESPONSE) <==> ackResponse != 0) && UnknownBytes(h) == 0
            && (HasBit(h, HAS_ACK_REQUEST) <==> w.header != PLAIN) && (HasBit(w.header, HAS_ACK_REQUEST) <==> w.header != PLAIN)
            && (HasBit(h, HAS_ACK_COUNTER) <==> w.header != PLAIN)
            && (HasBit(h, IS_FRAGMENT) <==> w.header == PARTED) && (HasBit(w.header, IS_FRAGMENT) <==> w.header == PARTED)
            && !HasBit(h, IS_FIRST) && !HasBit(h, IS_CLOSING) && !HasBit(h, IS_CLOSING2)
  {
  }

  /** The opcode that the receiver reads from the first fragment: without one of its own, two bytes of payload. */
  function ReadOpcode(opcode: U16, index: U16, data: seq<Byte>): U16 {
    if index != 0 then 0 else if opcode != 0 then opcode else if |data| >= 2 then FromLittle(data) else 0
  }

  /** The payload that is left. */
  function ReadData(opcode: U16, index: U16, data: seq<Byte>): seq<Byte> {
    if index == 0 && opcode == 0 && |data| >= 2 then data[2..] else data
  }

  /** What a fragment arrives as. */
  function Arrival(w: Wrapper, opcode: U16, index: U16, data: seq<Byte>): Outcome {
    var (op, rest) := (ReadOpcode(opcode, index, data), ReadData(opcode, index, data));
    if w.header != PLAIN then ToAckManager(Input(w.ackRequest + index, if w.header == PARTED then w.fragCount else 0, op, rest))
    else if op != 0 then Direct(Delivery(op, rest))
    else Nothing
  }

  lemma CountersParse(w: Wrapper, opcode: U16, ackResponse: U16, index: U16, data: seq<Byte>)
    requires Scheduled(w) && index < w.fragCount
    ensures ParseCounters(Flags(w, ackResponse), if w.header == PLAIN then 0 else w.ackRequest + index, index,
                          if w.header == PARTED then w.fragCount else 0, AfterFragment(w, opcode, index) + data)
            == Arrival(w, opcode, index, data)
  {
    FlagBits(w, ackResponse);
    hide HasBit, Flags, FromLittle, Little;
    var n := if w.header == PLAIN then 0 else 2;
    var s := AfterFragment(w, opcode, index) + data;
    assert s[n..] == AfterCounters(opcode, index) + data;
    LittleRead(opcode, data);
    assert index > 0 || opcode == 0 ==> s[n..] == data;
  }

  lemma FragmentParses(w: Wrapper, opcode: U16, ackResponse: U16, index: U16, data: seq<Byte>)
    requires Scheduled(w) && index < w.fragCount
    ensures ParseFragment(Flags(w, ackResponse), if w.header == PLAIN then 0 else w.ackRequest + index, AfterRequest(w, opcode, index) + data)
            == Arrival(w, opcode, index, data)
  {
    FlagBits(w, ackResponse);
    CountersParse(w, opcode, ackResponse, index, data);
    hide HasBit, Flags, FromLittle, Little, Swapped, ParseCounters, AfterFragment;
    var rest := AfterFragment(w, opcode, index) + data;
    var s := AfterRequest(w, opcode, index) + data;
    if w.header == PARTED {
      var (g, i, c) := (Little(Swapped(w.fragGroup)), Little(Swapped(index)), Little(Swapped(w.fragCount)));
      assert s == g + (i + (c + rest));
      LittleRead(Swapped(w.fragGroup), i + (c + rest));
      LittleRead(Swapped(index), c + rest);
      LittleRead(Swapped(w.fragCount), rest);
      SwappedTwice(index);
      SwappedTwice(w.fragCount);
    } else {
      assert s == rest;
    }
  }

  lemma RequestBytes(w: Wrapper, opcode: U16, index: U16, data: seq<Byte>)
    requires Scheduled(w) && index < w.fragCount
    ensures AfterResponse(w, opcode, index) + data ==
            if w.header == PLAIN then AfterRequest(w, opcode, index) + data
            else Little(Swapped(w.ackRequest + index)) + (AfterRequest(w, opcode, index) + data)
  {
    FlagBits(w, 0);
    hide HasBit, Little, Swapped, AfterRequest;
    assert w.header != PLAIN ==> (w.ackRequest + index) % 0x10000 == w.ackRequest + index;
  }

  lemma RequestParses(w: Wrapper, opcode: U16, ackResponse: U16, index: U16, data: seq<Byte>)
    requires Scheduled(w) && index < w.fragCount
    ensures ParseUnknown(Flags(w, ackResponse), AfterResponse(w, opcode, index) + data)
            == Parsed(None, if w.header == PLAIN then None else Some((w.ackRequest + index, false)), Arrival(w, opcode, index, data))
  {
    FlagBits(w, ackResponse);
    FragmentParses(w, opcode, ackResponse, index, data);
    RequestBytes(w, opcode, index, data);
    hide HasBit, Flags, FromLittle, Little, Swapped, ParseFragment, AfterRequest, AfterResponse, UnknownBytes, Arrival;
    var rest := AfterRequest(w, opcode, index) + data;
    var s := AfterResponse(w, opcode, index) + data;
    assert s[0..] == s;
    if w.header != PLAIN {
      LittleRead(Swapped(w.ackRequest + index), rest);
      SwappedTwice(w.ackRequest + index);
    }
  }

  lemma HeadLength(w: Wrapper, opcode: U16, index: U16)
    requires Scheduled(w) && index < w.fragCount
    ensures if w.header == PLAIN && opcode == 0 then index == 0 && |AfterResponse(w, opcode, index)| == 0
            else |AfterResponse(w, opcode, index)| >= 2
  {
    FlagBits(w, 0);
    hide HasBit;
  }

  /** Every frame of a scheduled packet, too short ones included, parses to the acknowledgements and the piece
      that it was made of. */
  lemma FrameParses(crc: seq<Byte> -> nat, w: Wrapper, opcode: U16, ackResponse: U16, sequence: U16, index: U16, data: seq<Byte>)
    requires Scheduled(w) && index < w.fragCount
    ensures Parse(crc, Frame(crc, w, opcode, ackResponse, sequence, index, data))
            == Parsed(if ackResponse == 0 then None else Some(Swapped(ackResponse)),
                      if w.header == PLAIN then None else Some((w.ackRequest + index, false)),
                      Arrival(w, opcode, index, data))
  {
    FlagBits(w, ackResponse);
    RequestParses(w, opcode, ackResponse, index, data);
    HeadLength(w, opcode, index);
    hide HasBit, Flags, FromLittle, Little, Swapped, ParseUnknown, AfterResponse, Little32;
    hide AfterSequence, Head;
    FrameParts(crc, w, opcode, ackResponse, sequence, index, data);
    if ackResponse != 0 {
      LittleRead(ackResponse, AfterResponse(w, opcode, index) + data);
    }
  }

  /** A frame taken apart again. */
  lemma FrameParts(crc: seq<Byte> -> nat, w: Wrapper, opcode: U16, ackResponse: U16, sequence: U16, index: U16, data: seq<Byte>)
    ensures var frame, body := Frame(crc, w, opcode, ackResponse, sequence, index, data), Head(w, opcode, ackResponse, sequence, index) + data;
            var rest := AfterResponse(w, opcode, index) + data;
            && |frame| == |body| + 4 && frame[..|frame| - 4] == body && frame[|frame| - 4..] == Little32(crc(body))
            && |body| >= 4 && FromLittle(body) == Flags(w, ackResponse)
            && body[4..] == if ackResponse == 0 then rest else Little(ackResponse) + rest
  {
    hide HasBit, Flags, FromLittle, Little, Swapped, AfterResponse, Little32;
    var rest := AfterResponse(w, opcode, index) + data;
    var tail := AfterSequence(w, opcode, ackResponse, index) + data;
    var body := Head(w, opcode, ackResponse, sequence, index) + data;
    assert body == Little(Flags(w, ackResponse)) + (Little(Swapped(sequence)) + tail);
    LittleRead(Flags(w, ackResponse), Little(Swapped(sequence)) + tail);
    assert body[4..] == tail;
    assert tail == if ackResponse == 0 then rest else Little(ackResponse) + rest;
  }
}
