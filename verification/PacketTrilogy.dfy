/**
  Fragmentation in place (`packet_trilogy.c`).  A packet is one buffer: 18 bytes kept free for a header, the
  payload, and room for a checksum; a long payload is moved apart, from its end, to make room for the header
  and checksum of every fragment.
 */
module PacketTrilogy {
  import opened Reassembly

  const HEADER: nat := 18
  const SPACE: nat := 512
  const CRC: nat := 4

  /** packet_trilogy_calc_length_and_frag_count: the number of fragments beyond the first. */
  function FragCount(length: nat): nat {
    if length <= SPACE then 0
    else (if length % SPACE != 0 then length / SPACE + 1 else length / SPACE) - 1
  }

  /** packet_trilogy_length_raw */
  function RawLength(length: nat): nat { length + (HEADER + CRC) * (FragCount(length) + 1) }

  /** The bytes that go into the last fragment. */
  function Tail(length: nat): nat {
    if (length + 2) % SPACE == 0 then SPACE else (length + 2) % SPACE
  }

  /** The bytes that the moves leave in place. */
  function Stay(length: nat): int { length - Tail(length) - SPACE * (FragCount(length) - 1) }

  /** The lengths that fragment exactly: two bytes of the first fragment belong to the opcode, which the
      fragment count leaves out. */
  predicate Exact(length: nat) { length == 0 || (length % SPACE != 0 && length % SPACE != 511) }

  /** One fragment holds 512 bytes; n more are needed for up to 512 n bytes more. */
  lemma CountIsQuotient(length: nat)
    ensures length <= 512 <==> FragCount(length) == 0
    ensures length > 512 ==> var n := FragCount(length); n >= 1 && 512 * n < length <= 512 * (n + 1)
  {
  }

  /** The moves leave 510 bytes, one first fragment, in place for exact lengths, and 1022 otherwise. */
  lemma StayIff(length: nat)
    requires length > SPACE
    ensures Exact(length) <==> Stay(length) == 510
    ensures !Exact(length) <==> Stay(length) == 1022
  {
    var n := FragCount(length);
    CountIsQuotient(length);
    var r := length - SPACE * n;
    assert length % SPACE == if r == SPACE then 0 else r by { Remainder(length, n, r); }
    assert (length + 2) % SPACE == if r + 2 >= SPACE then r + 2 - SPACE else r + 2 by {
      if r + 2 >= SPACE { Remainder(length + 2, n + 1, r + 2 - SPACE); } else { Remainder(length + 2, n, r + 2); }
    }
  }

  lemma Remainder(v: nat, n: nat, r: nat)
    requires v == SPACE * n + r && r <= SPACE
    ensures v % SPACE == if r == SPACE then 0 else r
  {
  }

  lemma SliceOfSuffix(s: seq<Byte>, c: nat, k: nat, n: nat)
    requires c + k + n <= |s|
    ensures s[c..][k..k + n] == s[c + k..c + k + n] && s[c..][k + n..] == s[c + k + n..]
  {
  }

  lemma SliceOfPrefix(s: seq<Byte>, keep: nat, a: nat, b: nat)
    requires a <= b <= keep <= |s|
    ensures s[..keep][a..b] == s[a..b]
  {
  }

  /** Where block b of the moved payload came from: counted in the payload. */
  function From(length: nat, b: nat): int { Stay(length) + SPACE * (b - 1) }

  function Size(length: nat, b: nat): nat { if b == FragCount(length) then Tail(length) else SPACE }

  /** Block b lies 22 bytes further for every fragment before it. */
  ghost predicate Moved(data: seq<Byte>, was: seq<Byte>, length: nat, b: nat)
    requires |data| == |was|
  {
    var (from, size) := (HEADER + From(length, b), Size(length, b));
    0 <= from && from + (HEADER + CRC) * b + size <= |was|
    && data[from + (HEADER + CRC) * b..from + (HEADER + CRC) * b + size] == was[from..from + size]
  }

  /** Block b ends where block b + 1 begins, and the last ends with the payload. */
  lemma Blocks(length: nat, b: nat)
    requires length > SPACE && 1 <= b <= FragCount(length)
    ensures From(length, b) >= 510
    ensures From(length, b) + Size(length, b) == if b == FragCount(length) then length else From(length, b + 1)
  {
    CountIsQuotient(length);
    StayIff(length);
  }

  /** The bytes in [src + 1 - size, src] copied to the place that ends with dst. */
  function Copied(data: seq<Byte>, src: int, dst: int, size: nat): (r: seq<Byte>)
    requires -1 <= src - size && src <= dst < |data|
    ensures |r| == |data|
  {
    data[..dst + 1 - size] + data[src + 1 - size..src + 1] + data[dst + 1..]
  }

  lemma CopiedMore(data: seq<Byte>, src: int, dst: int, size: nat)
    requires -1 <= src - (size + 1) && src <= dst < |data|
    ensures Copied(data, src, dst, size)[src - size] == data[src - size]
    ensures Copied(data, src, dst, size)[dst - size := data[src - size]] == Copied(data, src, dst, size + 1)
  {
  }

  /** The inner loop of packet_trilogy_fragmentize: move one block, from its end, to a later place. */
  method MoveBlock(data: array<Byte>, src: nat, dst: nat, size: nat) returns (src': int, dst': int)
    requires size <= src + 1 && src <= dst < data.Length
    modifies data
    ensures src' == src - size && dst' == dst - size
    ensures data[..] == Copied(old(data[..]), src, dst, size)
  {
    ghost var was := data[..];
    src', dst' := src, dst;
    for j := 0 to size
      invariant src' == src - j && dst' == dst - j
      invariant data[..] == Copied(was, src, dst, j)
    {
      hide Copied;
      CopiedMore(was, src, dst, j);
      data[dst'] := data[src'];
      dst', src' := dst' - 1, src' - 1;
    }
  }

  /** Moves further down leave a moved block alone. */
  lemma MovedKept(data: seq<Byte>, data': seq<Byte>, was: seq<Byte>, length: nat, b: nat, limit: nat)
    requires |data| == |data'| == |was| && limit <= |was| && data[limit..] == data'[limit..]
    requires Moved(data, was, length, b) && limit <= HEADER + From(length, b) + (HEADER + CRC) * b
    ensures Moved(data', was, length, b)
  {
    var (from, size) := (HEADER + From(length, b) + (HEADER + CRC) * b, Size(length, b));
    SliceOfSuffix(data, limit, from - limit, size);
    SliceOfSuffix(data', limit, from - limit, size);
  }

  /** The blocks after b, which the loop has moved, lie behind the place for block b. */
  lemma LaterBlocks(length: nat, b: nat, c: nat)
    requires length > SPACE && 1 <= b < c <= FragCount(length)
    ensures From(length, b) + Size(length, b) <= From(length, c)
  {
    Blocks(length, b);
  }

  /** The blocks from b on are in place. */
  ghost predicate MovedFrom(data: seq<Byte>, was: seq<Byte>, length: nat, b: nat)
    requires |data| == |was|
  {
    forall c :: b <= c <= FragCount(length) ==> Moved(data, was, length, c)
  }

  /** Moving block b. */
  lemma BlockMoved(data: seq<Byte>, data': seq<Byte>, was: seq<Byte>, length: nat, b: nat, at: nat)
    requires length > SPACE && 1 <= b <= FragCount(length) && |data| == |data'| == |was|
    requires MovedFrom(data, was, length, b + 1) && 0 <= From(length, b) && at == HEADER + From(length, b) + 22 * b
    requires var from, size := HEADER + From(length, b), Size(length, b);
             && at + size <= |was| && data'[at..at + size] == data[from..from + size] == was[from..from + size]
             && data'[at + size..] == data[at + size..]
    ensures MovedFrom(data', was, length, b)
  {
    hide From, Size, FragCount;
    forall c | b <= c <= FragCount(length) ensures Moved(data', was, length, c) {
      if c > b {
        LaterBlocks(length, b, c);
        MovedKept(data, data', was, length, c, at + Size(length, b));
      }
    }
  }

  /** The state of the outer loop: b blocks are still to be moved. */
  ghost predicate Midway(data: seq<Byte>, was: seq<Byte>, length: nat, b: nat, src: int, dst: int, size: nat) {
    && |data| == |was| && b <= FragCount(length)
    && (b > 0 ==> size == Size(length, b) && src + 1 == HEADER + From(length, b) + size)
    && (b == 0 ==> src + 1 == HEADER + Stay(length))
    && dst == src + 22 * b && -1 <= src && dst < |was|
    && data[..dst + 1] == was[..dst + 1]
    && MovedFrom(data, was, length, b + 1)
  }

  lemma MidwayStarts(was: seq<Byte>, length: nat)
    requires length > SPACE && |was| == RawLength(length)
    ensures Midway(was, was, length, FragCount(length), length + HEADER - 1, RawLength(length) - CRC - 1, Tail(length))
  {
    CountIsQuotient(length);
    Blocks(length, FragCount(length));
    hide Stay, FragCount, Moved;
  }

  lemma MidwayMoves(data: seq<Byte>, was: seq<Byte>, length: nat, b: nat, src: int, dst: int, size: nat)
    requires Midway(data, was, length, b, src, dst, size) && length > SPACE && b > 0
    ensures size <= src + 1 && 0 <= src <= dst < |data|
    ensures Midway(Copied(data, src, dst, size), was, length, b - 1, src - size, dst - size - 22, SPACE)
  {
    Blocks(length, b);
    if b > 1 { Blocks(length, b - 1); }
    FirstFrom(length);
    hide FragCount, Stay, From, Moved, Tail, MovedFrom, Copied;
    CopiedParts(data, was, src, dst, size);
    BlockMoved(data, Copied(data, src, dst, size), was, length, b, dst + 1 - size);
  }

  lemma CopiedParts(data: seq<Byte>, was: seq<Byte>, src: int, dst: int, size: nat)
    requires -1 <= src - size && src <= dst < |data| == |was| && data[..dst + 1] == was[..dst + 1]
    ensures var data' := Copied(data, src, dst, size);
            && data'[dst + 1 - size..dst + 1] == data[src + 1 - size..src + 1] == was[src + 1 - size..src + 1]
            && data'[dst + 1..] == data[dst + 1..]
            && (forall k :: 0 <= k <= dst + 1 - size ==> data'[..k] == was[..k])
  {
    var data' := Copied(data, src, dst, size);
    assert data[src + 1 - size..src + 1] == data[..dst + 1][src + 1 - size..src + 1];
    assert was[src + 1 - size..src + 1] == was[..dst + 1][src + 1 - size..src + 1];
    forall k | 0 <= k <= dst + 1 - size ensures data'[..k] == was[..k] {
      assert data'[..k] == data[..dst + 1][..k];
    }
  }

  lemma FirstFrom(length: nat)
    ensures From(length, 1) == Stay(length)
  {
  }

  /** packet_trilogy_fragmentize: every block of the payload is moved whole, and the first stays. */
  method Fragmentize(data: array<Byte>, length: nat)
    requires data.Length == RawLength(length)
    modifies data
    ensures MovedFrom(data[..], old(data[..]), length, 1)
    ensures var keep := if FragCount(length) == 0 then data.Length else HEADER + Stay(length);
            0 <= keep <= data.Length && data[..][..keep] == old(data[..])[..keep]
  {
    hide FragCount, Stay, Tail, RawLength, Midway, MovedFrom, Copied;
    var n := FragCount(length);
    ghost var was := data[..];
    if n == 0 {
      NothingMoves(was, length);
      return;
    }
    SeveralFragments(length);
    var src, dst := length + HEADER - 1, RawLength(length) - CRC - 1;
    var size := Tail(length);
    MidwayStarts(was, length);
    for i := 0 to n
      invariant Midway(data[..], was, length, n - i, src, dst, size)
    {
      MidwayMoves(data[..], was, length, n - i, src, dst, size);
      src, dst := MoveBlock(data, src, dst, size);
      dst := dst - (HEADER + CRC);
      size := SPACE;
    }
    MidwayEnds(data[..], was, length, src, dst, size);
  }

  lemma NothingMoves(was: seq<Byte>, length: nat)
    requires FragCount(length) == 0
    ensures MovedFrom(was, was, length, 1)
  {
  }

  lemma SeveralFragments(length: nat)
    requires FragCount(length) > 0
    ensures length > SPACE
  {
  }

  lemma MidwayEnds(data: seq<Byte>, was: seq<Byte>, length: nat, src: int, dst: int, size: nat)
    requires Midway(data, was, length, 0, src, dst, size)
    ensures MovedFrom(data, was, length, 1)
    ensures 0 <= HEADER + Stay(length) <= |was| && data[..HEADER + Stay(length)] == was[..HEADER + Stay(length)]
  {
    hide MovedFrom, FragCount, Stay;
  }
}
