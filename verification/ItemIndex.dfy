/**
  The item index: one program (`item_gen.c`) builds a table of item ids with the collision scheme of
  ChainTable and writes it in front of the item prototypes; another (`item_share_mem.c`) maps the
  written image and finds a prototype by its id.  The hash of an id is a parameter of both.
 */
module ItemIndex {
  import opened Wrappers
  import opened Arrays
  import opened Bits
  import opened ChainTable

  const HEADER_SIZE: nat := 16
  const ENTRY_SIZE: nat := 16

  datatype Entry = Entry(key: nat, hash: nat, next: int, offset: nat)

  // ----- Capacity (bit.c)

  lemma AbovePow2(p: bv32, n: bv32)
    requires p & (p - 1) == 0 && p < n
    ensures p as nat < n as nat
  {
  }

  lemma BelowPow2(n: bv32, p: bv32)
    requires p & (p - 1) == 0 && p != 0 && p >> 1 < n <= p
    ensures n as nat <= p as nat
  {
  }

  lemma HalfOfPow2(p: bv32)
    requires p & (p - 1) == 0 && p > 1
    ensures (p >> 1) & ((p >> 1) - 1) == 0 && p >> 1 != 0 && p as nat == 2 * ((p >> 1) as nat)
  {
  }

  lemma {:induction false} BitIsPow2(p: bv32)
    requires p & (p - 1) == 0 && p != 0
    ensures IsPow2(p as nat)
    decreases p as nat
  {
    if p == 1 {
      assert Pow2(0) == 1;
    } else {
      HalfOfPow2(p);
      BitIsPow2(p >> 1);
      var k: nat :| (p >> 1) as nat == Pow2(k);
      assert p as nat == Pow2(k + 1);
    }
  }

  /** bit_next_pow2_u32: the bits below the highest one are filled by doubling shifts. */
  method NextPow2(n: bv32) returns (r: bv32)
    ensures 1 <= n <= 0x8000_0000 ==> r & (r - 1) == 0 && r != 0 && n <= r && r >> 1 < n
    ensures n == 0 || n > 0x8000_0000 ==> r == 0
  {
    var m := n - 1;
    m := m | (m >> 1);
    m := m | (m >> 2);
    m := m | (m >> 4);
    m := m | (m >> 8);
    m := m | (m >> 16);
    r := m + 1;
  }

  lemma CapacityAsNat(n: bv32, cap: bv32)
    requires cap & (cap - 1) == 0 && cap != 0 && cap >> 1 < n <= cap
    ensures IsPow2(cap as nat) && n as nat <= cap as nat < 2 * (n as nat)
  {
    BitIsPow2(cap);
    BelowPow2(n, cap);
    if cap > 1 {
      HalfOfPow2(cap);
      AbovePow2(cap >> 1, n);
    }
  }

  /** bit_pow2_greater_or_equal: the least power of two that is not below n. */
  method Capacity(n: bv32) returns (cap: bv32)
    requires 1 <= n <= 0x8000_0000
    ensures IsPow2(cap as nat) && n as nat <= cap as nat < 2 * (n as nat)
  {
    if n & (n - 1) == 0 {
      cap := n;
    } else {
      cap := NextPow2(n);
    }
    CapacityAsNat(n, cap);
  }

  // ----- The table as cells

  /** A slot is unused exactly if its offset is 0. */
  ghost function CellOf(e: Entry): Cell<nat, nat> {
    Cell(if e.offset == 0 then None else Some(e.key), e.hash, e.next, e.offset)
  }

  ghost function View(es: seq<Entry>): (cells: seq<Cell<nat, nat>>)
    ensures |cells| == |es| && forall i :: 0 <= i < |es| ==> cells[i] == CellOf(es[i])
  {
    seq(|es|, i requires 0 <= i < |es| => CellOf(es[i]))
  }

  /** The offset of the i-th prototype. */
  function OffsetAt(base: nat, size: nat, i: nat): nat { base + i * size }

  lemma OffsetAtNext(base: nat, size: nat, i: nat)
    ensures OffsetAt(base, size, i + 1) == OffsetAt(base, size, i) + size && OffsetAt(base, size, 0) == base
    ensures OffsetAt(base, size, i) >= base
  {
  }

  /** Each id is bound to the offset of its prototype behind the table. */
  ghost function Offsets(ids: seq<nat>, base: nat, size: nat): map<nat, nat> {
    if ids == [] then map[]
    else Offsets(ids[..|ids| - 1], base, size)[ids[|ids| - 1] := OffsetAt(base, size, |ids| - 1)]
  }

  lemma {:induction false} OffsetsKeys(ids: seq<nat>, base: nat, size: nat)
    ensures forall id :: id in Offsets(ids, base, size) <==> id in ids
  {
    hide OffsetAt;
    if ids != [] {
      OffsetsKeys(ids[..|ids| - 1], base, size);
      assert ids == ids[..|ids| - 1] + [ids[|ids| - 1]];
    }
  }

  lemma {:induction false} OffsetsOf(ids: seq<nat>, base: nat, size: nat, i: nat)
    requires NoRepeats(ids) && i < |ids|
    ensures ids[i] in Offsets(ids, base, size) && Offsets(ids, base, size)[ids[i]] == OffsetAt(base, size, i)
  {
    hide OffsetAt;
    if i < |ids| - 1 {
      OffsetsOf(ids[..|ids| - 1], base, size, i);
    }
  }

  ghost predicate Indexes(es: seq<Entry>, chains: seq<seq<int>>, h: nat -> nat, ids: seq<nat>, base: nat, size: nat) {
    |es| > 0 && Table(View(es), chains, h, Offsets(ids, base, size))
  }

  // ----- Building (item_gen.c)

  datatype BuildResult = Duplicate(id: nat) | Built(entries: seq<Entry>)

  /** item_gen_advance_free_index: the first unused slot, if there is one. */
  method AdvanceFreeIndex(entries: array<Entry>, free: nat) returns (free': nat)
    ensures (exists q :: 0 <= q < entries.Length && entries[q].offset == 0) ==>
              free' < entries.Length && entries[free'].offset == 0 && forall q :: 0 <= q < free' ==> entries[q].offset != 0
    ensures (forall q :: 0 <= q < entries.Length ==> entries[q].offset != 0) ==> free' == free
  {
    for i := 0 to entries.Length
      invariant forall q :: 0 <= q < i ==> entries[q].offset != 0
    {
      if entries[i].offset == 0 {
        return i;
      }
    }
    return free;
  }

  /** Copy the squatter at pos to the free slot and relink its predecessor to it. */
  method Relocate(entries: array<Entry>, ghost chains: seq<seq<int>>, pos: nat, free: nat) returns (ghost j: nat)
    requires Linked(View(entries[..]), chains) && Used(View(entries[..]), pos) && Main(entries[pos].hash, entries.Length) != pos
    requires free < entries.Length && !Used(View(entries[..]), free)
    modifies entries
    ensures var cells := old(View(entries[..]));
            var c := chains[Main(cells[pos].hash, |cells|)];
            && 0 < j < |c| && c[j] == pos && Used(cells, c[j - 1])
            && entries[..] == old(entries[..])[free := old(entries[pos])][c[j - 1] := old(entries[..])[c[j - 1]].(next := free)]
  {
    hide Main;
    ghost var es, cells := entries[..], View(entries[..]);
    var ent := Main(entries[pos].hash, entries.Length);
    ghost var home, c := ent, chains[ent];
    j := Predecessor(cells, chains, pos);
    HeadAtHome(cells, chains, pos);
    HeadOfChain(cells, chains, ent);
    entries[free] := entries[pos];
    ghost var i := 0;
    while entries[ent].next != pos
      invariant 0 <= i < j && ent == c[i] && Used(cells, ent)
      invariant entries[..] == es[free := es[pos]]
      decreases j - i
    {
      assert LinkOk(cells, c, home, i);
      ent, i := entries[ent].next, i + 1;
    }
    assert i == j - 1;
    entries[ent] := entries[ent].(next := free);
  }

  /** The walk down the chain of pos: at the slot of the id, or at the last slot of the chain. */
  method Walk(es: seq<Entry>, ghost chains: seq<seq<int>>, ghost h: nat -> nat, ghost model: map<nat, nat>, pos: nat, id: nat)
    returns (found: bool, ent: nat)
    requires |es| > 0 && Table(View(es), chains, h, model) && pos == Main(h(id), |es|)
    requires Used(View(es), pos) && Main(es[pos].hash, |es|) == pos
    ensures Used(View(es), ent) && found == (id in model)
    ensures if found then es[ent].key == id else chains[pos] != [] && ent == chains[pos][|chains[pos]| - 1]
  {
    hide Main;
    ghost var cells, c := View(es), chains[pos];
    FoundOnChain(cells, chains, h, model, id);
    HeadOfChain(cells, chains, pos);
    ent := pos;
    ghost var j := 0;
    while true
      invariant 0 <= j < |c| && ent == c[j] && Used(cells, ent)
      invariant forall i :: 0 <= i < j ==> cells[c[i]].key != Some(id)
      decreases |c| - j
    {
      assert LinkOk(cells, c, pos, j) && cells[c[j]] == CellOf(es[ent]);
      if es[ent].key == id {
        return true, ent;
      }
      if es[ent].next == NONE {
        return false, ent;
      }
      ent, j := es[ent].next, j + 1;
    }
  }

  ghost predicate SomeUnused(es: seq<Entry>) { exists q :: 0 <= q < |es| && es[q].offset == 0 }

  /** The main position heads its chain: search the chain, and append the item behind its end. */
  method AppendItem(entries: array<Entry>, ghost chains: seq<seq<int>>, hashOf: nat -> nat, ghost model: map<nat, nat>,
                    id: nat, offset: nat, free: nat)
    returns (duplicate: bool, free': nat, ghost chains': seq<seq<int>>)
    requires entries.Length > 0 && Table(View(entries[..]), chains, hashOf, model) && offset > 0
    requires free < entries.Length && entries[free].offset == 0
    requires var index := Main(hashOf(id), entries.Length);
             entries[index].offset != 0 && Main(entries[index].hash, entries.Length) == index
    modifies entries
    ensures duplicate == (id in model)
    ensures !duplicate ==> Table(View(entries[..]), chains', hashOf, model[id := offset])
    ensures !duplicate && SomeUnused(entries[..]) ==> free' < entries.Length && entries[free'].offset == 0
    ensures forall q :: 0 <= q < entries.Length && entries[q].offset != 0 ==> old(entries[q].offset) != 0 || q == free
  {
    hide Main, Represents, ChainOk;
    ghost var cells := View(entries[..]);
    var hash := hashOf(id);
    var index := Main(hash, entries.Length);
    chains', free' := chains, free;
    FoundOnChain(cells, chains, hashOf, model, id);
    var ent;
    duplicate, ent := Walk(entries[..], chains, hashOf, model, index, id);
    if !duplicate {
      AppendToChain(cells, chains, hashOf, model, free, id, offset);
      entries[ent] := entries[ent].(next := free);
      entries[free] := entries[free].(key := id, hash := hash, offset := offset);
      assert View(entries[..]) == Place(cells[ent := cells[ent].(next := free)], free, id, hash, offset, NONE);
      chains' := chains[index := chains[index] + [free]];
      free' := AdvanceFreeIndex(entries, free);
    }
  }

  /** One turn of the building loop.  `x` is the slot that became occupied. */
  method InsertItem(entries: array<Entry>, ghost chains: seq<seq<int>>, hashOf: nat -> nat, ghost model: map<nat, nat>,
                    id: nat, offset: nat, free: nat)
    returns (duplicate: bool, free': nat, ghost chains': seq<seq<int>>, ghost x: int)
    requires entries.Length > 0 && Table(View(entries[..]), chains, hashOf, model) && offset > 0
    requires free < entries.Length && entries[free].offset == 0
    modifies entries
    ensures duplicate == (id in model)
    ensures !duplicate ==> Table(View(entries[..]), chains', hashOf, model[id := offset])
    ensures !duplicate && SomeUnused(entries[..]) ==> free' < entries.Length && entries[free'].offset == 0
    ensures forall q :: 0 <= q < entries.Length && entries[q].offset != 0 ==> old(entries[q].offset) != 0 || q == x
  {
    hide Main, Represents, ChainOk;
    ghost var es, cells := entries[..], View(entries[..]);
    var hash := hashOf(id);
    var index := Main(hash, entries.Length);
    chains', free', x, duplicate := chains, free, free, false;
    FoundOnChain(cells, chains, hashOf, model, id);
    if entries[index].offset == 0 {
      FillMain(cells, chains, hashOf, model, id, offset);
      entries[index] := entries[index].(key := id, hash := hash, offset := offset);
      assert View(entries[..]) == Place(cells, index, id, hash, offset, NONE);
      chains', x := chains[index := [index]], index;
      if index == free {
        free' := AdvanceFreeIndex(entries, free);
      }
    } else if Main(entries[index].hash, entries.Length) != index {
      ghost var m := Main(entries[index].hash, entries.Length);
      ghost var j := Relocate(entries, chains, index, free);
      EvictAndFill(cells, chains, hashOf, model, free, id, offset, j);
      entries[index] := entries[index].(key := id, hash := hash, offset := offset, next := NONE);
      assert View(entries[..]) == Place(cells[free := cells[index]][chains[m][j - 1] := cells[chains[m][j - 1]].(next := free)], index, id, hash, offset, NONE);
      chains' := chains[m := chains[m][j := free]][index := [index]];
      free' := AdvanceFreeIndex(entries, free);
    } else {
      duplicate, free', chains' := AppendItem(entries, chains, hashOf, model, id, offset, free);
    }
  }

  lemma EmptyTable(es: seq<Entry>, h: nat -> nat)
    requires |es| > 0 && forall i :: 0 <= i < |es| ==> es[i] == Entry(0, 0, NONE, 0)
    ensures Table(View(es), seq(|es|, _ => []), h, map[])
  {
  }

  /** One more id: repeated exactly if bound already, and otherwise bound to the next offset. */
  lemma OffsetsNext(ids: seq<nat>, i: nat, base: nat, size: nat)
    requires i < |ids| && NoRepeats(ids[..i])
    ensures ids[i] in Offsets(ids[..i], base, size) ==> !NoRepeats(ids)
    ensures ids[i] !in Offsets(ids[..i], base, size) ==> NoRepeats(ids[..i + 1])
    ensures Offsets(ids[..i + 1], base, size) == Offsets(ids[..i], base, size)[ids[i] := OffsetAt(base, size, i)]
  {
    hide OffsetAt;
    OffsetsKeys(ids[..i], base, size);
    assert ids[..i + 1][..i] == ids[..i];
    if ids[i] in ids[..i] {
      var k :| 0 <= k < i && ids[..i][k] == ids[i];
    }
  }

  /** The id is the first in the list that stands before itself. */
  ghost predicate FirstRepeat(ids: seq<nat>, id: nat) {
    exists i :: 0 <= i < |ids| && ids[i] == id && id in ids[..i] && NoRepeats(ids[..i])
  }

  lemma RepeatIsFirst(ids: seq<nat>, i: nat, base: nat, size: nat)
    requires i < |ids| && NoRepeats(ids[..i]) && ids[i] in Offsets(ids[..i], base, size)
    ensures FirstRepeat(ids, ids[i])
  {
    hide NoRepeats;
    OffsetsKeys(ids[..i], base, size);
  }

  /** item_gen_write_to_disk, the table: a repeated id is reported, and otherwise every id is bound to
      the offset of its prototype.  An empty list gives an empty table if it has no capacity. */
  method Build(ids: seq<nat>, hashOf: nat -> nat, capacity: nat, size: nat) returns (r: BuildResult, ghost chains: seq<seq<int>>)
    requires |ids| <= capacity
    ensures r.Built? <==> NoRepeats(ids)
    ensures r.Duplicate? ==> FirstRepeat(ids, r.id)
    ensures r.Built? ==> |r.entries| == capacity
    ensures r.Built? && capacity > 0 ==> Indexes(r.entries, chains, hashOf, ids, 16 + 16 * capacity, size)
  {
    var entries := new Entry[capacity](_ => Entry(0, 0, NONE, 0));
    var base := HEADER_SIZE + ENTRY_SIZE * capacity;
    var offset: nat, free: nat := base, 0;
    chains := seq(capacity, _ => []);
    ghost var filled: set<int> := {};
    if capacity > 0 { EmptyTable(entries[..], hashOf); }
    OffsetAtNext(base, size, 0);
    assert ids[..0] == [];
    hide Table, Main, Offsets, OffsetAt, NoRepeats, View, FirstRepeat;
    for i := 0 to |ids|
      invariant NoRepeats(ids[..i])
      invariant capacity > 0 ==> Table(View(entries[..]), chains, hashOf, Offsets(ids[..i], base, size))
      invariant offset == OffsetAt(base, size, i) >= base
      invariant SomeUnused(entries[..]) ==> free < capacity && entries[free].offset == 0
      invariant |filled| <= i && forall q :: 0 <= q < capacity && entries[q].offset != 0 ==> q in filled
    {
      ghost var left := SlotLeft(filled, capacity);
      assert entries[..][left].offset == 0;
      OffsetsNext(ids, i, base, size);
      var duplicate;
      ghost var x;
      duplicate, free, chains, x := InsertItem(entries, chains, hashOf, Offsets(ids[..i], base, size), ids[i], offset, free);
      if duplicate {
        RepeatIsFirst(ids, i, base, size);
        return Duplicate(ids[i]), chains;
      }
      filled := filled + {x};
      OffsetAtNext(base, size, i);
      offset := offset + size;
    }
    assert ids[..|ids|] == ids;
    r := Built(entries[..]);
  }

  // ----- Reading (item_share_mem.c)

  /** item_share_mem_get_offset: the offset of an id, or 0. */
  method GetOffset(entries: seq<Entry>, ghost chains: seq<seq<int>>, hashOf: nat -> nat, ghost model: map<nat, nat>, id: nat)
    returns (offset: nat)
    requires |entries| > 0 && Table(View(entries), chains, hashOf, model)
    ensures offset == if id in model then model[id] else 0
  {
    hide Main;
    var index := Main(hashOf(id), |entries|);
    FoundOnChain(View(entries), chains, hashOf, model, id);
    if entries[index].offset == 0 || Main(entries[index].hash, |entries|) != index {
      return 0;
    }
    var found, ent := Walk(entries, chains, hashOf, model, index, id);
    return if found then entries[ent].offset else 0;
  }

  /** The mapped file: a header with the capacity, the table, and the prototypes in list order. */
  datatype Image = Image(entries: seq<Entry>, prototypes: seq<bv8>)

  ghost function Flat(protos: seq<seq<bv8>>): seq<bv8> {
    if protos == [] then [] else Flat(protos[..|protos| - 1]) + protos[|protos| - 1]
  }

  ghost predicate AllOfSize(protos: seq<seq<bv8>>, size: nat) {
    forall i :: 0 <= i < |protos| ==> |protos[i]| == size
  }

  lemma {:induction false} FlatLength(protos: seq<seq<bv8>>, size: nat)
    requires AllOfSize(protos, size)
    ensures |Flat(protos)| == OffsetAt(0, size, |protos|)
  {
    hide OffsetAt;
    if protos == [] {
      OffsetAtNext(0, size, 0);
    } else {
      FlatLength(protos[..|protos| - 1], size);
      OffsetAtNext(0, size, |protos| - 1);
    }
  }

  lemma {:induction false} FlatSlice(protos: seq<seq<bv8>>, size: nat, i: nat)
    requires AllOfSize(protos, size) && i < |protos|
    ensures var o := OffsetAt(0, size, i);
            o + size <= |Flat(protos)| && Flat(protos)[o..o + size] == protos[i]
  {
    hide OffsetAt;
    var front := protos[..|protos| - 1];
    if i < |front| {
      FlatSlice(front, size, i);
      assert front[i] == protos[i];
      var o := OffsetAt(0, size, i);
      assert Flat(protos)[o..o + size] == Flat(front)[o..o + size];
    } else {
      FlatLength(front, size);
    }
  }

  lemma ProtoAt(protos: seq<seq<bv8>>, size: nat, i: nat, base: nat)
    requires AllOfSize(protos, size) && i < |protos|
    ensures var o := OffsetAt(base, size, i);
            base <= o <= o + size <= base + |Flat(protos)| && Flat(protos)[o - base..o - base + size] == protos[i]
  {
    FlatSlice(protos, size, i);
    assert OffsetAt(base, size, i) == base + OffsetAt(0, size, i);
  }

  /** item_share_mem_get_prototype: the bytes at the offset of an id, unless they pass the end of the image. */
  method GetPrototype(image: Image, ghost chains: seq<seq<int>>, hashOf: nat -> nat, ghost ids: seq<nat>, ghost protos: seq<seq<bv8>>,
                      size: nat, id: nat)
    returns (p: Option<seq<bv8>>)
    requires NoRepeats(ids) && |ids| == |protos| && AllOfSize(protos, size) && image.prototypes == Flat(protos)
    requires Indexes(image.entries, chains, hashOf, ids, HEADER_SIZE + ENTRY_SIZE * |image.entries|, size)
    ensures forall i :: 0 <= i < |ids| && ids[i] == id ==> p == Some(protos[i])
    ensures id !in ids ==> p == None
  {
    hide Table, Flat, Offsets, OffsetAt;
    var base := HEADER_SIZE + ENTRY_SIZE * |image.entries|;
    var length := base + |image.prototypes|;
    OffsetsKeys(ids, base, size);
    var offset := GetOffset(image.entries, chains, hashOf, Offsets(ids, base, size), id);
    if id in ids {
      ghost var i :| 0 <= i < |ids| && ids[i] == id;
      OffsetsOf(ids, base, size, i);
      ProtoAt(protos, size, i, base);
    }
    if offset == 0 || offset + size > length {
      return None;
    }
    return Some(image.prototypes[offset - base..offset - base + size]);
  }

  /** One program writes the image, another finds an item in it. */
  method WriteThenFind(ids: seq<nat>, protos: seq<seq<bv8>>, size: nat, hashOf: nat -> nat, capacity: nat, id: nat)
    returns (r: BuildResult, p: Option<seq<bv8>>)
    requires 1 <= |ids| == |protos| <= capacity && AllOfSize(protos, size)
    ensures r.Duplicate? <==> !NoRepeats(ids)
    ensures r.Built? ==> forall i :: 0 <= i < |ids| && ids[i] == id ==> p == Some(protos[i])
    ensures r.Built? && id !in ids ==> p == None
  {
    ghost var chains;
    r, chains := Build(ids, hashOf, capacity, size);
    p := None;
    if r.Built? {
      var bytes := [];
      for i := 0 to |protos|
        invariant bytes == Flat(protos[..i])
      {
        assert protos[..i + 1][..i] == protos[..i];
        bytes := bytes + protos[i];
      }
      assert protos[..|protos|] == protos;
      p := GetPrototype(Image(r.entries, bytes), chains, hashOf, ids, protos, size, id);
    }
  }

  /** The same with the capacity that the generator computes from its count of prototypes. */
  method GenerateThenFind(ids: seq<nat>, count: bv32, protos: seq<seq<bv8>>, size: nat, hashOf: nat -> nat, id: nat)
    returns (r: BuildResult, p: Option<seq<bv8>>)
    requires count as nat == |ids| == |protos| && 1 <= count <= 0x8000_0000 && AllOfSize(protos, size)
    ensures r.Duplicate? <==> !NoRepeats(ids)
    ensures r.Built? ==> forall i :: 0 <= i < |ids| && ids[i] == id ==> p == Some(protos[i])
    ensures r.Built? && id !in ids ==> p == None
  {
    var capacity := Capacity(count);
    r, p := WriteThenFind(ids, protos, size, hashOf, capacity as nat, id);
  }
}
