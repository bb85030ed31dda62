/**
  The string-keyed hash table (`eqp_hash_table.c`): slots, links and the free index change in place,
  and a table without a free slot is copied into one of twice the capacity.  The string hash is a
  parameter; nothing depends on which function it is.
 */
module StringHashTable {
  import opened Wrappers
  import opened Bits
  import opened ChainTable

  const DEFAULT_CAPACITY: nat := 2

  /** The free index names an unused slot.  Below it (everywhere, if there is none) an unused slot
      still carries a hash whose main position is that very slot: it was emptied as a lone head, or
      copied as an empty slot during growth. */
  ghost predicate FreeOk<K, V>(cells: seq<Cell<K, V>>, freeIndex: int) {
    && |cells| > 0
    && (freeIndex == NONE || (0 <= freeIndex < |cells| && !Used(cells, freeIndex)))
    && (forall i :: 0 <= i < |cells| && !Used(cells, i) ==>
          Main(cells[i].hash, |cells|) == i || (freeIndex != NONE && freeIndex <= i))
  }

  /** Filling slots and advancing the free index over them keeps it sound. */
  lemma FreeKept<K, V>(cells: seq<Cell<K, V>>, cells': seq<Cell<K, V>>, free: int, free': int)
    requires FreeOk(cells, free) && |cells'| == |cells|
    requires forall i :: 0 <= i < |cells| && !Used(cells', i) ==> !Used(cells, i) && cells'[i].hash == cells[i].hash
    requires free' == NONE || (0 <= free' < |cells| && !Used(cells', free'))
    requires free' == free || (free != NONE && Used(cells', free))
    requires free' != free ==> forall i :: free < i < (if free' == NONE then |cells| else free') ==> Used(cells', i)
    ensures FreeOk(cells', free')
  {
    hide Main;
  }

  /** Everything a table keeps, on the slot contents alone. */
  ghost predicate Sound<K, V>(cells: seq<Cell<K, V>>, chains: seq<seq<int>>, h: K -> nat, model: map<K, V>, freeIndex: int) {
    Table(cells, chains, h, model) && FreeOk(cells, freeIndex)
  }

  /** free' is the first unused slot after free, or NONE. */
  ghost predicate NextFree<K, V>(cells: seq<Cell<K, V>>, free: int, free': int) {
    && (free' == NONE || (free < free' < |cells| && !Used(cells, free')))
    && forall i :: free < i < (if free' == NONE then |cells| else free') ==> Used(cells, i)
  }

  lemma FillMainSound<K, V>(cells: seq<Cell<K, V>>, chains: seq<seq<int>>, h: K -> nat, model: map<K, V>, free: int, free': int, k: K, v: V)
    requires Sound(cells, chains, h, model, free) && k !in model && !Used(cells, Main(h(k), |cells|))
    requires if Main(h(k), |cells|) == free then NextFree(cells, free, free') else free' == free
    ensures var pos := Main(h(k), |cells|);
            Sound(Place(cells, pos, k, h(k), v, NONE), chains[pos := [pos]], h, model[k := v], free')
  {
    hide Main, Represents;
    FillMain(cells, chains, h, model, k, v);
    FreeKept(cells, Place(cells, Main(h(k), |cells|), k, h(k), v, NONE), free, free');
  }

  lemma EvictAndFillSound<K, V>(cells: seq<Cell<K, V>>, chains: seq<seq<int>>, h: K -> nat, model: map<K, V>, free: int, free': int,
                                k: K, v: V, j: nat)
    requires Sound(cells, chains, h, model, free) && k !in model && free != NONE && NextFree(cells, free, free')
    requires var pos := Main(h(k), |cells|); Used(cells, pos) && Main(cells[pos].hash, |cells|) != pos
    requires var pos := Main(h(k), |cells|);
             var c := chains[Main(cells[pos].hash, |cells|)];
             0 < j < |c| && c[j] == pos && Used(cells, c[j - 1])
    ensures var pos := Main(h(k), |cells|);
            var m := Main(cells[pos].hash, |cells|);
            var prev := chains[m][j - 1];
            Sound(Place(cells[free := cells[pos]][prev := cells[prev].(next := free)], pos, k, h(k), v, NONE),
                  chains[m := chains[m][j := free]][pos := [pos]], h, model[k := v], free')
  {
    hide Main, Represents;
    var pos := Main(h(k), |cells|);
    var prev := chains[Main(cells[pos].hash, |cells|)][j - 1];
    EvictAndFill(cells, chains, h, model, free, k, v, j);
    FreeKept(cells, Place(cells[free := cells[pos]][prev := cells[prev].(next := free)], pos, k, h(k), v, NONE), free, free');
  }

  lemma AppendSound<K, V>(cells: seq<Cell<K, V>>, chains: seq<seq<int>>, h: K -> nat, model: map<K, V>, free: int, free': int, k: K, v: V)
    requires Sound(cells, chains, h, model, free) && k !in model && free != NONE && NextFree(cells, free, free')
    requires var pos := Main(h(k), |cells|); Used(cells, pos) && Main(cells[pos].hash, |cells|) == pos
    ensures var pos := Main(h(k), |cells|);
            var c := chains[pos];
            && c != [] && Used(cells, c[|c| - 1])
            && Sound(Place(cells[c[|c| - 1] := cells[c[|c| - 1]].(next := free)], free, k, h(k), v, NONE),
                     chains[pos := c + [free]], h, model[k := v], free')
  {
    hide Main, Represents;
    var c := chains[Main(h(k), |cells|)];
    AppendToChain(cells, chains, h, model, free, k, v);
    FreeKept(cells, Place(cells[c[|c| - 1] := cells[c[|c| - 1]].(next := free)], free, k, h(k), v, NONE), free, free');
  }

  // ----- Removal

  /** The free index after slot cur was emptied: cur, if that is lower. */
  function Lowered(free: int, cur: int): int { if free == NONE || free > cur then cur else free }

  lemma RemoveLaterSound<K, V>(cells: seq<Cell<K, V>>, chains: seq<seq<int>>, h: K -> nat, model: map<K, V>, free: int, m: nat, j: nat)
    requires Sound(cells, chains, h, model, free) && m < |cells| && 0 < j < |chains[m]|
    ensures Used(cells, chains[m][j - 1]) && Used(cells, chains[m][j])
    ensures var prev, cur := chains[m][j - 1], chains[m][j];
            Sound(cells[prev := cells[prev].(next := cells[cur].next)][cur := Cleared(cells[cur])],
                  chains[m := chains[m][..j] + chains[m][j + 1..]], h, model - {cells[cur].key.value}, Lowered(free, cur))
  {
    hide Main;
    RemoveLater(cells, chains, m, j);
    var prev, cur := chains[m][j - 1], chains[m][j];
    assert prev != cur by { assert ChainOk(cells, chains[m], m); }
    var cells' := cells[prev := cells[prev].(next := cells[cur].next)][cur := Cleared(cells[cur])];
    RemoveBinding(cells, cells', h, model, cells[cur].key.value, cur, cur);
  }

  lemma RemoveHeadSound<K, V>(cells: seq<Cell<K, V>>, chains: seq<seq<int>>, h: K -> nat, model: map<K, V>, free: int, m: nat)
    requires Sound(cells, chains, h, model, free) && Used(cells, m) && |chains[m]| > 1 && chains[m][0] == m
    ensures Used(cells, chains[m][1])
    ensures var next := chains[m][1];
            Sound(cells[m := cells[next]][next := Cleared(cells[next])],
                  chains[m := [m] + chains[m][2..]], h, model - {cells[m].key.value}, Lowered(free, next))
  {
    hide Main;
    RemoveHead(cells, chains, m);
    var next := chains[m][1];
    assert next != m by { assert ChainOk(cells, chains[m], m); }
    var cells' := cells[m := cells[next]][next := Cleared(cells[next])];
    RemoveBinding(cells, cells', h, model, cells[m].key.value, m, next);
  }

  /** A lone head that is emptied keeps a hash whose main position is its own slot. */
  lemma RemoveOnlySound<K, V>(cells: seq<Cell<K, V>>, chains: seq<seq<int>>, h: K -> nat, model: map<K, V>, free: int, m: nat)
    requires Sound(cells, chains, h, model, free) && Used(cells, m) && |chains[m]| == 1
    requires Main(cells[m].hash, |cells|) == m
    ensures Sound(cells[m := Cleared(cells[m])], chains[m := []], h, model - {cells[m].key.value}, free)
  {
    hide Main;
    RemoveOnly(cells, chains, m);
    RemoveBinding(cells, cells[m := Cleared(cells[m])], h, model, cells[m].key.value, m, m);
  }

  // ----- Growth

  /** The table under construction: sound for the bindings copied so far, with a free index.  The
      slots passed over or filled so far are among `touched`. */
  ghost predicate Growing<K, V>(cells: seq<Cell<K, V>>, chains: seq<seq<int>>, h: K -> nat, copied: map<K, V>, free: int, touched: set<int>) {
    && Sound(cells, chains, h, copied, free)
    && 0 <= free < |cells|
    && (forall q :: q in touched ==> 0 <= q < |cells|)
    && (forall q :: Used(cells, q) || 0 <= q < free ==> q in touched)
  }

  lemma FreshTable<K, V>(cells: seq<Cell<K, V>>, chains: seq<seq<int>>, h: K -> nat)
    requires |cells| > 0 && |chains| == |cells|
    requires forall i :: 0 <= i < |cells| ==> cells[i].key.None? && cells[i].next == NONE && chains[i] == []
    ensures Growing(cells, chains, h, map[], 0, {})
  {
  }

  /** Copying an empty slot onto an unused one records its hash and nothing else. */
  lemma CopyEmptyUnused<K, V>(cells: seq<Cell<K, V>>, chains: seq<seq<int>>, h: K -> nat, model: map<K, V>, free: int, free': int, hash: nat, v: V)
    requires Sound(cells, chains, h, model, free) && free != NONE
    requires !Used(cells, Main(hash, |cells|))
    requires if Main(hash, |cells|) == free then NextFree(cells, free, free') && free' != NONE else free' == free
    ensures var pos := Main(hash, |cells|);
            Sound(cells[pos := Cell(None, hash, NONE, v)], chains, h, model, free')
  {
    hide Main;
    var pos := Main(hash, |cells|);
    var cells' := cells[pos := Cell(None, hash, NONE, v)];
    forall m | 0 <= m < |cells| ensures ChainOk(cells', chains[m], m) {
      ChainsDisjoint(cells, chains, m, pos);
      ChainKept(cells, cells', chains[m], m);
    }
    forall i | Used(cells', i) ensures i in chains[Main(cells'[i].hash, |cells'|)] { assert Used(cells, i); }
    MoveBinding(cells, cells', h, model, pos, pos);
  }

  /** Copying an empty slot onto a squatter moves the squatter out and leaves the slot empty. */
  lemma CopyEmptySquatted<K, V>(cells: seq<Cell<K, V>>, chains: seq<seq<int>>, h: K -> nat, model: map<K, V>, free: int, free': int,
                                hash: nat, v: V, j: nat)
    requires Sound(cells, chains, h, model, free) && free != NONE && free' != NONE
    requires var pos := Main(hash, |cells|); Used(cells, pos) && Main(cells[pos].hash, |cells|) != pos
    requires var pos := Main(hash, |cells|);
             var c := chains[Main(cells[pos].hash, |cells|)];
             && 0 < j < |c| && c[j] == pos && Used(cells, c[j - 1])
             && NextFree(cells[free := cells[pos]][c[j - 1] := cells[c[j - 1]].(next := free)][pos := Cell(None, hash, NONE, v)], free, free')
    ensures var pos := Main(hash, |cells|);
            var m := Main(cells[pos].hash, |cells|);
            var prev := chains[m][j - 1];
            Sound(cells[free := cells[pos]][prev := cells[prev].(next := free)][pos := Cell(None, hash, NONE, v)],
                  chains[m := chains[m][j := free]], h, model, free')
  {
    hide Main;
    var pos := Main(hash, |cells|);
    var m := Main(cells[pos].hash, |cells|);
    var prev := chains[m][j - 1];
    var empty := Cell(None, hash, NONE, v);
    var cells' := cells[free := cells[pos]][prev := cells[prev].(next := free)][pos := empty];
    Evict(cells, chains, pos, j, free, empty);
    MoveBinding(cells, cells', h, model, pos, free);
  }

  /** No used slot has the main position that the hash has. */
  ghost predicate MeetsNoHead<K, V>(cells: seq<Cell<K, V>>, hash: nat)
    requires |cells| > 0
  {
    forall q :: Used(cells, q) ==> Main(cells[q].hash, |cells|) != Main(hash, |cells|)
  }

  /** An empty slot of the old table is never copied onto the head of a chain of the new one: its hash
      still names its own slot, and no key of that main position was in the old table. */
  lemma EmptyMeetsNoHead<K, V>(cells: seq<Cell<K, V>>, chains: seq<seq<int>>, h: K -> nat, model: map<K, V>, i: nat,
                               bigger: seq<Cell<K, V>>, copied: map<K, V>)
    requires IsPow2(|cells|) && Sound(cells, chains, h, model, NONE) && i < |cells| && !Used(cells, i)
    requires |bigger| == 2 * |cells| && Represents(bigger, h, copied) && Copied(cells, i, model, copied)
    ensures forall q :: Used(bigger, q) ==> Main(bigger[q].hash, |bigger|) != Main(cells[i].hash, |bigger|)
  {
    AbsentMain(cells, chains, i);
    hide Main, IsPow2;
    forall q | Used(bigger, q) ensures Main(bigger[q].hash, |bigger|) != Main(cells[i].hash, |bigger|) {
      assert bigger[q].key.value in copied;
      var p :| 0 <= p < i && Used(cells, p) && cells[p].key.value == bigger[q].key.value;
      MainDoubled(cells[p].hash, cells[i].hash, |cells|);
    }
  }

  /** Hashes with different main positions still differ after doubling. */
  lemma MainDoubled(a: nat, b: nat, n: nat)
    requires IsPow2(n) && Main(a, n) != Main(b, n)
    ensures Main(a, 2 * n) != Main(b, 2 * n)
  {
    var k :| n == Pow2(k);
    if And(a, 2 * Pow2(k) - 1) == And(b, 2 * Pow2(k) - 1) { MaskDoubled(a, b, k); }
  }

  /** The copied bindings are those of the first i slots. */
  ghost predicate Copied<K, V>(cells: seq<Cell<K, V>>, i: nat, model: map<K, V>, copied: map<K, V>) {
    && i <= |cells|
    && (forall k :: k in copied ==> k in model && copied[k] == model[k])
    && (forall k :: k in copied ==> exists p :: 0 <= p < i && Used(cells, p) && cells[p].key.value == k)
    && (forall p :: 0 <= p < i && Used(cells, p) ==> cells[p].key.value in copied)
  }

  lemma CopiedNext<K, V>(cells: seq<Cell<K, V>>, h: K -> nat, i: nat, model: map<K, V>, copied: map<K, V>)
    requires Represents(cells, h, model) && Copied(cells, i, model, copied) && i < |cells|
    ensures Used(cells, i) ==> cells[i].key.value !in copied && cells[i].hash == h(cells[i].key.value)
    ensures Copied(cells, i + 1, model, if Used(cells, i) then copied[cells[i].key.value := cells[i].value] else copied)
  {
    var copied' := if Used(cells, i) then copied[cells[i].key.value := cells[i].value] else copied;
    forall k | k in copied' ensures exists p :: 0 <= p < i + 1 && Used(cells, p) && cells[p].key.value == k {
      if k in copied {
        var p :| 0 <= p < i && Used(cells, p) && cells[p].key.value == k;
        assert 0 <= p < i + 1;
      }
    }
  }

  lemma CopiedAll<K, V>(cells: seq<Cell<K, V>>, h: K -> nat, model: map<K, V>, copied: map<K, V>)
    requires Represents(cells, h, model) && Copied(cells, |cells|, model, copied)
    ensures copied == model
  {
    forall k | k in model ensures k in copied {
      var i :| Used(cells, i) && cells[i].key.value == k;
    }
  }

  lemma DoubledPow2(n: nat)
    requires IsPow2(n)
    ensures IsPow2(2 * n)
  {
    var k: nat :| n == Pow2(k);
    assert 2 * n == Pow2(k + 1);
  }

  class HashTable<K(==), V> {
    var slots: array<Cell<K, V>>
    var freeIndex: int
    const hashOf: K -> nat
    const zero: V

    ghost var chains: seq<seq<int>>
    ghost var model: map<K, V>

    ghost predicate Valid()
      reads this, slots
    {
      && slots.Length >= 2 && IsPow2(slots.Length)
      && Sound(slots[..], chains, hashOf, model, freeIndex)
    }

    constructor (hashOf: K -> nat, zero: V)
      ensures Valid() && fresh(slots) && model == map[]
      ensures this.hashOf == hashOf
    {
      this.hashOf, this.zero := hashOf, zero;
      slots := new Cell<K, V>[DEFAULT_CAPACITY](_ => Cell(None, 0, NONE, zero));
      freeIndex := 0;
      chains := seq(DEFAULT_CAPACITY, _ => []);
      model := map[];
      new;
      assert Pow2(1) == 2;
    }

    /** hash_table_advance_free_index */
    method AdvanceFreeIndex()
      requires 0 <= freeIndex < slots.Length
      modifies this`freeIndex
      ensures NextFree(slots[..], old(freeIndex), freeIndex)
    {
      var free := freeIndex + 1;
      while free != slots.Length
        invariant old(freeIndex) < free <= slots.Length
        invariant forall i :: old(freeIndex) < i < free ==> slots[i].key.Some?
      {
        if slots[free].key.None? {
          freeIndex := free;
          return;
        }
        free := free + 1;
      }
      freeIndex := NONE;
    }

    /** The walk down the chain that heads at pos, looking for k.  It ends at the slot of k, or at the
        last slot of the chain; prev is the slot before it. */
    method Walk(k: K, pos: nat) returns (found: bool, ent: nat, prev: int, ghost j: nat)
      requires Valid() && pos == Main(hashOf(k), slots.Length)
      requires Used(slots[..], pos) && Main(slots[pos].hash, slots.Length) == pos
      ensures j < |chains[pos]| && ent == chains[pos][j] && Used(slots[..], ent)
      ensures prev == if j > 0 then chains[pos][j - 1] else NONE
      ensures found == (k in model)
      ensures if found then slots[ent].key == Some(k) else j == |chains[pos]| - 1
    {
      hide Main;
      var hash := hashOf(k);
      ghost var cells, c := slots[..], chains[pos];
      FoundOnChain(cells, chains, hashOf, model, k);
      HeadOfChain(cells, chains, pos);
      ent, prev, j := pos, NONE, 0;
      while true
        invariant 0 <= j < |c| && ent == c[j] && Used(cells, ent)
        invariant prev == if j > 0 then c[j - 1] else NONE
        invariant forall i :: 0 <= i < j ==> cells[c[i]].key != Some(k)
        decreases |c| - j
      {
        assert slots[ent] == cells[c[j]];
        assert LinkOk(cells, c, pos, j);
        if slots[ent].hash == hash && slots[ent].key == Some(k) {
          found := true;
          return;
        }
        if slots[ent].next == NONE {
          found := false;
          return;
        }
        prev, ent, j := ent, slots[ent].next, j + 1;
      }
    }

    /** hash_table_get_by_cstr */
    method Get(k: K) returns (r: Option<V>)
      requires Valid()
      ensures r == if k in model then Some(model[k]) else None
    {
      hide Main;
      var pos := Main(hashOf(k), slots.Length);
      FoundOnChain(slots[..], chains, hashOf, model, k);
      if slots[pos].key.None? || Main(slots[pos].hash, slots.Length) != pos {
        return None;
      }
      var found, ent, _, _ := Walk(k, pos);
      return if found then Some(slots[ent].value) else None;
    }

    /** First case of hash_table_do_set: the main position is free. */
    method FillMain(k: K, v: V)
      requires Valid() && k !in model && !Used(slots[..], Main(hashOf(k), slots.Length))
      modifies this`freeIndex, this`chains, this`model, slots
      ensures Valid() && model == old(model)[k := v]
    {
      hide Main, Represents;
      var pos := Main(hashOf(k), slots.Length);
      ghost var cells, free := slots[..], freeIndex;
      if pos == freeIndex {
        AdvanceFreeIndex();
      }
      FillMainSound(cells, chains, hashOf, model, free, freeIndex, k, v);
      slots[pos] := slots[pos].(key := Some(k), hash := hashOf(k), value := v);
      assert slots[..] == Place(cells, pos, k, hashOf(k), v, NONE);
      chains, model := chains[pos := [pos]], model[k := v];
    }

    /** Second case: the main position is taken by a key that is not at home there. */
    method EvictAndFill(k: K, v: V)
      requires Valid() && k !in model && freeIndex != NONE
      requires var pos := Main(hashOf(k), slots.Length);
               Used(slots[..], pos) && Main(slots[pos].hash, slots.Length) != pos
      modifies this`freeIndex, this`chains, this`model, slots
      ensures Valid() && model == old(model)[k := v]
    {
      hide Main, Represents;
      var pos, free := Main(hashOf(k), slots.Length), freeIndex;
      ghost var cells := slots[..];
      ghost var m := Main(cells[pos].hash, |cells|);
      ghost var j := Relocate(slots, chains, pos, free);
      AdvanceFreeIndex();
      assert forall i :: i > free ==> Used(slots[..], i) == Used(cells, i);
      EvictAndFillSound(cells, chains, hashOf, model, free, freeIndex, k, v, j);
      slots[pos] := Cell(Some(k), hashOf(k), NONE, v);
      assert slots[..] == Place(cells[free := cells[pos]][chains[m][j - 1] := cells[chains[m][j - 1]].(next := free)], pos, k, hashOf(k), v, NONE);
      chains, model := chains[m := chains[m][j := free]][pos := [pos]], model[k := v];
    }

    /** Third case: the main position heads a chain; extend it unless the key is on it. */
    method SearchAndAppend(k: K, v: V) returns (ok: bool)
      requires Valid() && freeIndex != NONE
      requires var pos := Main(hashOf(k), slots.Length);
               Used(slots[..], pos) && Main(slots[pos].hash, slots.Length) == pos
      modifies this`freeIndex, this`chains, this`model, slots
      ensures Valid() && ok == (k !in old(model)) && model == if ok then old(model)[k := v] else old(model)
    {
      hide Main, Represents;
      var pos, free := Main(hashOf(k), slots.Length), freeIndex;
      ghost var cells := slots[..];
      var found, ent, _, _ := Walk(k, pos);
      if found {
        return false;
      }
      slots[ent] := slots[ent].(next := free);
      AdvanceFreeIndex();
      assert forall i :: i > free ==> Used(slots[..], i) == Used(cells, i);
      AppendSound(cells, chains, hashOf, model, free, freeIndex, k, v);
      slots[free] := slots[free].(key := Some(k), hash := hashOf(k), value := v);
      assert slots[..] == Place(cells[ent := cells[ent].(next := free)], free, k, hashOf(k), v, NONE);
      chains, model := chains[pos := chains[pos] + [free]], model[k := v];
      return true;
    }

    /** hash_table_do_set */
    method Set(k: K, v: V) returns (ok: bool)
      requires Valid()
      modifies this, slots
      ensures Valid() && (slots == old(slots) || (old(freeIndex) == NONE && fresh(slots) && slots.Length == 2 * old(slots.Length)))
      ensures ok == (k !in old(model))
      ensures model == if ok then old(model)[k := v] else old(model)
      decreases if freeIndex == NONE then 1 else 0
    {
      hide Main, Represents;
      var pos := Main(hashOf(k), slots.Length);
      FoundOnChain(slots[..], chains, hashOf, model, k);
      if slots[pos].key.None? {
        FillMain(k, v);
        return true;
      }
      if freeIndex != NONE {
        if Main(slots[pos].hash, slots.Length) != pos {
          EvictAndFill(k, v);
          return true;
        }
        ok := SearchAndAppend(k, v);
        return;
      }
      Grow();
      ok := Set(k, v);
    }

    /** hash_table_remove_by_cstr */
    method Remove(k: K)
      requires Valid()
      modifies this`freeIndex, this`chains, this`model, slots
      ensures Valid() && model == old(model) - {k}
    {
      hide Main, Represents;
      var pos := Main(hashOf(k), slots.Length);
      ghost var cells, free := slots[..], freeIndex;
      FoundOnChain(cells, chains, hashOf, model, k);
      if slots[pos].key.None? || Main(slots[pos].hash, slots.Length) != pos {
        return;
      }
      HeadOfChain(cells, chains, pos);
      var found, ent, prev, j := Walk(k, pos);
      if !found {
        return;
      }
      ghost var c := chains[pos];
      assert LinkOk(cells, c, pos, j) && cells[ent] == slots[ent];
      if prev != NONE {
        RemoveLaterSound(cells, chains, hashOf, model, free, pos, j);
        assert LinkOk(cells, c, pos, j - 1);
        var cur := slots[prev].next;
        slots[prev] := slots[prev].(next := slots[ent].next);
        freeIndex := Lowered(freeIndex, cur);
        slots[ent] := slots[ent].(key := None, next := NONE);
        assert slots[..] == cells[prev := cells[prev].(next := cells[ent].next)][ent := Cleared(cells[ent])];
        chains := chains[pos := c[..j] + c[j + 1..]];
      } else if slots[ent].next != NONE {
        var next := slots[ent].next;
        assert |c| > 1 && next == c[1];
        RemoveHeadSound(cells, chains, hashOf, model, free, pos);
        slots[ent] := slots[next];
        freeIndex := Lowered(freeIndex, next);
        slots[next] := slots[next].(key := None, next := NONE);
        assert slots[..] == cells[pos := cells[next]][next := Cleared(cells[next])];
        chains := chains[pos := [pos] + c[2..]];
      } else {
        RemoveOnlySound(cells, chains, hashOf, model, free, pos);
        slots[ent] := slots[ent].(key := None, next := NONE);
        assert slots[..] == cells[pos := Cleared(cells[pos])];
        chains := chains[pos := []];
      }
      model := model - {k};
    }

    /** hash_table_realloc: every slot of the old table, empty or not, is copied into one of twice the size. */
    method Grow()
      requires Valid() && freeIndex == NONE
      modifies this
      ensures Valid() && fresh(slots) && freeIndex != NONE && model == old(model) && slots.Length == 2 * old(slots.Length)
    {
      hide Main, Sound, Growing;
      ghost var links;
      var bigger;
      bigger, links := FreshSlots(2 * slots.Length, zero, hashOf);
      var free;
      free, links := CopyInto(slots, chains, hashOf, model, bigger, links);
      DoubledPow2(slots.Length);
      slots, freeIndex, chains := bigger, free, links;
    }
  }

  /** The copying loop. */
  method CopyInto<K, V>(slots: array<Cell<K, V>>, ghost chains: seq<seq<int>>, ghost h: K -> nat, ghost model: map<K, V>,
                        bigger: array<Cell<K, V>>, ghost empty: seq<seq<int>>)
    returns (free: nat, ghost links: seq<seq<int>>)
    requires IsPow2(slots.Length) && Sound(slots[..], chains, h, model, NONE)
    requires bigger != slots && bigger.Length == 2 * slots.Length && Growing(bigger[..], empty, h, map[], 0, {})
    modifies bigger
    ensures Sound(bigger[..], links, h, model, free) && 0 <= free < bigger.Length
  {
    ghost var cells := slots[..];
    ghost var copied: map<K, V>, touched := map[], {};
    CopiedNone(cells, model);
    free, links := 0, empty;
    hide Main, Sound, Used, IsPow2, Copied, Growing, With, MeetsNoHead;
    for i := 0 to slots.Length
      invariant slots[..] == cells
      invariant Growing(bigger[..], links, h, copied, free, touched) && |touched| <= i
      invariant Copied(cells, i, model, copied)
    {
      NextToCopy(cells, chains, h, model, i, bigger[..], links, copied, free, touched);
      free, links, touched := CopySlot(bigger, links, h, copied, touched, slots[i], free);
      copied := With(copied, cells[i]);
    }
    AllCopied(cells, chains, h, model, bigger[..], links, copied, free, touched);
  }

  ghost function With<K, V>(m: map<K, V>, ent: Cell<K, V>): map<K, V> {
    if ent.key.Some? then m[ent.key.value := ent.value] else m
  }

  /** The larger array, all slots unused. */
  method FreshSlots<K, V>(n: nat, zero: V, ghost h: K -> nat) returns (bigger: array<Cell<K, V>>, ghost links: seq<seq<int>>)
    requires n > 0
    ensures fresh(bigger) && bigger.Length == n && Growing(bigger[..], links, h, map[], 0, {})
  {
    bigger := new Cell<K, V>[n](_ => Cell(None, 0, NONE, zero));
    links := seq(n, _ => []);
    FreshTable(bigger[..], links, h);
  }

  lemma CopiedNone<K, V>(cells: seq<Cell<K, V>>, model: map<K, V>)
    ensures Copied(cells, 0, model, map[])
  {
  }

  /** The next slot to be copied meets the demands of the copying loop, whether used or not. */
  lemma NextToCopy<K, V>(cells: seq<Cell<K, V>>, chains: seq<seq<int>>, h: K -> nat, model: map<K, V>, i: nat,
                         bigger: seq<Cell<K, V>>, links: seq<seq<int>>, copied: map<K, V>, free: int, touched: set<int>)
    requires IsPow2(|cells|) && Sound(cells, chains, h, model, NONE) && i < |cells| && Copied(cells, i, model, copied)
    requires Growing(bigger, links, h, copied, free, touched) && |bigger| == 2 * |cells|
    ensures var ent := cells[i];
            && (ent.key.Some? ==> ent.key.value !in copied && ent.hash == h(ent.key.value))
            && (ent.key.None? ==> MeetsNoHead(bigger, ent.hash))
            && Copied(cells, i + 1, model, With(copied, ent))
  {
    hide Main, Represents, FreeOk, IsPow2, Copied, ChainOk;
    CopiedNext(cells, h, i, model, copied);
    if cells[i].key.None? { EmptyMeetsNoHead(cells, chains, h, model, i, bigger, copied); }
  }

  lemma AllCopied<K, V>(cells: seq<Cell<K, V>>, chains: seq<seq<int>>, h: K -> nat, model: map<K, V>,
                        bigger: seq<Cell<K, V>>, links: seq<seq<int>>, copied: map<K, V>, free: int, touched: set<int>)
    requires Sound(cells, chains, h, model, NONE) && Copied(cells, |cells|, model, copied) && Growing(bigger, links, h, copied, free, touched)
    ensures Sound(bigger, links, h, model, free) && 0 <= free < |bigger|
  {
    hide Represents, FreeOk, Copied, ChainOk, Used;
    CopiedAll(cells, h, model, copied);
  }

  /** Copy a slot whose new main position is unused. */
  method CopyToUnused<K, V>(slots: array<Cell<K, V>>, ghost chains: seq<seq<int>>, ghost h: K -> nat, ghost copied: map<K, V>,
                        ghost touched: set<int>, ent: Cell<K, V>, free: nat)
    returns (free': nat, ghost chains': seq<seq<int>>, ghost touched': set<int>)
    requires Growing(slots[..], chains, h, copied, free, touched) && |touched| + 1 < slots.Length
    requires ent.key.Some? ==> ent.key.value !in copied && ent.hash == h(ent.key.value)
    requires !Used(slots[..], Main(ent.hash, slots.Length))
    modifies slots
    ensures Growing(slots[..], chains', h, With(copied, ent), free', touched') && |touched'| <= |touched| + 1
  {
    hide Main, Represents;
    ghost var cells := slots[..];
    var pos := Main(ent.hash, slots.Length);
    slots[pos] := slots[pos].(key := ent.key, hash := ent.hash, value := ent.value);
    assert slots[..] == cells[pos := Cell(ent.key, ent.hash, NONE, ent.value)];
    touched' := touched + {pos};
    free' := free;
    if pos == free {
      free' := AdvanceCopy(slots, touched', free);
      assert forall i :: i > free ==> Used(slots[..], i) == Used(cells, i);
    }
    if ent.key.Some? {
      FillMainSound(cells, chains, h, copied, free, free', ent.key.value, ent.value);
      chains' := chains[pos := [pos]];
    } else {
      CopyEmptyUnused(cells, chains, h, copied, free, free', ent.hash, ent.value);
      chains' := chains;
    }
  }

  /** Copy a slot whose new main position is taken by a key that is not at home there. */
  method CopyToSquatted<K, V>(slots: array<Cell<K, V>>, ghost chains: seq<seq<int>>, ghost h: K -> nat, ghost copied: map<K, V>,
                        ghost touched: set<int>, ent: Cell<K, V>, free: nat)
    returns (free': nat, ghost chains': seq<seq<int>>, ghost touched': set<int>)
    requires Growing(slots[..], chains, h, copied, free, touched) && |touched| + 1 < slots.Length
    requires ent.key.Some? ==> ent.key.value !in copied && ent.hash == h(ent.key.value)
    requires var pos := Main(ent.hash, slots.Length);
             Used(slots[..], pos) && Main(slots[pos].hash, slots.Length) != pos
    modifies slots
    ensures Growing(slots[..], chains', h, With(copied, ent), free', touched') && |touched'| <= |touched| + 1
  {
    hide Main, Represents;
    ghost var cells := slots[..];
    var pos := Main(ent.hash, slots.Length);
    ghost var m := Main(slots[pos].hash, slots.Length);
    ghost var j := Relocate(slots, chains, pos, free);
    ghost var moved := slots[..];
    slots[pos] := Cell(ent.key, ent.hash, NONE, ent.value);
    assert slots[..] == moved[pos := Cell(ent.key, ent.hash, NONE, ent.value)];
    touched' := touched + {free};
    free' := AdvanceCopy(slots, touched', free);
    chains' := chains[m := chains[m][j := free]];
    if ent.key.Some? {
      assert forall i :: i > free ==> Used(slots[..], i) == Used(cells, i);
      EvictAndFillSound(cells, chains, h, copied, free, free', ent.key.value, ent.value, j);
      chains' := chains'[pos := [pos]];
    } else {
      CopyEmptySquatted(cells, chains, h, copied, free, free', ent.hash, ent.value, j);
    }
  }

  /** Copy a slot whose new main position heads a chain: append to that chain. */
  method CopyToHead<K, V>(slots: array<Cell<K, V>>, ghost chains: seq<seq<int>>, ghost h: K -> nat, ghost copied: map<K, V>,
                        ghost touched: set<int>, ent: Cell<K, V>, free: nat)
    returns (free': nat, ghost chains': seq<seq<int>>, ghost touched': set<int>)
    requires Growing(slots[..], chains, h, copied, free, touched) && |touched| + 1 < slots.Length
    requires ent.key.Some? ==> ent.key.value !in copied && ent.hash == h(ent.key.value)
    requires ent.key.Some?
    requires var pos := Main(ent.hash, slots.Length);
             Used(slots[..], pos) && Main(slots[pos].hash, slots.Length) == pos
    modifies slots
    ensures Growing(slots[..], chains', h, With(copied, ent), free', touched') && |touched'| <= |touched| + 1
  {
    hide Main, Represents;
    ghost var cells := slots[..];
    var pos := Main(ent.hash, slots.Length);
    HeadOfChain(cells, chains, pos);
    ghost var c, j := chains[pos], 0;
    var last := pos;
    while slots[last].next != NONE
      invariant 0 <= j < |c| && last == c[j] && Used(cells, last) && slots[..] == cells
      invariant LinkOk(cells, c, pos, j)
      decreases |c| - j
    {
      assert LinkOk(cells, c, pos, j + 1);
      last, j := slots[last].next, j + 1;
    }
    assert j + 1 < |c| ==> LinkOk(cells, c, pos, j + 1);
    assert j == |c| - 1;
    slots[last] := slots[last].(next := free);
    slots[free] := slots[free].(key := ent.key, hash := ent.hash, value := ent.value);
    assert slots[..] == Place(cells[last := cells[last].(next := free)], free, ent.key.value, ent.hash, ent.value, NONE);
    touched' := touched + {free};
    free' := AdvanceCopy(slots, touched', free);
    assert forall i :: i > free ==> Used(slots[..], i) == Used(cells, i);
    AppendSound(cells, chains, h, copied, free, free', ent.key.value, ent.value);
    chains' := chains[pos := c + [free]];
  }

  /** One turn of the copying loop. */
  method CopySlot<K, V>(slots: array<Cell<K, V>>, ghost chains: seq<seq<int>>, ghost h: K -> nat, ghost copied: map<K, V>,
                        ghost touched: set<int>, ent: Cell<K, V>, free: nat)
    returns (free': nat, ghost chains': seq<seq<int>>, ghost touched': set<int>)
    requires Growing(slots[..], chains, h, copied, free, touched) && |touched| + 1 < slots.Length
    requires ent.key.Some? ==> ent.key.value !in copied && ent.hash == h(ent.key.value)
    requires ent.key.None? ==> MeetsNoHead(slots[..], ent.hash)
    modifies slots
    ensures Growing(slots[..], chains', h, With(copied, ent), free', touched') && |touched'| <= |touched| + 1
  {
    hide Main, Represents;
    var pos := Main(ent.hash, slots.Length);
    if slots[pos].key.None? {
      free', chains', touched' := CopyToUnused(slots, chains, h, copied, touched, ent, free);
    } else if Main(slots[pos].hash, slots.Length) != pos {
      free', chains', touched' := CopyToSquatted(slots, chains, h, copied, touched, ent, free);
    } else {
      free', chains', touched' := CopyToHead(slots, chains, h, copied, touched, ent, free);
    }
  }

  /** The free index of the new table moves to the next unused slot; there always is one. */
  method AdvanceCopy<K, V>(slots: array<Cell<K, V>>, ghost touched: set<int>, free: nat) returns (free': nat)
    requires free < slots.Length && |touched| < slots.Length
    requires forall q :: Used(slots[..], q) || 0 <= q <= free ==> q in touched
    ensures NextFree(slots[..], free, free')
  {
    ghost var left := SlotLeft(touched, slots.Length);
    assert !Used(slots[..], left);
    free' := free + 1;
    while slots[free'].key.Some?
      invariant free < free' <= left
      invariant forall i :: free < i < free' ==> Used(slots[..], i)
      decreases left - free'
    {
      free' := free' + 1;
    }
  }

  /** Copy the squatter at pos to the free slot and relink its predecessor to it. */
  method Relocate<K, V>(slots: array<Cell<K, V>>, ghost chains: seq<seq<int>>, pos: nat, free: nat) returns (ghost j: nat)
    requires Linked(slots[..], chains) && Used(slots[..], pos) && Main(slots[pos].hash, slots.Length) != pos
    requires free < slots.Length && !Used(slots[..], free)
    modifies slots
    ensures var cells := old(slots[..]);
            var c := chains[Main(cells[pos].hash, |cells|)];
            && 0 < j < |c| && c[j] == pos && Used(cells, c[j - 1])
            && slots[..] == cells[free := cells[pos]][c[j - 1] := cells[c[j - 1]].(next := free)]
  {
    hide Main;
    ghost var cells := slots[..];
    var ent := Main(slots[pos].hash, slots.Length);
    ghost var home, c := ent, chains[ent];
    j := Predecessor(cells, chains, pos);
    HeadAtHome(cells, chains, pos);
    HeadOfChain(cells, chains, ent);
    slots[free] := slots[pos];
    ghost var i := 0;
    while slots[ent].next != pos
      invariant 0 <= i < j && ent == c[i] && Used(cells, ent)
      invariant slots[..] == cells[free := cells[pos]]
      decreases j - i
    {
      assert LinkOk(cells, c, home, i);
      ent, i := slots[ent].next, i + 1;
    }
    assert i == j - 1;
    slots[ent] := slots[ent].(next := free);
  }

  // ----- Whole histories

  datatype Op<K, V> = SetOp(k: K, v: V) | GetOp(k: K) | RemoveOp(k: K)

  datatype Reply<V> = Stored(ok: bool) | Found(r: Option<V>) | Gone

  /** A first-write-wins map. */
  function MapAfter<K, V>(m: map<K, V>, op: Op<K, V>): map<K, V> {
    match op
    case SetOp(k, v) => if k in m then m else m[k := v]
    case GetOp(_) => m
    case RemoveOp(k) => m - {k}
  }

  function MapReply<K, V>(m: map<K, V>, op: Op<K, V>): Reply<V> {
    match op
    case SetOp(k, _) => Stored(k !in m)
    case GetOp(k) => Found(if k in m then Some(m[k]) else None)
    case RemoveOp(_) => Gone
  }

  function MapRun<K, V>(m: map<K, V>, ops: seq<Op<K, V>>): (map<K, V>, seq<Reply<V>>)
    decreases |ops|
  {
    if ops == [] then (m, [])
    else
      var (m', replies) := MapRun(m, ops[..|ops| - 1]);
      var op := ops[|ops| - 1];
      (MapAfter(m', op), replies + [MapReply(m', op)])
  }

  /** Every history of operations on a new table is answered as the map answers it. */
  method Replay<K(==), V>(hashOf: K -> nat, zero: V, ops: seq<Op<K, V>>) returns (replies: seq<Reply<V>>)
    ensures replies == MapRun(map[], ops).1
  {
    var table := new HashTable<K, V>(hashOf, zero);
    replies := [];
    for i := 0 to |ops|
      invariant fresh(table) && fresh(table.slots) && table.Valid()
      invariant (table.model, replies) == MapRun(map[], ops[..i])
    {
      assert ops[..i + 1][..i] == ops[..i];
      match ops[i] {
        case SetOp(k, v) =>
          var ok := table.Set(k, v);
          replies := replies + [Stored(ok)];
        case GetOp(k) =>
          var r := table.Get(k);
          replies := replies + [Found(r)];
        case RemoveOp(k) =>
          table.Remove(k);
          replies := replies + [Gone];
      }
    }
    assert ops[..|ops|] == ops;
  }

  /** In the map, the value of a key is the one of its first set since its last removal. */
  lemma {:induction false} FirstWriteWins<K, V>(m: map<K, V>, ops: seq<Op<K, V>>, first: nat)
    requires first < |ops| && ops[first].SetOp?
    requires ops[first].k !in m
    requires forall i :: 0 <= i < first ==> ops[i].SetOp? ==> ops[i].k != ops[first].k
    requires forall i :: first < i < |ops| ==> ops[i].RemoveOp? ==> ops[i].k != ops[first].k
    ensures ops[first].k in MapRun(m, ops).0 && MapRun(m, ops).0[ops[first].k] == ops[first].v
    decreases |ops|
  {
    if first < |ops| - 1 {
      FirstWriteWins(m, ops[..|ops| - 1], first);
    } else {
      StaysAbsent(m, ops[..first], ops[first].k);
    }
  }

  lemma {:induction false} StaysAbsent<K, V>(m: map<K, V>, ops: seq<Op<K, V>>, k: K)
    requires k !in m && forall i :: 0 <= i < |ops| ==> ops[i].SetOp? ==> ops[i].k != k
    ensures k !in MapRun(m, ops).0
    decreases |ops|
  {
    if ops != [] { StaysAbsent(m, ops[..|ops| - 1], k); }
  }
}
