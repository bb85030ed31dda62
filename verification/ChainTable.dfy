/**
  The collision scheme that the string hash table and the item index share.  Every key has a main
  position, its hash masked by the capacity.  A key whose main position is taken by a key of the
  same main position goes to a free slot and is linked behind it; a key found squatting in a main
  position that is not its own is moved to a free slot.  So every occupied main position heads one
  chain, and that chain holds exactly the keys of that main position.
 */
module ChainTable {
  import opened Wrappers
  import opened Arrays
  import opened Bits

  const NONE: int := -1

  datatype Cell<K, V> = Cell(key: Option<K>, hash: nat, next: int, value: V)

  /** The main position of a hash in a table of the given capacity. */
  function Main(hash: nat, capacity: nat): (m: nat)
    requires capacity > 0
    ensures m < capacity
  {
    And(hash, capacity - 1)
  }

  /** In a table whose capacity is a power of two, the main position of a hash is its remainder. */
  lemma MainIsRemainder(hash: nat, capacity: nat) returns (q: nat)
    requires IsPow2(capacity)
    ensures hash == q * capacity + Main(hash, capacity)
  {
    var k: nat :| capacity == Pow2(k);
    hide And;
    q := MaskIsRemainder(hash, k);
  }

  ghost predicate Used<K, V>(cells: seq<Cell<K, V>>, i: int)
  {
    0 <= i < |cells| && cells[i].key.Some?
  }

  /** Position j of the chain of m is an occupied slot of main position m that links to position j + 1. */
  ghost predicate LinkOk<K, V>(cells: seq<Cell<K, V>>, chain: seq<int>, m: nat, j: nat)
    requires |cells| > 0 && j < |chain|
  {
    && Used(cells, chain[j])
    && Main(cells[chain[j]].hash, |cells|) == m
    && cells[chain[j]].next == (if j + 1 < |chain| then chain[j + 1] else NONE)
    && (j == 0 ==> chain[j] == m)
  }

  ghost predicate ChainOk<K, V>(cells: seq<Cell<K, V>>, chain: seq<int>, m: nat)
    requires |cells| > 0
  {
    && (forall j :: 0 <= j < |chain| ==> LinkOk(cells, chain, m, j))
    && NoRepeats(chain)
  }

  /** chains[m] lists, in link order, all slots whose key has main position m. */
  ghost predicate Linked<K, V>(cells: seq<Cell<K, V>>, chains: seq<seq<int>>) {
    && |cells| > 0 && |chains| == |cells|
    && (forall m :: 0 <= m < |cells| ==> ChainOk(cells, chains[m], m))
    && (forall i :: Used(cells, i) ==> i in chains[Main(cells[i].hash, |cells|)])
    && (forall i :: 0 <= i < |cells| && !Used(cells, i) ==> cells[i].next == NONE)
  }

  /** The table holds exactly the bindings of the map, each key in one slot, with the key's hash. */
  ghost predicate Represents<K, V>(cells: seq<Cell<K, V>>, h: K -> nat, model: map<K, V>) {
    && (forall i :: Used(cells, i) ==>
          cells[i].key.value in model && model[cells[i].key.value] == cells[i].value && cells[i].hash == h(cells[i].key.value))
    && (forall k :: k in model ==> exists i :: Used(cells, i) && cells[i].key.value == k)
    && (forall i, j :: Used(cells, i) && Used(cells, j) && cells[i].key == cells[j].key ==> i == j)
  }

  ghost predicate Holds<K, V>(cells: seq<Cell<K, V>>, k: K) {
    exists i :: Used(cells, i) && cells[i].key.value == k
  }

  ghost function Place<K, V>(cells: seq<Cell<K, V>>, i: nat, k: K, hash: nat, v: V, next: int): seq<Cell<K, V>>
    requires i < |cells|
  {
    cells[i := Cell(Some(k), hash, next, v)]
  }

  /** If the main position of a hash is free or squatted, no key of that main position is present. */
  lemma AbsentMain<K, V>(cells: seq<Cell<K, V>>, chains: seq<seq<int>>, m: nat)
    requires Linked(cells, chains) && m < |cells|
    requires !Used(cells, m) || Main(cells[m].hash, |cells|) != m
    ensures chains[m] == []
    ensures forall i :: Used(cells, i) ==> Main(cells[i].hash, |cells|) != m
  {
    hide Main;
    assert ChainOk(cells, chains[m], m);
    assert chains[m] != [] ==> LinkOk(cells, chains[m], m, 0);
  }

  /** A slot belongs to no chain but that of its own main position. */
  lemma ChainsDisjoint<K, V>(cells: seq<Cell<K, V>>, chains: seq<seq<int>>, m: nat, i: int)
    requires Linked(cells, chains) && m < |cells|
    requires Used(cells, i) ==> Main(cells[i].hash, |cells|) != m
    ensures i !in chains[m]
  {
    hide Main;
    assert ChainOk(cells, chains[m], m);
    forall j | 0 <= j < |chains[m]| ensures chains[m][j] != i { assert LinkOk(cells, chains[m], m, j); }
  }

  /** A chain survives a change that leaves its slots alone. */
  lemma ChainKept<K, V>(cells: seq<Cell<K, V>>, cells': seq<Cell<K, V>>, chain: seq<int>, m: nat)
    requires |cells| > 0 && |cells'| == |cells| && ChainOk(cells, chain, m)
    requires forall i :: i in chain && 0 <= i < |cells| ==> cells'[i] == cells[i]
    ensures ChainOk(cells', chain, m)
  {
    hide Main;
    forall j | 0 <= j < |chain| ensures LinkOk(cells', chain, m, j) {
      assert LinkOk(cells, chain, m, j);
      assert chain[j] in chain;
    }
  }

  // ----- Insertion into a free main position

  lemma InsertMain<K, V>(cells: seq<Cell<K, V>>, chains: seq<seq<int>>, m: nat, k: K, hash: nat, v: V)
    requires Linked(cells, chains) && m < |cells| && !Used(cells, m) && Main(hash, |cells|) == m
    ensures Linked(Place(cells, m, k, hash, v, NONE), chains[m := [m]])
  {
    hide Main;
    var cells', chains' := Place(cells, m, k, hash, v, NONE), chains[m := [m]];
    AbsentMain(cells, chains, m);
    forall q | 0 <= q < |cells| ensures ChainOk(cells', chains'[q], q) {
      if q == m {
        assert LinkOk(cells', [m], m, 0);
      } else {
        ChainsDisjoint(cells, chains, q, m);
        ChainKept(cells, cells', chains[q], q);
      }
    }
    forall i | Used(cells', i) ensures i in chains'[Main(cells'[i].hash, |cells'|)] {
      if i != m { assert Used(cells, i); }
    }
  }

  /** What any insertion of an absent key does to the bindings. */
  lemma InsertBinding<K, V>(cells: seq<Cell<K, V>>, cells': seq<Cell<K, V>>, h: K -> nat, model: map<K, V>,
                            k: K, v: V, at: nat, from: nat, to: nat)
    requires Represents(cells, h, model) && k !in model && |cells'| == |cells|
    requires at < |cells| && from < |cells| && to < |cells|
    // every old binding stays, except that the one at `from` may have moved to the free slot `to`
    requires forall i :: 0 <= i < |cells| && i != at && i != to ==> SameBinding(cells[i], cells'[i])
    requires from == to ==> !Used(cells, at) && (to != at ==> SameBinding(cells[to], cells'[to]))
    requires from != to ==> from == at && !Used(cells, to) && Used(cells, at) && SameBinding(cells[at], cells'[to])
    requires cells'[at].key == Some(k) && cells'[at].hash == h(k) && cells'[at].value == v
    ensures Represents(cells', h, model[k := v])
  {
    var model' := model[k := v];
    forall q | q in model' ensures exists i :: Used(cells', i) && cells'[i].key.value == q {
      if q == k {
        assert Used(cells', at);
      } else {
        var i :| Used(cells, i) && cells[i].key.value == q;
        var i' := if from != to && i == from then to else i;
        assert Used(cells', i') && cells'[i'].key.value == q;
      }
    }
    forall i | Used(cells', i) && i != at
      ensures var o := if from != to && i == to then from else i;
              Used(cells, o) && SameBinding(cells[o], cells'[i])
    {
    }
  }

  ghost predicate SameBinding<K, V>(a: Cell<K, V>, b: Cell<K, V>) {
    a.key == b.key && (a.key.Some? ==> a.hash == b.hash && a.value == b.value)
  }

  // ----- Insertion behind a main position

  lemma Append<K, V>(cells: seq<Cell<K, V>>, chains: seq<seq<int>>, m: nat, free: nat, k: K, hash: nat, v: V)
    requires Linked(cells, chains) && m < |cells| && Used(cells, m) && Main(cells[m].hash, |cells|) == m
    requires free < |cells| && !Used(cells, free) && Main(hash, |cells|) == m
    ensures chains[m] != [] && Used(cells, chains[m][|chains[m]| - 1])
    ensures var last := chains[m][|chains[m]| - 1];
            Linked(Place(cells[last := cells[last].(next := free)], free, k, hash, v, NONE),
                   chains[m := chains[m] + [free]])
  {
    hide Main;
    var c := chains[m];
    assert ChainOk(cells, c, m) && m in c;
    assert LinkOk(cells, c, m, |c| - 1);
    var last := c[|c| - 1];
    var cells' := Place(cells[last := cells[last].(next := free)], free, k, hash, v, NONE);
    var c' := c + [free];
    var chains' := chains[m := c'];
    forall q | 0 <= q < |cells| ensures ChainOk(cells', chains'[q], q) {
      ChainsDisjoint(cells, chains, q, free);
      if q == m {
        forall j | 0 <= j < |c'| ensures LinkOk(cells', c', m, j) {
          if j < |c| { assert LinkOk(cells, c, m, j); assert c[j] in c; }
        }
      } else {
        ChainsDisjoint(cells, chains, q, last);
        ChainKept(cells, cells', chains[q], q);
      }
    }
    forall i | Used(cells', i) ensures i in chains'[Main(cells'[i].hash, |cells'|)] {
      if i != free { assert Used(cells, i); } else { assert c'[|c|] == free; }
    }
  }

  // ----- Eviction of a squatter

  /** The slot that links to a squatter. */
  lemma Predecessor<K, V>(cells: seq<Cell<K, V>>, chains: seq<seq<int>>, pos: nat) returns (j: nat)
    requires Linked(cells, chains) && Used(cells, pos) && Main(cells[pos].hash, |cells|) != pos
    ensures var c := chains[Main(cells[pos].hash, |cells|)];
            0 < j < |c| && c[j] == pos && Used(cells, c[j - 1]) && cells[c[j - 1]].next == pos
    ensures var c := chains[Main(cells[pos].hash, |cells|)];
            forall i :: 0 <= i < |c| && i != j - 1 ==> Used(cells, c[i]) && cells[c[i]].next != pos
  {
    hide Main;
    var m := Main(cells[pos].hash, |cells|);
    var c := chains[m];
    assert ChainOk(cells, c, m) && pos in c;
    j :| 0 <= j < |c| && c[j] == pos;
    assert LinkOk(cells, c, m, 0) && LinkOk(cells, c, m, j);
    assert LinkOk(cells, c, m, j - 1);
    forall i | 0 <= i < |c| && i != j - 1 ensures Used(cells, c[i]) && cells[c[i]].next != pos { assert LinkOk(cells, c, m, i); }
  }

  /** Moving the squatter at pos to a free slot empties pos and keeps the chains. */
  lemma Evict<K, V>(cells: seq<Cell<K, V>>, chains: seq<seq<int>>, pos: nat, j: nat, free: nat, cell: Cell<K, V>)
    requires Linked(cells, chains) && Used(cells, pos) && Main(cells[pos].hash, |cells|) != pos
    requires var c := chains[Main(cells[pos].hash, |cells|)]; 0 < j < |c| && c[j] == pos
    requires free < |cells| && !Used(cells, free)
    requires cell.key.None? && cell.next == NONE
    ensures var m := Main(cells[pos].hash, |cells|);
            Used(cells, chains[m][j - 1])
    ensures var m := Main(cells[pos].hash, |cells|);
            var prev := chains[m][j - 1];
            Linked(cells[free := cells[pos]][prev := cells[prev].(next := free)][pos := cell], chains[m := chains[m][j := free]])
  {
    hide Main;
    var m := Main(cells[pos].hash, |cells|);
    var c := chains[m];
    assert ChainOk(cells, c, m) && LinkOk(cells, c, m, j - 1) && LinkOk(cells, c, m, j);
    var prev := c[j - 1];
    var cells' := cells[free := cells[pos]][prev := cells[prev].(next := free)][pos := cell];
    var c' := c[j := free];
    var chains' := chains[m := c'];
    forall q | 0 <= q < |cells| ensures ChainOk(cells', chains'[q], q) {
      ChainsDisjoint(cells, chains, q, free);
      if q == m {
        forall i | 0 <= i < |c'| ensures LinkOk(cells', c', m, i) {
          assert LinkOk(cells, c, m, i);
          assert c[i] in c;
        }
      } else {
        ChainsDisjoint(cells, chains, q, pos);
        ChainsDisjoint(cells, chains, q, prev);
        ChainKept(cells, cells', chains[q], q);
      }
    }
    forall i | Used(cells', i) ensures i in chains'[Main(cells'[i].hash, |cells'|)] {
      if i == free {
        assert c'[j] == free;
      } else {
        assert Used(cells, i) && i in chains[Main(cells[i].hash, |cells|)];
        if Main(cells[i].hash, |cells|) == m {
          var k :| 0 <= k < |c| && c[k] == i;
          assert c'[k] == i;
        }
      }
    }
  }

  // ----- Removal

  ghost function Cleared<K, V>(cell: Cell<K, V>): Cell<K, V> { cell.(key := None, next := NONE) }

  /** Unlinking a slot that is not the head of its chain. */
  lemma RemoveLater<K, V>(cells: seq<Cell<K, V>>, chains: seq<seq<int>>, m: nat, j: nat)
    requires Linked(cells, chains) && m < |cells| && 0 < j < |chains[m]|
    ensures Used(cells, chains[m][j - 1]) && Used(cells, chains[m][j])
    ensures var prev, cur := chains[m][j - 1], chains[m][j];
            Linked(cells[prev := cells[prev].(next := cells[cur].next)][cur := Cleared(cells[cur])],
                   chains[m := chains[m][..j] + chains[m][j + 1..]])
  {
    hide Main;
    var c := chains[m];
    assert ChainOk(cells, c, m) && LinkOk(cells, c, m, j - 1) && LinkOk(cells, c, m, j);
    var prev, cur := c[j - 1], c[j];
    var cells' := cells[prev := cells[prev].(next := cells[cur].next)][cur := Cleared(cells[cur])];
    var c' := c[..j] + c[j + 1..];
    var chains' := chains[m := c'];
    forall q | 0 <= q < |cells| ensures ChainOk(cells', chains'[q], q) {
      if q == m {
        forall i | 0 <= i < |c'| ensures LinkOk(cells', c', m, i) {
          assert LinkOk(cells, c, m, if i < j then i else i + 1);
          assert c'[i] == c[if i < j then i else i + 1];
          assert i + 1 < |c'| ==> c'[i + 1] == c[if i + 1 < j then i + 1 else i + 2];
        }
        assert NoRepeats(c') by {
          forall i, k | 0 <= i < k < |c'| ensures c'[i] != c'[k] {
            assert c'[i] == c[if i < j then i else i + 1] && c'[k] == c[if k < j then k else k + 1];
          }
        }
      } else {
        ChainsDisjoint(cells, chains, q, cur);
        ChainsDisjoint(cells, chains, q, prev);
        ChainKept(cells, cells', chains[q], q);
      }
    }
    forall i | Used(cells', i) ensures i in chains'[Main(cells'[i].hash, |cells'|)] {
      assert Used(cells, i) && i in chains[Main(cells[i].hash, |cells|)];
      if Main(cells[i].hash, |cells|) == m {
        var k :| 0 <= k < |c| && c[k] == i;
        assert c'[if k < j then k else k - 1] == i;
      }
    }
  }

  /** Removing the head of a longer chain pulls its successor into the main position. */
  lemma RemoveHead<K, V>(cells: seq<Cell<K, V>>, chains: seq<seq<int>>, m: nat)
    requires Linked(cells, chains) && m < |cells| && |chains[m]| > 1
    ensures Used(cells, chains[m][1])
    ensures var next := chains[m][1];
            Linked(cells[m := cells[next]][next := Cleared(cells[next])], chains[m := [m] + chains[m][2..]])
  {
    hide Main;
    var c := chains[m];
    assert ChainOk(cells, c, m) && LinkOk(cells, c, m, 0) && LinkOk(cells, c, m, 1);
    var next := c[1];
    var cells' := cells[m := cells[next]][next := Cleared(cells[next])];
    var c' := [m] + c[2..];
    var chains' := chains[m := c'];
    forall q | 0 <= q < |cells| ensures ChainOk(cells', chains'[q], q) {
      if q == m {
        forall i | 0 <= i < |c'| ensures LinkOk(cells', c', m, i) {
          assert LinkOk(cells, c, m, i + 1);
          assert i > 0 ==> c'[i] == c[i + 1];
          assert i + 1 < |c'| ==> c'[i + 1] == c[i + 2];
        }
        assert NoRepeats(c') by {
          forall i, k | 0 <= i < k < |c'| ensures c'[i] != c'[k] {
            assert c'[k] == c[k + 1] && c'[i] == c[if i == 0 then 0 else i + 1];
          }
        }
      } else {
        ChainsDisjoint(cells, chains, q, m);
        ChainsDisjoint(cells, chains, q, next);
        ChainKept(cells, cells', chains[q], q);
      }
    }
    forall i | Used(cells', i) ensures i in chains'[Main(cells'[i].hash, |cells'|)] {
      assert Used(cells, i) && i in chains[Main(cells[i].hash, |cells|)];
      if Main(cells[i].hash, |cells|) == m {
        var k :| 0 <= k < |c| && c[k] == i;
        assert c'[if k == 0 then 0 else k - 1] == i;
      }
    }
  }

  /** Removing the only slot of a chain. */
  lemma RemoveOnly<K, V>(cells: seq<Cell<K, V>>, chains: seq<seq<int>>, m: nat)
    requires Linked(cells, chains) && m < |cells| && |chains[m]| == 1
    ensures Linked(cells[m := Cleared(cells[m])], chains[m := []])
  {
    hide Main;
    var c := chains[m];
    assert ChainOk(cells, c, m) && LinkOk(cells, c, m, 0);
    var cells' := cells[m := Cleared(cells[m])];
    var chains' := chains[m := []];
    forall q | 0 <= q < |cells| ensures ChainOk(cells', chains'[q], q) {
      if q != m {
        ChainsDisjoint(cells, chains, q, m);
        ChainKept(cells, cells', chains[q], q);
      }
    }
    forall i | Used(cells', i) ensures i in chains'[Main(cells'[i].hash, |cells'|)] {
      assert Used(cells, i) && i in chains[Main(cells[i].hash, |cells|)];
      assert c == [m] && i !in c;
    }
  }

  /** What any removal does to the bindings: the key at `at` goes; the one at `from` may move there. */
  lemma RemoveBinding<K, V>(cells: seq<Cell<K, V>>, cells': seq<Cell<K, V>>, h: K -> nat, model: map<K, V>, k: K, at: nat, from: nat)
    requires Represents(cells, h, model) && |cells'| == |cells|
    requires Used(cells, at) && cells[at].key.value == k && Used(cells, from)
    requires forall i :: 0 <= i < |cells| && i != at && i != from ==> SameBinding(cells[i], cells'[i])
    requires cells'[from].key.None?
    requires from != at ==> SameBinding(cells[from], cells'[at])
    ensures Represents(cells', h, model - {k})
  {
    var model' := model - {k};
    forall q | q in model' ensures exists i :: Used(cells', i) && cells'[i].key.value == q {
      var i :| Used(cells, i) && cells[i].key.value == q;
      var i' := if i == from then at else i;
      assert Used(cells', i') && cells'[i'].key.value == q;
    }
    forall i | Used(cells', i)
      ensures var o := if i == at then from else i;
              Used(cells, o) && SameBinding(cells[o], cells'[i]) && o != at
    {
    }
  }

  ghost function Source(i: int, from: nat, to: nat): int { if i == to then from else i }

  /** Moving a binding to an unused slot, or none at all (from == to), keeps the bindings. */
  lemma MoveBinding<K, V>(cells: seq<Cell<K, V>>, cells': seq<Cell<K, V>>, h: K -> nat, model: map<K, V>, from: nat, to: nat)
    requires Represents(cells, h, model) && |cells'| == |cells| && from < |cells| && to < |cells|
    requires forall i :: 0 <= i < |cells| && i != from && i != to ==> SameBinding(cells[i], cells'[i])
    requires SameBinding(cells[from], cells'[to])
    requires from != to ==> !Used(cells, to) && !Used(cells', from)
    ensures Represents(cells', h, model)
  {
    forall i | Used(cells', i) ensures Used(cells, Source(i, from, to)) && SameBinding(cells[Source(i, from, to)], cells'[i]) {
    }
    forall k | k in model ensures exists i :: Used(cells', i) && cells'[i].key.value == k {
      var i :| Used(cells, i) && cells[i].key.value == k;
      var i' := if i == from then to else i;
      assert Used(cells', i') && cells'[i'].key.value == k;
    }
  }

  // ----- Lookup

  /** A key is present exactly if it is found on the chain of its main position. */
  lemma FoundOnChain<K, V>(cells: seq<Cell<K, V>>, chains: seq<seq<int>>, h: K -> nat, model: map<K, V>, k: K)
    requires Linked(cells, chains) && Represents(cells, h, model)
    ensures var c := chains[Main(h(k), |cells|)];
            && (forall j :: 0 <= j < |c| ==> Used(cells, c[j]))
            && (k in model <==> exists j :: 0 <= j < |c| && cells[c[j]].key == Some(k))
            && (k in model ==> Used(cells, Main(h(k), |cells|)) && Main(cells[Main(h(k), |cells|)].hash, |cells|) == Main(h(k), |cells|))
  {
    hide Main;
    var m := Main(h(k), |cells|);
    var c := chains[m];
    assert ChainOk(cells, c, m);
    forall j | 0 <= j < |c| ensures Used(cells, c[j]) { assert LinkOk(cells, c, m, j); }
    if k in model {
      var i :| Used(cells, i) && cells[i].key.value == k;
      assert i in c;
      var j :| 0 <= j < |c| && c[j] == i;
      assert cells[c[j]].key == Some(k);
      assert LinkOk(cells, c, m, 0);
    }
  }

  /** The main position of a squatter is taken by a key that is at home there. */
  lemma HeadAtHome<K, V>(cells: seq<Cell<K, V>>, chains: seq<seq<int>>, pos: nat)
    requires Linked(cells, chains) && Used(cells, pos)
    ensures var m := Main(cells[pos].hash, |cells|);
            Used(cells, m) && Main(cells[m].hash, |cells|) == m
  {
    hide Main;
    var m := Main(cells[pos].hash, |cells|);
    assert pos in chains[m] && ChainOk(cells, chains[m], m) && LinkOk(cells, chains[m], m, 0);
  }

  /** An occupied slot in its main position heads its chain. */
  lemma HeadOfChain<K, V>(cells: seq<Cell<K, V>>, chains: seq<seq<int>>, m: nat)
    requires Linked(cells, chains) && Used(cells, m) && Main(cells[m].hash, |cells|) == m
    ensures chains[m] != [] && chains[m][0] == m
    ensures forall j :: 0 <= j < |chains[m]| ==> LinkOk(cells, chains[m], m, j)
  {
    hide Main;
    assert ChainOk(cells, chains[m], m) && m in chains[m];
    assert LinkOk(cells, chains[m], m, 0);
  }

  // ----- The three ways to insert an absent key

  /** The chains and the bindings of a table. */
  ghost predicate Table<K, V>(cells: seq<Cell<K, V>>, chains: seq<seq<int>>, h: K -> nat, model: map<K, V>) {
    Linked(cells, chains) && Represents(cells, h, model)
  }

  lemma FillMain<K, V>(cells: seq<Cell<K, V>>, chains: seq<seq<int>>, h: K -> nat, model: map<K, V>, k: K, v: V)
    requires Table(cells, chains, h, model) && k !in model && !Used(cells, Main(h(k), |cells|))
    ensures var pos := Main(h(k), |cells|);
            Table(Place(cells, pos, k, h(k), v, NONE), chains[pos := [pos]], h, model[k := v])
  {
    hide Main;
    var pos := Main(h(k), |cells|);
    InsertMain(cells, chains, pos, k, h(k), v);
    InsertBinding(cells, Place(cells, pos, k, h(k), v, NONE), h, model, k, v, pos, pos, pos);
  }

  lemma EvictAndFill<K, V>(cells: seq<Cell<K, V>>, chains: seq<seq<int>>, h: K -> nat, model: map<K, V>, free: nat, k: K, v: V, j: nat)
    requires Table(cells, chains, h, model) && k !in model && free < |cells| && !Used(cells, free)
    requires var pos := Main(h(k), |cells|); Used(cells, pos) && Main(cells[pos].hash, |cells|) != pos
    requires var pos := Main(h(k), |cells|);
             var c := chains[Main(cells[pos].hash, |cells|)];
             0 < j < |c| && c[j] == pos && Used(cells, c[j - 1])
    ensures var pos := Main(h(k), |cells|);
            var m := Main(cells[pos].hash, |cells|);
            var prev := chains[m][j - 1];
            Table(Place(cells[free := cells[pos]][prev := cells[prev].(next := free)], pos, k, h(k), v, NONE),
                  chains[m := chains[m][j := free]][pos := [pos]], h, model[k := v])
  {
    hide Main;
    var pos := Main(h(k), |cells|);
    var m := Main(cells[pos].hash, |cells|);
    var prev := chains[m][j - 1];
    var empty := Cell(None, h(k), NONE, v);
    var emptied := cells[free := cells[pos]][prev := cells[prev].(next := free)][pos := empty];
    Evict(cells, chains, pos, j, free, empty);
    InsertMain(emptied, chains[m := chains[m][j := free]], pos, k, h(k), v);
    var cells' := Place(cells[free := cells[pos]][prev := cells[prev].(next := free)], pos, k, h(k), v, NONE);
    assert cells' == Place(emptied, pos, k, h(k), v, NONE);
    InsertBinding(cells, cells', h, model, k, v, pos, pos, free);
  }

  lemma AppendToChain<K, V>(cells: seq<Cell<K, V>>, chains: seq<seq<int>>, h: K -> nat, model: map<K, V>, free: nat, k: K, v: V)
    requires Table(cells, chains, h, model) && k !in model && free < |cells| && !Used(cells, free)
    requires var pos := Main(h(k), |cells|); Used(cells, pos) && Main(cells[pos].hash, |cells|) == pos
    ensures var pos := Main(h(k), |cells|);
            var c := chains[pos];
            && c != [] && Used(cells, c[|c| - 1])
            && Table(Place(cells[c[|c| - 1] := cells[c[|c| - 1]].(next := free)], free, k, h(k), v, NONE),
                     chains[pos := c + [free]], h, model[k := v])
  {
    hide Main;
    var pos := Main(h(k), |cells|);
    Append(cells, chains, pos, free, k, h(k), v);
    var last := chains[pos][|chains[pos]| - 1];
    InsertBinding(cells, Place(cells[last := cells[last].(next := free)], free, k, h(k), v, NONE), h, model, k, v, free, free, free);
  }

  /** Fewer touched slots than slots leave one untouched. */
  lemma {:induction false} SlotLeft(touched: set<int>, n: nat) returns (q: nat)
    requires |touched| < n
    ensures q < n && q !in touched
  {
    if n - 1 in touched {
      q := SlotLeft(touched - {n - 1}, n - 1);
    } else {
      q := n - 1;
    }
  }
}
