/** Lists without repeats, and the removal that the growable arrays offer (`eqp_array.c`): the last element takes the
    place of the removed one. */
module Arrays {

  ghost predicate NoRepeats<T>(s: seq<T>) { forall i, j :: 0 <= i < j < |s| ==> s[i] != s[j] }

  /** array_swap_and_pop */
  function SwapAndPop<T>(s: seq<T>, i: nat): (r: seq<T>)
    ensures i < |s| ==> |r| == |s| - 1 && forall k :: 0 <= k < |r| ==> r[k] == if k == i then s[|s| - 1] else s[k]
    ensures i >= |s| ==> r == s
  {
    if i >= |s| then s else if i == |s| - 1 then s[..i] else s[i := s[|s| - 1]][..|s| - 1]
  }

  /** From a list without repeats, exactly one element is gone. */
  lemma SwapAndPopMembers<T>(s: seq<T>, i: nat)
    requires i < |s| && NoRepeats(s)
    ensures forall x :: x in SwapAndPop(s, i) <==> x in s && x != s[i]
  {
    var r := SwapAndPop(s, i);
    forall x ensures x in r <==> x in s && x != s[i] {
      if x in s && x != s[i] {
        var k :| 0 <= k < |s| && s[k] == x;
        assert r[if k == |s| - 1 then i else k] == x;
      }
      if x in r {
        var k :| 0 <= k < |r| && r[k] == x;
        assert s[if k == i then |s| - 1 else k] == x;
      }
    }
  }
}
