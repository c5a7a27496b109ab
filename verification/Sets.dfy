/** Finite sets of numbers: an element of a set, and its elements in order. */
module Sets {
  lemma HasElement<T>(s: set<T>) returns (some: T)
    requires s != {}
    ensures some in s
  {
    assert (forall x :: x !in s) ==> s == {};
    some :| some in s;
  }

  predicate IsLeast(ids: set<int>, least: int) { least in ids && forall id | id in ids :: least <= id }

  lemma {:induction false} HasLeast(ids: set<int>)
    requires ids != {}
    ensures exists least :: IsLeast(ids, least)
    decreases |ids|
  {
    var some := HasElement(ids);
    var rest := ids - {some};
    assert ids == rest + {some};
    if rest == {} {
      assert IsLeast(ids, some);
    } else {
      HasLeast(rest);
      var least :| IsLeast(rest, least);
      assert IsLeast(ids, if some < least then some else least);
    }
  }

  function Least(ids: set<int>): (least: int)
    requires ids != {}
    ensures IsLeast(ids, least)
  {
    HasLeast(ids);
    var least :| IsLeast(ids, least);
    least
  }

  /** The numbers in increasing order. */
  function Sorted(ids: set<int>): (s: seq<int>)
    ensures |s| == |ids| && forall i | 0 <= i < |s| :: s[i] in ids
    decreases |ids|
  {
    if ids == {} then []
    else
      var least := Least(ids);
      [least] + Sorted(ids - {least})
  }

  lemma {:induction false} SortedHas(ids: set<int>, id: int)
    requires id in ids
    ensures id in Sorted(ids)
    decreases |ids|
  {
    var least := Least(ids);
    if id != least {
      SortedHas(ids - {least}, id);
      assert id in [least] + Sorted(ids - {least});
    }
  }

  lemma {:induction false} SortedIncreases(ids: set<int>, i: nat, j: nat)
    requires i < j < |Sorted(ids)|
    ensures Sorted(ids)[i] < Sorted(ids)[j]
    decreases |ids|
  {
    var least := Least(ids);
    var rest := Sorted(ids - {least});
    assert rest[j - 1] in ids - {least};
    if i > 0 {
      SortedIncreases(ids - {least}, i - 1, j - 1);
    }
  }
}
