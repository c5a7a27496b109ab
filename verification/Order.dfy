/** Strings in the order of their characters, and finite sets of them as sorted lists. */
module Order {
  import opened Sets

  predicate Less(a: string, b: string)
    decreases |a|
  {
    if b == "" then false
    else if a == "" then true
    else if a[0] != b[0] then a[0] < b[0]
    else Less(a[1..], b[1..])
  }

  lemma {:induction false} LessIsTotal(a: string, b: string)
    ensures a == b || Less(a, b) || Less(b, a)
    ensures !(Less(a, b) && Less(b, a)) && !Less(a, a)
    decreases |a|
  {
    if a != "" {
      LessIsTotal(a[1..], a[1..]);
      if b != "" {
        LessIsTotal(a[1..], b[1..]);
        assert a == [a[0]] + a[1..] && b == [b[0]] + b[1..];
      }
    }
  }

  lemma {:induction false} LessIsTransitive(a: string, b: string, c: string)
    requires Less(a, b) && Less(b, c)
    ensures Less(a, c)
    decreases |a|
  {
    if a != "" && a[0] == b[0] && b[0] == c[0] {
      LessIsTransitive(a[1..], b[1..], c[1..]);
    }
  }

  predicate IsFirst(names: set<string>, first: string) {
    first in names && forall name | name in names :: name == first || Less(first, name)
  }

  lemma {:induction false} HasFirst(names: set<string>) returns (first: string)
    requires names != {}
    ensures IsFirst(names, first)
    decreases |names|
  {
    var some := HasElement(names);
    var rest := names - {some};
    assert names == rest + {some};
    first := some;
    if rest != {} {
      var least := HasFirst(rest);
      LessIsTotal(some, least);
      if Less(least, some) {
        first := least;
      } else {
        forall name | name in rest ensures Less(some, name) {
          if name != least {
            LessIsTransitive(some, least, name);
          }
        }
      }
    }
  }

  lemma FirstIsUnique(names: set<string>, a: string, b: string)
    requires IsFirst(names, a) && IsFirst(names, b)
    ensures a == b
  {
    LessIsTotal(a, b);
  }

  /** The names in increasing order. */
  function Sorted(names: set<string>): (list: seq<string>)
    ensures |list| == |names| && forall i | 0 <= i < |list| :: list[i] in names
    decreases |names|
  {
    if names == {} then []
    else
      var first := First(names);
      [first] + Sorted(names - {first})
  }

  function First(names: set<string>): (first: string)
    requires names != {}
    ensures IsFirst(names, first)
  {
    assert exists first :: IsFirst(names, first) by {
      var some := HasFirst(names);
    }
    assert forall a, b | IsFirst(names, a) && IsFirst(names, b) :: a == b by {
      forall a, b | IsFirst(names, a) && IsFirst(names, b) ensures a == b {
        FirstIsUnique(names, a, b);
      }
    }
    var first :| IsFirst(names, first);
    first
  }

  lemma {:induction false} SortedHas(names: set<string>, name: string)
    requires name in names
    ensures name in Sorted(names)
    decreases |names|
  {
    var first := First(names);
    if name != first {
      SortedHas(names - {first}, name);
      assert name in [first] + Sorted(names - {first});
    }
  }

  lemma {:induction false} SortedIncreases(names: set<string>, i: nat, j: nat)
    requires i < j < |Sorted(names)|
    ensures Less(Sorted(names)[i], Sorted(names)[j]) && Sorted(names)[i] != Sorted(names)[j]
    decreases |names|
  {
    var first := First(names);
    var rest := Sorted(names - {first});
    assert rest[j - 1] in names - {first};
    LessIsTotal(first, first);
    if i > 0 {
      SortedIncreases(names - {first}, i - 1, j - 1);
    }
  }
}
