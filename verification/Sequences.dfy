/** Counting, and sequences without repetition: what is left of one when some of its elements go, and when putting those
    at its end restores it. */
module Sequences {
  function Min(a: nat, b: nat): nat { if a < b then a else b }

  function One(b: bool): nat { if b then 1 else 0 }

  predicate NoRepeats<T(==)>(s: seq<T>) { forall i, j | 0 <= i < j < |s| :: s[i] != s[j] }

  /** The elements that are not in `gone`, in their order. */
  function Without<T(==)>(s: seq<T>, gone: seq<T>): seq<T> {
    if s == [] then []
    else (if s[0] in gone then [] else [s[0]]) + Without(s[1..], gone)
  }

  /** The first place of an element; the length when it has none. */
  function Place<T(==)>(s: seq<T>, e: T): nat {
    if s == [] || s[0] == e then 0 else 1 + Place(s[1..], e)
  }

  lemma {:induction false} WithoutAll<T>(s: seq<T>, gone: seq<T>)
    requires forall e | e in s :: e in gone
    ensures Without(s, gone) == []
  {
    if s != [] {
      assert s[0] in s && forall e | e in s[1..] :: e in s;
      WithoutAll(s[1..], gone);
    }
  }

  lemma {:induction false} WithoutHas<T>(s: seq<T>, gone: seq<T>)
    ensures forall e :: e in Without(s, gone) <==> e in s && e !in gone
  {
    if s != [] {
      assert forall e :: e in s <==> e == s[0] || e in s[1..];
      WithoutHas(s[1..], gone);
    }
  }

  lemma {:induction false} PlaceAt<T>(s: seq<T>, i: nat)
    requires NoRepeats(s) && i < |s|
    ensures Place(s, s[i]) == i
  {
    if i > 0 {
      TailNoRepeats(s);
      PlaceAt(s[1..], i - 1);
    }
  }

  /** The place of an element that has not come before. */
  lemma {:induction false} PlaceIs<T>(s: seq<T>, i: nat)
    requires i < |s| && s[i] !in s[..i]
    ensures Place(s, s[i]) == i
  {
    if i > 0 {
      assert s[0] in s[..i];
      assert s[1..][..i - 1] == s[1..i] && forall e | e in s[1..i] :: e in s[..i];
      PlaceIs(s[1..], i - 1);
    }
  }

  lemma {:induction false} PlaceBefore<T>(s: seq<T>, n: nat, e: T)
    requires n <= |s| && e in s[..n]
    ensures Place(s, e) < n
  {
    if s[0] != e {
      assert s[..n] == [s[0]] + s[1..][..n - 1];
      PlaceBefore(s[1..], n - 1, e);
    }
  }

  lemma TailNoRepeats<T>(s: seq<T>)
    requires NoRepeats(s) && s != []
    ensures NoRepeats(s[1..]) && s[0] !in s[1..]
  {}

  lemma {:induction false} OnceEach<T>(s: seq<T>)
    requires NoRepeats(s)
    ensures forall e :: multiset(s)[e] <= 1
  {
    if s != [] {
      TailNoRepeats(s);
      OnceEach(s[1..]);
      assert s == [s[0]] + s[1..];
    }
  }

  lemma Twice<T>(s: seq<T>, i: nat, j: nat)
    ensures i < j < |s| && s[i] == s[j] ==> multiset(s)[s[i]] >= 2
  {
    if i < j < |s| {
      assert s == s[..j] + s[j..];
      assert s[..j][i] in s[..j] && s[j..][0] in s[j..];
      assert multiset(s) == multiset(s[..j]) + multiset(s[j..]);
    }
  }

  lemma Cancel<T>(a: multiset<T>, b: multiset<T>, c: multiset<T>)
    requires a + c == b + c
    ensures a == b
  {
    forall e ensures a[e] == b[e] {
      assert (a + c)[e] == a[e] + c[e] && (b + c)[e] == b[e] + c[e];
    }
  }

  /** Each element that is gone was there, and is listed once. */
  predicate Selects<T(==)>(s: seq<T>, gone: seq<T>) { NoRepeats(gone) && forall e | e in gone :: e in s }

  /** Everything behind an element that is gone is gone too. */
  predicate GoneLast<T(==)>(s: seq<T>, gone: seq<T>) {
    forall i, j | 0 <= i < j < |s| :: s[i] in gone ==> s[j] in gone
  }

  /** The elements that are gone are listed in the order that they had. */
  predicate InTurn<T(==)>(s: seq<T>, gone: seq<T>) {
    forall i, j | 0 <= i < j < |gone| :: Place(s, gone[i]) < Place(s, gone[j])
  }

  /** The same elements, each once, in the same order. */
  lemma {:induction false} SameOrder<T>(s: seq<T>, gone: seq<T>)
    requires NoRepeats(s) && Selects(s, gone) && InTurn(s, gone)
    requires forall e | e in s :: e in gone
    ensures gone == s
  {
    Head(gone);
    if s != [] {
      assert s[0] in s;
      assert s[0] in gone;
      var k :| 0 <= k < |gone| && gone[k] == s[0];
      assert Place(s, gone[k]) == 0;
      InTurnAt(s, gone, 0, k);
      TailNoRepeats(s);
      TailNoRepeats(gone);
      TailInTurn(s, gone);
      SameOrder(s[1..], gone[1..]);
      assert s == [s[0]] + s[1..] && gone == [gone[0]] + gone[1..];
    }
  }

  lemma InTurnMore<T>(s: seq<T>, gone: seq<T>, e: T)
    requires InTurn(s, gone) && forall k | 0 <= k < |gone| :: Place(s, gone[k]) < Place(s, e)
    ensures InTurn(s, gone + [e])
  {}

  lemma InTurnAt<T>(s: seq<T>, gone: seq<T>, i: nat, j: nat)
    requires InTurn(s, gone)
    ensures i < j < |gone| ==> Place(s, gone[i]) < Place(s, gone[j])
  {}

  lemma TailInTurn<T>(s: seq<T>, gone: seq<T>)
    requires NoRepeats(s) && Selects(s, gone) && InTurn(s, gone)
    requires s != [] && gone != [] && gone[0] == s[0] && s[0] !in gone[1..]
    requires forall e | e in s :: e in gone
    ensures Selects(s[1..], gone[1..]) && InTurn(s[1..], gone[1..])
    ensures forall e | e in s[1..] :: e in gone[1..]
  {
    TailNoRepeats(s);
    assert forall e :: e in s <==> e == s[0] || e in s[1..];
    assert forall e :: e in gone <==> e == gone[0] || e in gone[1..];
    forall i, j | 0 <= i < j < |gone[1..]| ensures Place(s[1..], gone[1..][i]) < Place(s[1..], gone[1..][j]) {
      assert gone[1..][i] in gone[1..] && gone[1..][j] in gone[1..];
      assert Place(s, gone[i + 1]) < Place(s, gone[j + 1]);
    }
  }

  /** Putting what is gone behind the rest restores the sequence if and only if it was the last part of it and is
      listed in turn. */
  lemma {:induction false} BehindIff<T>(s: seq<T>, gone: seq<T>)
    requires NoRepeats(s) && Selects(s, gone)
    ensures Without(s, gone) + gone == s <==> GoneLast(s, gone) && InTurn(s, gone)
  {
    if s == [] {
      Head(gone);
    } else if s[0] in gone {
      if GoneLast(s, gone) && InTurn(s, gone) {
        WithoutAll(s, gone);
        SameOrder(s, gone);
      }
      if Without(s, gone) + gone == s {
        FirstGone(s, gone);
      }
    } else {
      var rest := s[1..];
      assert Without(s, gone) + gone == [s[0]] + (Without(rest, gone) + gone);
      assert s == [s[0]] + rest;
      RestIff(s, gone);
      BehindIff(rest, gone);
    }
  }

  lemma Head<T>(s: seq<T>)
    ensures s == [] || s[0] in s
  {}

  lemma HeadOfConcat<T>(a: seq<T>, b: seq<T>)
    ensures a == [] || (a + b)[0] == a[0]
  {}

  /** When the first element is gone, all are, in turn. */
  lemma FirstGone<T>(s: seq<T>, gone: seq<T>)
    requires NoRepeats(s) && s != [] && s[0] in gone && Without(s, gone) + gone == s
    ensures GoneLast(s, gone) && InTurn(s, gone)
  {
    WithoutHas(s, gone);
    var kept := Without(s, gone);
    Head(kept);
    HeadOfConcat(kept, gone);
    assert gone == s;
    forall i | 0 <= i < |s| ensures Place(s, gone[i]) == i {
      PlaceAt(s, i);
    }
  }

  lemma RestIff<T>(s: seq<T>, gone: seq<T>)
    requires NoRepeats(s) && Selects(s, gone) && s != [] && s[0] !in gone
    ensures NoRepeats(s[1..]) && Selects(s[1..], gone)
    ensures GoneLast(s, gone) <==> GoneLast(s[1..], gone)
    ensures InTurn(s, gone) <==> InTurn(s[1..], gone)
  {
    TailNoRepeats(s);
    assert forall e :: e in s <==> e == s[0] || e in s[1..];
    assert forall i | 0 <= i < |s[1..]| :: s[1..][i] == s[i + 1];
    assert forall i | 0 < i < |s| :: s[i] == s[1..][i - 1];
    forall i | 0 <= i < |gone| ensures Place(s, gone[i]) == 1 + Place(s[1..], gone[i]) {
      assert gone[i] in gone;
    }
  }
}
