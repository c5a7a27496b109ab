/** The token escaping that makes a file URI a safe file name, and the laws that URI equality between the database
    and the file storage rests on. */
module FileUri {
  import opened Strings

  const KEYS: string := "?<>/\\|*:"
  const COUNT: nat := 8

  /** The word of each token, in the order in which the table of tokens lists (and replaces) them. */
  function Word(j: nat): string
    requires j < COUNT
  {
    match j
    case 0 => "question"
    case 1 => "left-angle-bracket"
    case 2 => "right-angle-bracket"
    case 3 => "slash"
    case 4 => "backslash"
    case 5 => "pipe"
    case 6 => "asterisk"
    case _ => "colon"
  }

  function Token(j: nat): string
    requires j < COUNT
  {
    "%" + Word(j) + "%"
  }

  /** The table index of a reserved character; '%' ranks after all of them, ordinary characters after '%'. */
  function Rank(c: char): nat {
    if c == '?' then 0 else if c == '<' then 1 else if c == '>' then 2 else if c == '/' then 3
    else if c == '\\' then 4 else if c == '|' then 5 else if c == '*' then 6 else if c == ':' then 7
    else if c == '%' then 8 else 9
  }

  // ---- The code: one replacement per table row --------------------------------------------------------------

  function CanonizeFrom(s: string, j: nat): string
    requires j <= COUNT
    decreases COUNT - j
  {
    if j == COUNT then s else CanonizeFrom(Replace(s, [KEYS[j]], Token(j)), j + 1)
  }

  function DecanonizeFrom(s: string, j: nat): string
    requires j <= COUNT
    decreases COUNT - j
  {
    if j == COUNT then s else DecanonizeFrom(Replace(s, Token(j), [KEYS[j]]), j + 1)
  }

  function Canonize(uri: string): string { CanonizeFrom(uri, 0) }

  function Decanonize(uri: string): string { DecanonizeFrom(uri, 0) }

  predicate FileUrisEqual(first: string, second: string) {
    Canonize(first) == Canonize(second)
  }

  // ---- The reference: every character expands on its own ----------------------------------------------------

  /** Expand the reserved characters whose rank is in lo..hi, all at once. */
  function Expand(s: string, lo: nat, hi: nat): string
    requires hi <= COUNT
  {
    if s == "" then "" else ExpandChar(s[0], lo, hi) + Expand(s[1..], lo, hi)
  }

  function ExpandChar(c: char, lo: nat, hi: nat): string
    requires hi <= COUNT
  {
    if lo <= Rank(c) < hi then Token(Rank(c)) else [c]
  }

  lemma WordFacts(j: nat)
    requires j < COUNT
    ensures Rank(KEYS[j]) == j
    ensures |Word(j)| > 0
    ensures forall c | c in Word(j) :: Rank(c) == 9
    ensures forall i | 0 <= i < COUNT && Word(i) == Word(j) :: i == j
  {
    if j < 4 {
      WordFactsLow(j);
    } else {
      WordFactsHigh(j);
    }
    forall i | 0 <= i < COUNT && Word(i) == Word(j) ensures i == j {
      assert |Word(i)| == |Word(j)|;
      assert Word(i)[0] == Word(j)[0];
    }
  }

  lemma WordFactsLow(j: nat)
    requires j < 4
    ensures Rank(KEYS[j]) == j
    ensures |Word(j)| > 0
    ensures forall c | c in Word(j) :: Rank(c) == 9
  {}

  lemma WordFactsHigh(j: nat)
    requires 4 <= j < COUNT
    ensures Rank(KEYS[j]) == j
    ensures |Word(j)| > 0
    ensures forall c | c in Word(j) :: Rank(c) == 9
  {}

  lemma {:induction false} ExpandConcat(a: string, b: string, lo: nat, hi: nat)
    requires hi <= COUNT
    ensures Expand(a + b, lo, hi) == Expand(a, lo, hi) + Expand(b, lo, hi)
  {
    if a == "" {
      assert a + b == b;
    } else {
      assert (a + b)[0] == a[0] && (a + b)[1..] == a[1..] + b;
      ExpandConcat(a[1..], b, lo, hi);
    }
  }

  lemma {:induction false} ExpandOne(c: char, lo: nat, hi: nat)
    requires hi <= COUNT
    ensures Expand([c], lo, hi) == ExpandChar(c, lo, hi)
  {
    assert [c][1..] == "";
  }

  lemma {:induction false} ExpandSelf(s: string, lo: nat, hi: nat)
    requires hi <= COUNT
    requires forall c | c in s :: !(lo <= Rank(c) < hi)
    ensures Expand(s, lo, hi) == s
  {
    if s != "" {
      assert s[0] in s && s == [s[0]] + s[1..];
      ExpandSelf(s[1..], lo, hi);
    }
  }

  lemma TokenFacts(j: nat)
    requires j < COUNT
    ensures forall c | c in Token(j) :: Rank(c) >= COUNT
    ensures Expand(Token(j), 0, COUNT) == Token(j)
    ensures Expand([KEYS[j]], 0, COUNT) == Token(j)
  {
    WordFacts(j);
    forall c | c in Token(j) ensures Rank(c) >= COUNT {
      assert c == '%' || c in Word(j);
    }
    ExpandSelf(Token(j), 0, COUNT);
    ExpandOne(KEYS[j], 0, COUNT);
  }

  /** Replacing row by row is expanding every reserved character at once. */
  lemma CanonizeIsExpansion(s: string)
    ensures Canonize(s) == Expand(s, 0, COUNT)
  {
    ExpandSelf(s, 0, 0);
    CanonizeRows(s, 0);
  }

  lemma {:induction false} CanonizeRows(s: string, j: nat)
    requires j <= COUNT
    ensures CanonizeFrom(Expand(s, 0, j), j) == Expand(s, 0, COUNT)
    decreases COUNT - j
  {
    if j < COUNT {
      CanonizeRow(s, j);
      CanonizeRows(s, j + 1);
    }
  }

  lemma {:induction false} CanonizeRow(s: string, j: nat)
    requires j < COUNT
    ensures Replace(Expand(s, 0, j), [KEYS[j]], Token(j)) == Expand(s, 0, j + 1)
  {
    if s != "" {
      var e := ExpandChar(s[0], 0, j);
      ReplaceCharConcat(e, Expand(s[1..], 0, j), KEYS[j], Token(j));
      CanonizeRow(s[1..], j);
      WordFacts(j);
      if Rank(s[0]) == j {
        assert s[0] == KEYS[j];
        assert Replace([s[0]], [KEYS[j]], Token(j)) == Token(j) + Replace("", [KEYS[j]], Token(j));
      } else {
        if Rank(s[0]) < j {
          TokenFacts(Rank(s[0]));
        }
        ReplaceCharAbsent(e, KEYS[j], Token(j));
      }
    }
  }

  lemma CanonizeConcat(a: string, b: string)
    ensures Canonize(a + b) == Canonize(a) + Canonize(b)
  {
    CanonizeIsExpansion(a);
    CanonizeIsExpansion(b);
    CanonizeIsExpansion(a + b);
    ExpandConcat(a, b, 0, COUNT);
  }

  /** A canonized URI holds no reserved character, so it is one path component. */
  lemma {:induction false} CanonizeIsSafe(s: string)
    ensures forall c | c in Canonize(s) :: Rank(c) >= COUNT
  {
    CanonizeIsExpansion(s);
    if s != "" {
      CanonizeIsSafe(s[1..]);
      CanonizeIsExpansion(s[1..]);
      if Rank(s[0]) < COUNT {
        TokenFacts(Rank(s[0]));
      }
    }
  }

  lemma CanonizeIdempotent(s: string)
    ensures Canonize(Canonize(s)) == Canonize(s)
  {
    CanonizeIsSafe(s);
    CanonizeIsExpansion(Canonize(s));
    ExpandSelf(Canonize(s), 0, COUNT);
  }

  // ---- decanonize undoes nothing that canonize can see ------------------------------------------------------

  lemma {:induction false} ReplaceTokenKeepsExpansion(s: string, j: nat)
    requires j < COUNT
    ensures Expand(Replace(s, Token(j), [KEYS[j]]), 0, COUNT) == Expand(s, 0, COUNT)
    decreases |s|
  {
    if s != "" {
      if StartsWith(s, Token(j)) {
        var rest := s[|Token(j)|..];
        assert s == Token(j) + rest;
        ReplaceTokenKeepsExpansion(rest, j);
        TokenFacts(j);
        ExpandConcat(Token(j), rest, 0, COUNT);
        ExpandConcat([KEYS[j]], Replace(rest, Token(j), [KEYS[j]]), 0, COUNT);
      } else {
        ReplaceTokenKeepsExpansion(s[1..], j);
      }
    }
  }

  lemma {:induction false} DecanonizeKeepsExpansion(s: string, j: nat)
    requires j <= COUNT
    ensures Expand(DecanonizeFrom(s, j), 0, COUNT) == Expand(s, 0, COUNT)
    decreases COUNT - j
  {
    if j < COUNT {
      ReplaceTokenKeepsExpansion(s, j);
      DecanonizeKeepsExpansion(Replace(s, Token(j), [KEYS[j]]), j + 1);
    }
  }

  /** canonize(decanonize(s)) = canonize(s) for every string. */
  lemma CanonizeAfterDecanonize(s: string)
    ensures Canonize(Decanonize(s)) == Canonize(s)
  {
    CanonizeIsExpansion(s);
    CanonizeIsExpansion(Decanonize(s));
    DecanonizeKeepsExpansion(s, 0);
  }

  /** The database form and the storage form of one URI compare equal, however often either is converted again. */
  lemma StoredFormsAreEqual(uri: string)
    ensures FileUrisEqual(Decanonize(uri), Canonize(uri))
    ensures FileUrisEqual(Decanonize(Canonize(uri)), uri)
    ensures forall other :: FileUrisEqual(Decanonize(uri), other) <==> FileUrisEqual(uri, other)
  {
    CanonizeAfterDecanonize(uri);
    CanonizeAfterDecanonize(Canonize(uri));
    CanonizeIdempotent(uri);
  }

  ghost predicate TokenFree(s: string, from: nat, to: nat)
    requires to <= COUNT
  {
    forall i | from <= i < to :: !Contains(s, Token(i))
  }

  lemma {:induction false} DecanonizeRemovesTokens(s: string, j: nat)
    requires j <= COUNT && TokenFree(s, 0, j)
    ensures TokenFree(DecanonizeFrom(s, j), 0, COUNT)
    decreases COUNT - j
  {
    if j < COUNT {
      var t := Replace(s, Token(j), [KEYS[j]]);
      WordFacts(j);
      forall i | 0 <= i < j + 1 ensures !Contains(t, Token(i)) {
        TokenFacts(i);
        if i == j {
          ReplaceRemoves(s, Token(j), KEYS[j]);
        } else {
          ReplaceMakesNoForeign(s, Token(j), KEYS[j], Token(i));
        }
      }
      DecanonizeRemovesTokens(t, j + 1);
    }
  }

  lemma {:induction false} DecanonizeTokenFree(s: string, j: nat)
    requires j <= COUNT && TokenFree(s, j, COUNT)
    ensures DecanonizeFrom(s, j) == s
    decreases COUNT - j
  {
    if j < COUNT {
      ReplaceAbsent(s, Token(j), [KEYS[j]]);
      DecanonizeTokenFree(s, j + 1);
    }
  }

  lemma DecanonizeIdempotent(s: string)
    ensures Decanonize(Decanonize(s)) == Decanonize(s)
  {
    DecanonizeRemovesTokens(s, 0);
    DecanonizeTokenFree(Decanonize(s), 0);
  }

  /** The table: each reserved character has its token. */
  lemma TableIs(c: char)
    ensures c == '?' ==> Canonize([c]) == "%" + "question" + "%"
    ensures c == '<' ==> Canonize([c]) == "%" + "left-angle-bracket" + "%"
    ensures c == '>' ==> Canonize([c]) == "%" + "right-angle-bracket" + "%"
    ensures c == '/' ==> Canonize([c]) == "%" + "slash" + "%"
    ensures c == '\\' ==> Canonize([c]) == "%" + "backslash" + "%"
    ensures c == '|' ==> Canonize([c]) == "%" + "pipe" + "%"
    ensures c == '*' ==> Canonize([c]) == "%" + "asterisk" + "%"
    ensures c == ':' ==> Canonize([c]) == "%" + "colon" + "%"
  {
    hide Canonize;
    OneIs(c);
  }

  lemma OneIs(c: char)
    ensures Rank(c) < COUNT ==> Canonize([c]) == "%" + Word(Rank(c)) + "%"
  {
    hide Word, Canonize;
    CanonizeIsExpansion([c]);
    assert [c][1..] == "";
    assert Rank(c) < COUNT ==> Expand([c], 0, COUNT) == Token(Rank(c)) + "";
  }

  // ---- When the round trip returns --------------------------------------------------------------------------

  /** `v` continues with `w` and then a mark that still shows a '%' when row `j` is decoded. */
  predicate TextThenMark(v: string, w: string, j: nat) {
    StartsWith(v, w) && |w| < |v| && j <= Rank(v[|w|]) <= COUNT
  }

  /** What continues with the word of token `j` and such a mark looks like the token from there on. */
  predicate OpensToken(v: string, j: nat)
    requires j < COUNT
  {
    TextThenMark(v, Word(j), j)
  }

  /** At `i` a mark that row `j` finds undecoded is followed by the word of token `j` and another such mark. */
  predicate CapturedAt(u: string, i: nat, j: nat)
    requires i < |u| && j < COUNT
  {
    j < Rank(u[i]) <= COUNT && OpensToken(u[i + 1..], j)
  }

  predicate Captured(u: string, j: nat)
    requires j < COUNT
  {
    exists i | 0 <= i < |u| :: CapturedAt(u, i, j)
  }

  /** No two neighbouring marks enclose a token word in a way that decoding mistakes for the token. */
  predicate Unambiguous(u: string) {
    forall j | 0 <= j < COUNT :: !Captured(u, j)
  }

  lemma ExpandHead(v: string, j: nat)
    requires j < COUNT && v != ""
    ensures |Expand(v, j, COUNT)| > 0
    ensures Expand(v, j, COUNT)[0] == if j <= Rank(v[0]) <= COUNT then '%' else v[0]
    ensures Rank(v[0]) >= COUNT ==> Expand(v, j, COUNT) == [v[0]] + Expand(v[1..], j, COUNT)
  {
    assert Rank(v[0]) == COUNT ==> v[0] == '%';
  }

  /** The expansion shows an ordinary text followed by '%' exactly where `v` has that text followed by a mark. */
  lemma {:induction false} ExpansionPrefix(v: string, w: string, j: nat)
    requires j < COUNT && forall c | c in w :: Rank(c) == 9
    ensures StartsWith(Expand(v, j, COUNT), w + "%") <==> TextThenMark(v, w, j)
  {
    hide StartsWith, Expand, Rank, TextThenMark;
    if v == "" {
      NothingExpanded(w, j);
    } else if w == "" {
      MarkAtHead(v, j);
      assert "" + "%" == "%";
    } else {
      assert w[0] in w && forall c | c in w[1..] :: c in w;
      if v[0] == w[0] {
        ExpansionPrefix(v[1..], w[1..], j);
        SameHead(v, w, j);
      } else {
        OtherHead(v, w, j);
      }
    }
  }

  lemma NothingExpanded(w: string, j: nat)
    ensures !TextThenMark("", w, j)
    ensures j < COUNT ==> !StartsWith(Expand("", j, COUNT), w + "%")
  {}

  lemma MarkAtHead(v: string, j: nat)
    requires j < COUNT && v != ""
    ensures StartsWith(Expand(v, j, COUNT), "%") <==> TextThenMark(v, "", j)
  {
    hide Expand, Rank;
    ExpandHead(v, j);
    HeadPrefix(Expand(v, j, COUNT), '%');
    PercentIsMark(v[0], j);
    assert v[..0] == "";
  }

  lemma PercentIsMark(c: char, j: nat)
    requires j < COUNT
    ensures c == '%' ==> j <= Rank(c) <= COUNT
  {}

  lemma SameHead(v: string, w: string, j: nat)
    requires j < COUNT && v != "" && w != "" && v[0] == w[0] && Rank(w[0]) == 9
    ensures StartsWith(Expand(v, j, COUNT), w + "%") <==> StartsWith(Expand(v[1..], j, COUNT), w[1..] + "%")
    ensures TextThenMark(v, w, j) <==> TextThenMark(v[1..], w[1..], j)
  {
    hide StartsWith, Expand, Rank;
    ExpandHead(v, j);
    assert w == [w[0]] + w[1..] && v == [w[0]] + v[1..];
    assert w + "%" == [w[0]] + (w[1..] + "%");
    ConsPrefix(w[0], Expand(v[1..], j, COUNT), w[1..] + "%");
    ConsPrefix(w[0], v[1..], w[1..]);
    assert |w| < |v| ==> v[|w|] == v[1..][|w[1..]|];
  }

  lemma OtherHead(v: string, w: string, j: nat)
    requires j < COUNT && v != "" && w != "" && v[0] != w[0] && Rank(w[0]) == 9
    ensures !StartsWith(Expand(v, j, COUNT), w + "%") && !TextThenMark(v, w, j)
  {
    hide StartsWith, Expand;
    ExpandHead(v, j);
    assert (w + "%")[0] == w[0];
    StartsWithAt(Expand(v, j, COUNT), w + "%", 0);
    StartsWithAt(v, w, 0);
  }

  lemma HeadPrefix(s: string, c: char)
    ensures StartsWith(s, [c]) <==> s != "" && s[0] == c
  {
    assert s != "" ==> s[..1] == [s[0]];
  }

  lemma ConsPrefix(c: char, s: string, p: string)
    ensures StartsWith([c] + s, [c] + p) <==> StartsWith(s, p)
  {
    if |p| <= |s| {
      assert ([c] + s)[..|p| + 1] == [c] + s[..|p|];
      assert ([c] + s)[..|p| + 1][1..] == s[..|p|];
      assert ([c] + p)[1..] == p;
    }
  }

  /** Text without '%' is passed over. */
  lemma {:induction false} ReplaceSkips(a: string, b: string, token: string, new_: string)
    requires token != "" && token[0] == '%' && '%' !in a
    ensures Replace(a + b, token, new_) == a + Replace(b, token, new_)
  {
    if a == "" {
      assert a + b == b;
    } else {
      assert a[0] in a && (a + b)[0] == a[0] && (a + b)[1..] == a[1..] + b;
      StartsWithAt(a + b, token, 0);
      ReplaceSkips(a[1..], b, token, new_);
    }
  }

  /** Two texts free of '%' and closed by one are equal when one is a prefix of the other. */
  lemma WordPrefix(a: string, b: string, x: string)
    requires '%' !in a && '%' !in b && a != b
    ensures !StartsWith(a + "%" + x, b + "%")
  {
    var s, p := a + "%" + x, b + "%";
    StartsWithAt(s, p, |a|);
    StartsWithAt(s, p, |b|);
    assert s[..|a|] == a && p[..|b|] == b;
    assert |a| == |b| ==> s[..|p|][..|b|] == s[..|a|];
    ElementOf(a, |b|);
    ElementOf(b, |a|);
  }

  lemma ElementOf(s: string, i: nat)
    ensures i < |s| ==> s[i] in s
  {}

  lemma DistinctTokens(i: nat, j: nat, x: string)
    requires i < COUNT && j < COUNT && i != j
    ensures !StartsWith(Token(i) + x, Token(j))
  {
    WordFacts(i);
    WordFacts(j);
    DistinctMarks(Word(i), Word(j), x);
  }

  lemma DistinctMarks(a: string, b: string, x: string)
    requires a != b && (forall c | c in a :: Rank(c) == 9) && (forall c | c in b :: Rank(c) == 9)
    ensures !StartsWith("%" + a + "%" + x, "%" + b + "%")
  {
    assert Rank('%') == COUNT;
    WordPrefix(a, b, x);
    ConsPrefix('%', a + "%" + x, b + "%");
    assert "%" + a + "%" + x == ['%'] + (a + "%" + x);
    assert "%" + b + "%" == ['%'] + (b + "%");
  }

  /** What a mark leaves in front of its closing '%'. */
  function OpenMark(c: char): string
    requires Rank(c) <= COUNT
  {
    if Rank(c) < COUNT then "%" + Word(Rank(c)) else ""
  }

  lemma ReplacePasses(w: string, x: string, token: string, new_: string)
    requires token != "" && token[0] == '%' && '%' !in w
    requires !StartsWith("%" + w + "%" + x, token)
    ensures Replace("%" + w + "%" + x, token, new_) == "%" + w + Replace("%" + x, token, new_)
  {
    var s := "%" + w + "%" + x;
    assert s[0] == '%' && s[1..] == w + ("%" + x);
    ReplaceSkips(w, "%" + x, token, new_);
  }

  /** Row `j` passes over the part of another mark that precedes its closing '%'. */
  lemma ReplacePassesOpenMark(c: char, x: string, j: nat)
    requires j < COUNT && Rank(c) <= COUNT && Rank(c) != j
    ensures Replace(OpenMark(c) + "%" + x, Token(j), [KEYS[j]])
         == OpenMark(c) + Replace("%" + x, Token(j), [KEYS[j]])
  {
    if Rank(c) < COUNT {
      DistinctTokens(Rank(c), j, x);
      NoPercent(Rank(c));
      ReplacePasses(Word(Rank(c)), x, Token(j), [KEYS[j]]);
    } else {
      assert "" + "%" + x == "%" + x;
    }
  }

  lemma NoPercent(j: nat)
    requires j < COUNT
    ensures '%' !in Word(j)
  {
    WordFacts(j);
    assert Rank('%') == COUNT;
  }

  lemma PercentOpens(v: string, j: nat)
    requires j < COUNT
    ensures StartsWith("%" + Expand(v, j, COUNT), Token(j)) <==> OpensToken(v, j)
  {
    hide TextThenMark, Expand;
    WordFacts(j);
    ExpansionPrefix(v, Word(j), j);
    assert Token(j) == ['%'] + (Word(j) + "%");
    ConsPrefix('%', Expand(v, j, COUNT), Word(j) + "%");
  }

  lemma ReplaceHead(token: string, x: string, new_: string)
    requires token != ""
    ensures Replace(token + x, token, new_) == new_ + Replace(x, token, new_)
  {
    var s := token + x;
    assert s[..|token|] == token && s[|token|..] == x;
  }

  lemma DecodeOtherMark(c: char, v: string, j: nat)
    requires j < COUNT && j < Rank(c) <= COUNT && !OpensToken(v, j)
    ensures Replace(OpenMark(c) + "%" + Expand(v, j, COUNT), Token(j), [KEYS[j]])
         == OpenMark(c) + "%" + Replace(Expand(v, j, COUNT), Token(j), [KEYS[j]])
  {
    var x := Expand(v, j, COUNT);
    ReplacePassesOpenMark(c, x, j);
    PercentOpens(v, j);
    assert ("%" + x)[1..] == x;
  }

  lemma ExpandMark(c: char, j: nat)
    requires j <= COUNT
    ensures j <= Rank(c) <= COUNT ==> ExpandChar(c, j, COUNT) == OpenMark(c) + "%"
  {
    assert Rank(c) == COUNT ==> c == '%';
  }

  /** Row `j` decodes one character of `u` correctly unless a token is captured there. */
  lemma DecodeStep(u: string, j: nat)
    requires j < COUNT && u != "" && !CapturedAt(u, 0, j)
    ensures Replace(Expand(u, j, COUNT), Token(j), [KEYS[j]])
         == ExpandChar(u[0], j + 1, COUNT) + Replace(Expand(u[1..], j, COUNT), Token(j), [KEYS[j]])
  {
    var c, x := u[0], Expand(u[1..], j, COUNT);
    if Rank(c) == j {
      ReplaceHead(Token(j), x, [KEYS[j]]);
      assert c == KEYS[j];
    } else if j < Rank(c) <= COUNT {
      ExpandMark(c, j);
      ExpandMark(c, j + 1);
      DecodeOtherMark(c, u[1..], j);
    } else {
      assert c != '%';
      ReplaceSkips([c], x, Token(j), [KEYS[j]]);
    }
  }

  lemma CapturedShift(u: string, i: nat, j: nat)
    requires i < |u| && j < COUNT
    ensures CapturedAt(u, i, j) == CapturedAt(u[i..], 0, j)
  {
    assert u[i..][1..] == u[i + 1..];
  }

  lemma ExpandLast(u: string, i: nat, lo: nat)
    requires i < |u| && lo <= COUNT
    ensures Expand(u[..i + 1], lo, COUNT) == Expand(u[..i], lo, COUNT) + ExpandChar(u[i], lo, COUNT)
  {
    assert u[..i + 1] == u[..i] + [u[i]];
    ExpandConcat(u[..i], [u[i]], lo, COUNT);
    ExpandOne(u[i], lo, COUNT);
  }

  /** Up to the first captured token, row `j` turns exactly its own tokens back. */
  lemma {:induction false} DecodePrefix(u: string, i: nat, j: nat)
    requires j < COUNT && i <= |u|
    requires forall k | 0 <= k < i :: !CapturedAt(u, k, j)
    ensures Replace(Expand(u, j, COUNT), Token(j), [KEYS[j]])
         == Expand(u[..i], j + 1, COUNT) + Replace(Expand(u[i..], j, COUNT), Token(j), [KEYS[j]])
  {
    hide Replace, Word, Rank, Expand, ExpandChar, CapturedAt;
    if i == 0 {
      NoPrefix(u, j);
    } else {
      DecodePrefix(u, i - 1, j);
      DecodeAt(u, i - 1, j);
      ExpandLast(u, i - 1, j + 1);
      Associate(Expand(u[..i - 1], j + 1, COUNT), ExpandChar(u[i - 1], j + 1, COUNT),
                Replace(Expand(u[i..], j, COUNT), Token(j), [KEYS[j]]));
    }
  }

  lemma NoPrefix(u: string, j: nat)
    requires j < COUNT
    ensures u[0..] == u && Expand(u[..0], j + 1, COUNT) == ""
  {}

  lemma DecodeAt(u: string, i: nat, j: nat)
    requires j < COUNT && i < |u| && !CapturedAt(u, i, j)
    ensures Replace(Expand(u[i..], j, COUNT), Token(j), [KEYS[j]])
         == ExpandChar(u[i], j + 1, COUNT) + Replace(Expand(u[i + 1..], j, COUNT), Token(j), [KEYS[j]])
  {
    hide Replace, Word, Rank, Expand, ExpandChar, CapturedAt;
    CapturedShift(u, i, j);
    DecodeStep(u[i..], j);
    assert u[i..][0] == u[i] && u[i..][1..] == u[i + 1..];
  }

  lemma DecodeRow(u: string, j: nat)
    requires j < COUNT && !Captured(u, j)
    ensures Replace(Expand(u, j, COUNT), Token(j), [KEYS[j]]) == Expand(u, j + 1, COUNT)
  {
    DecodePrefix(u, |u|, j);
    assert u[..|u|] == u && u[|u|..] == "";
  }

  lemma MisdecodeMark(c: char, v: string, j: nat) returns (rest: string)
    requires j < COUNT && j < Rank(c) <= COUNT && OpensToken(v, j)
    ensures Replace(OpenMark(c) + "%" + Expand(v, j, COUNT), Token(j), [KEYS[j]]) == OpenMark(c) + [KEYS[j]] + rest
  {
    var x := Expand(v, j, COUNT);
    ReplacePassesOpenMark(c, x, j);
    PercentOpens(v, j);
    rest := Replace(("%" + x)[|Token(j)|..], Token(j), [KEYS[j]]);
  }

  lemma {:induction false} Least(p: nat -> bool, from: nat, some: nat) returns (i: nat)
    requires from <= some && p(some) && forall k: nat | k < from :: !p(k)
    ensures i <= some && p(i) && forall k: nat | k < i :: !p(k)
    decreases some - from
  {
    if p(from) {
      i := from;
    } else {
      i := Least(p, from + 1, some);
    }
  }

  lemma FirstCapturedAt(u: string, j: nat) returns (i: nat)
    requires j < COUNT && Captured(u, j)
    ensures i < |u| && CapturedAt(u, i, j) && forall k | 0 <= k < i :: !CapturedAt(u, k, j)
  {
    hide CapturedAt;
    var k: nat :| k < |u| && CapturedAt(u, k, j);
    var p := (n: nat) => n < |u| && CapturedAt(u, n, j);
    i := Least(p, 0, k);
    forall n | 0 <= n < i ensures !CapturedAt(u, n, j) {
      assert !p(n);
    }
  }

  /** At the first captured token, row `j` eats the closing '%' of the mark in front of it. */
  lemma MisdecodeRow(u: string, i: nat, j: nat) returns (rest: string)
    requires j < COUNT && i < |u| && CapturedAt(u, i, j)
    requires forall k | 0 <= k < i :: !CapturedAt(u, k, j)
    ensures Replace(Expand(u, j, COUNT), Token(j), [KEYS[j]])
         == Expand(u[..i], j + 1, COUNT) + OpenMark(u[i]) + [KEYS[j]] + rest
  {
    hide Word, Replace, Token;
    DecodePrefix(u, i, j);
    rest := MisdecodeMark(u[i], u[i + 1..], j);
    ExpandMark(u[i], j);
    assert u[i..][0] == u[i] && u[i..][1..] == u[i + 1..];
    Associate(Expand(u[..i], j + 1, COUNT), OpenMark(u[i]) + [KEYS[j]], rest);
    Associate(Expand(u[..i], j + 1, COUNT), OpenMark(u[i]), [KEYS[j]]);
  }

  lemma {:induction false} DecanonizeSplits(a: string, k: nat, b: string, j: nat)
    requires j <= COUNT && k < COUNT
    ensures DecanonizeFrom(a + [KEYS[k]] + b, j) == DecanonizeFrom(a, j) + [KEYS[k]] + DecanonizeFrom(b, j)
    decreases COUNT - j
  {
    if j < COUNT {
      WordFacts(k);
      TokenFacts(j);
      ReplaceSplitsAt(a, KEYS[k], b, Token(j), [KEYS[j]]);
      DecanonizeSplits(Replace(a, Token(j), [KEYS[j]]), k, Replace(b, Token(j), [KEYS[j]]), j + 1);
    }
  }

  lemma {:induction false} DecodeRows(u: string, j: nat, end: nat)
    requires j <= end <= COUNT && forall i | j <= i < end :: !Captured(u, i)
    ensures DecanonizeFrom(Expand(u, j, COUNT), j) == DecanonizeFrom(Expand(u, end, COUNT), end)
    decreases COUNT - j
  {
    hide Replace, Expand, Captured, Word, Rank;
    if j < end {
      DecodeRow(u, j);
      DecodeRows(u, j + 1, end);
    }
  }

  lemma {:induction false} ExpandTwice(s: string, lo: nat)
    requires lo <= COUNT
    ensures Expand(Expand(s, lo, COUNT), 0, COUNT) == Expand(s, 0, COUNT)
  {
    if s != "" {
      var e := ExpandChar(s[0], lo, COUNT);
      ExpandConcat(e, Expand(s[1..], lo, COUNT), 0, COUNT);
      ExpandTwice(s[1..], lo);
      if lo <= Rank(s[0]) < COUNT {
        TokenFacts(Rank(s[0]));
      } else {
        ExpandOne(s[0], 0, COUNT);
      }
    }
  }

  lemma OpenMarkExpansion(c: char)
    requires Rank(c) <= COUNT
    ensures Expand(OpenMark(c), 0, COUNT) == OpenMark(c)
    ensures Expand([c], 0, COUNT) == OpenMark(c) + "%"
    ensures OpenMark(c) == "" <==> c == '%'
  {
    ExpandOne(c, 0, COUNT);
    if Rank(c) < COUNT {
      WordFacts(Rank(c));
      ExpandSelf(OpenMark(c), 0, COUNT);
    }
  }

  lemma {:induction false} ExpandGrows(s: string, a: nat, b: nat)
    requires a < b <= |s|
    ensures |Expand(s[..a], 0, COUNT)| < |Expand(s[..b], 0, COUNT)|
  {
    assert s[..b] == s[..a] + s[a..b] && s[a..b] != "";
    ExpandConcat(s[..a], s[a..b], 0, COUNT);
    assert |ExpandChar(s[a..b][0], 0, COUNT)| > 0;
  }

  lemma ExpandNext(u: string, i: nat)
    requires i < |u| && Rank(u[i]) <= COUNT
    ensures Expand(u[..i + 1], 0, COUNT) == Expand(u[..i], 0, COUNT) + OpenMark(u[i]) + "%"
  {
    assert u[..i + 1] == u[..i] + [u[i]];
    ExpandConcat(u[..i], [u[i]], 0, COUNT);
    OpenMarkExpansion(u[i]);
  }

  /** A text whose expansion ends inside the mark at `i` of `u` is no beginning of `u`, unless that mark is a '%'. */
  lemma PrefixLength(u: string, i: nat, n: nat)
    requires i < |u| && Rank(u[i]) <= COUNT && n <= |u|
    requires Expand(u[..n], 0, COUNT) == Expand(u[..i], 0, COUNT) + OpenMark(u[i])
    ensures n == i && u[i] == '%'
  {
    ExpandNext(u, i);
    OpenMarkExpansion(u[i]);
    if n < i {
      ExpandGrows(u, n, i);
    } else if i + 1 < n {
      ExpandGrows(u, i + 1, n);
    }
  }

  lemma PrefixMismatch(u: string, i: nat, p: string, k: nat, q: string)
    requires i < |u| && Rank(u[i]) <= COUNT && k < COUNT
    requires Expand(p, 0, COUNT) == Expand(u[..i], 0, COUNT) + OpenMark(u[i])
    ensures p + [KEYS[k]] + q != u
  {
    var v := p + [KEYS[k]] + q;
    assert v[..|p|] == p && v[|p|] == KEYS[k];
    KeyIsNoPercent(k);
    if v == u {
      PrefixLength(u, i, |p|);
      assert false;
    }
  }

  lemma KeyIsNoPercent(k: nat)
    requires k < COUNT
    ensures KEYS[k] != '%'
  {
    WordFacts(k);
    assert Rank('%') == COUNT;
  }

  /** Where row `j` first errs, the rows after it keep the error in place. */
  lemma MisdecodeShows(u: string, i: nat, j: nat, rest: string)
    requires j < COUNT && i < |u| && Rank(u[i]) <= COUNT
    ensures DecanonizeFrom(Expand(u[..i], j + 1, COUNT) + OpenMark(u[i]) + [KEYS[j]] + rest, j + 1) != u
  {
    var a := Expand(u[..i], j + 1, COUNT);
    var head := a + OpenMark(u[i]);
    DecanonizeSplits(head, j, rest, j + 1);
    DecanonizeKeepsExpansion(head, j + 1);
    ExpandConcat(a, OpenMark(u[i]), 0, COUNT);
    ExpandTwice(u[..i], j + 1);
    OpenMarkExpansion(u[i]);
    PrefixMismatch(u, i, DecanonizeFrom(head, j + 1), j, DecanonizeFrom(rest, j + 1));
  }

  lemma CapturedBreaks(u: string, j: nat)
    requires j < COUNT && Captured(u, j)
    requires forall i | 0 <= i < j :: !Captured(u, i)
    ensures Decanonize(Canonize(u)) != u
  {
    hide Word, Replace, Expand, Rank;
    CanonizeIsExpansion(u);
    DecodeRows(u, 0, j);
    var i := FirstCapturedAt(u, j);
    var rest := MisdecodeRow(u, i, j);
    MisdecodeShows(u, i, j, rest);
  }

  lemma UnambiguousReturns(u: string)
    requires Unambiguous(u)
    ensures Decanonize(Canonize(u)) == u
  {
    hide Captured;
    CanonizeIsExpansion(u);
    DecodeRows(u, 0, COUNT);
    ExpandSelf(u, COUNT, COUNT);
  }

  /** decanonize(canonize(u)) = u exactly for the unambiguous URIs. */
  lemma RoundTripIff(u: string)
    ensures Decanonize(Canonize(u)) == u <==> Unambiguous(u)
  {
    hide Decanonize, Canonize, Captured;
    if Unambiguous(u) {
      UnambiguousReturns(u);
    } else {
      var k: nat :| k < COUNT && Captured(u, k);
      var p := (n: nat) => n < COUNT && Captured(u, n);
      var j := Least(p, 0, k);
      forall n | 0 <= n < j ensures !Captured(u, n) {
        assert !p(n);
      }
      CapturedBreaks(u, j);
    }
  }

  /** In particular a URI without any token word returns, and so does one whose only reserved characters decode
      before the words they enclose. */
  lemma PlainUriReturns(u: string)
    requires forall j | 0 <= j < COUNT :: !Contains(u, Word(j))
    ensures Decanonize(Canonize(u)) == u
  {
    forall j, i | 0 <= j < COUNT && 0 <= i < |u| ensures !CapturedAt(u, i, j) {
      assert !StartsWith(u[i + 1..], Word(j));
    }
    RoundTripIff(u);
  }

  /** The premise is needed: "/question/" comes back changed, although "?colon?" comes back intact. */
  lemma AmbiguousExample()
    ensures Decanonize(Canonize("/question/")) != "/question/"
    ensures Decanonize(Canonize("?colon?")) == "?colon?"
  {
    AmbiguousSlashes();
    UnambiguousQuestions();
    RoundTripIff("/question/");
    RoundTripIff("?colon?");
  }

  lemma AmbiguousSlashes()
    ensures !Unambiguous("/question/")
  {
    var u := "/question/";
    assert u[1..] == "question/";
    assert u[1..][..8] == Word(0);
    assert CapturedAt(u, 0, 0);
    assert Captured(u, 0);
  }

  lemma UnambiguousQuestions()
    ensures Unambiguous("?colon?")
  {
    hide CapturedAt;
    var v := "?colon?";
    forall j, i | 0 <= j < COUNT && 0 <= i < |v| ensures !CapturedAt(v, i, j) {
      QuestionsAndLetters(i);
      NoMarkAfter(v, i, j);
    }
  }

  lemma QuestionsAndLetters(i: nat)
    requires i < |"?colon?"|
    ensures Rank("?colon?"[i]) == 0 || Rank("?colon?"[i]) == 9
  {
    assert Rank('?') == 0 && Rank('c') == 9 && Rank('o') == 9 && Rank('l') == 9 && Rank('n') == 9;
  }

  /** A question mark is decoded first, so that no row finds it undecoded in front of its word. */
  lemma NoMarkAfter(u: string, i: nat, j: nat)
    requires i < |u| && j < COUNT && (Rank(u[i]) == 0 || Rank(u[i]) == 9)
    ensures !CapturedAt(u, i, j)
  {
    hide Rank, OpensToken;
  }
}
