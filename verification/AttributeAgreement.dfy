/** When the shortcut for one attribute agrees with tokenizing, on any input at all. */
module AttributeAgreement {
  import opened Options
  import opened Sequences
  import opened Strings
  import opened CommandCodec
  import opened AttributeLookup

  // ---- The match and the arguments --------------------------------------------------------------------------

  /** The name of the leftmost match of the value pattern stands at `p`. */
  predicate Leftmost(s: string, key: string, p: nat) {
    p <= |s| && MatchAt(s, key, p).Some? && forall q: nat | q < p :: MatchAt(s, key, q).None?
  }

  /** The tokenizer in front of position `p`. */
  function Before(s: string, p: nat): Scan
    requires p <= |s|
  {
    Run(START, s[..p])
  }

  /** Argument number `k` begins with the character at `p`. */
  predicate BeginsAt(s: string, k: nat, p: nat) {
    p < |s| && !Before(s, p).started && Before(s, p + 1).started && |Before(s, p).args| == k
  }

  predicate Unmatched(args: seq<string>, key: string) { forall a | a in args :: !StartsWith(a, key) }

  /** Argument number `k` is the first that starts with `key`. */
  predicate IsFirst(args: seq<string>, key: string, k: nat) {
    k < |args| && StartsWith(args[k], key) && Unmatched(args[..k], key)
  }

  /** The first argument that starts with `key` begins at `p`. */
  ghost predicate BeginsFirst(s: string, key: string, p: nat) {
    Split(s).Some? && exists k: nat :: BeginsAt(s, k, p) && IsFirst(Split(s).value, key, k)
  }

  /** Moreover it is the match, from its beginning to its end. */
  ghost predicate MatchIsFirst(s: string, key: string, p: nat, v: string) {
    && Split(s).Some?
    && exists k: nat :: BeginsAt(s, k, p) && IsFirst(Split(s).value, key, k) && Split(s).value[k] == key + v
  }

  /** No quote, backslash or separator is in the key. */
  predicate PlainKey(key: string) { forall c | c in key :: IsLiteral(c) }

  /** At `p` the tokenizer is between arguments and has finished none that starts with the key. */
  predicate Fresh(s: string, key: string, p: nat)
    requires p <= |s|
  {
    var st := Before(s, p);
    !st.inQuotes && !st.escaped && !st.started && Unmatched(st.args, key)
  }

  /** Where the match that starts at `p` ends, its closing quote included. */
  function MatchEnd(key: string, p: nat, v: string): nat { p + |key| + |v| + 2 }

  /** What follows the match ends an argument. */
  predicate EndsAtSeparator(s: string, end: nat) { end < |s| ==> IsSeparator(s[end]) }

  predicate StandsAlone(s: string, key: string, p: nat, v: string)
    requires p <= |s|
  {
    PlainKey(key) && Fresh(s, key, p) && EndsAtSeparator(s, MatchEnd(key, p, v))
  }

  lemma {:induction false} SearchIsLeftmost(s: string, key: string, p: nat)
    requires p <= |s| && forall q: nat | q < p :: MatchAt(s, key, q).None?
    ensures forall q: nat | Leftmost(s, key, q) :: Search(s, key, p) == MatchAt(s, key, q)
    ensures Search(s, key, p).Some? ==> exists q: nat :: Leftmost(s, key, q)
    decreases |s| - p
  {
    hide MatchAt;
    if MatchAt(s, key, p).Some? {
      assert Leftmost(s, key, p);
      forall q: nat | Leftmost(s, key, q) ensures q == p {}
    } else if p < |s| {
      SearchIsLeftmost(s, key, p + 1);
    }
  }

  /** The parts of a match. */
  lemma MatchParts(s: string, key: string, p: nat)
    requires p <= |s| && MatchAt(s, key, p).Some?
    ensures var v, end := MatchAt(s, key, p).value, MatchEnd(key, p, MatchAt(s, key, p).value);
            && AllSimple(v) && end <= |s|
            && s[p..] == key + "\"" + v + "\"" + s[end..]
            && (end < |s| ==> IsSpace(s[end]))
            && (p > 0 ==> IsSpace(s[p - 1]))
  {
    hide QuotedSimple;
    var v := MatchAt(s, key, p).value;
    QuotedParts(s[p..], key);
    assert s[p..][|key| + |v| + 2..] == s[MatchEnd(key, p, v)..];
  }

  lemma QuotedParts(text: string, key: string)
    requires QuotedSimple(text, key).Some?
    ensures var v := QuotedSimple(text, key).value;
            var end := |key| + |v| + 2;
            && AllSimple(v) && end <= |text|
            && text == key + "\"" + v + "\"" + text[end..]
            && (end < |text| ==> IsSpace(text[end]))
  {
    var open := |key| + 1;
    var body := text[open..];
    var n := SimpleRun(body);
    assert text == text[..open] + body && text[..open] == key + "\"";
    assert body == body[..n] + [body[n]] + body[n + 1..];
    assert body[n + 1..] == text[open + n + 1..];
    assert n + 1 < |body| ==> body[n + 1] == text[open + n + 1];
  }

  // ---- How arguments grow -----------------------------------------------------------------------------------

  /** Between arguments the tokenizer holds nothing. */
  predicate Tidy(st: Scan) { !st.started ==> st.current == "" && !st.inQuotes && !st.escaped }

  lemma {:induction false} RunKeepsTidy(st: Scan, s: string)
    requires Tidy(st)
    ensures Tidy(Run(st, s))
    decreases |s|
  {
    if s != "" {
      RunKeepsTidy(Step(st, s[0]), s[1..]);
    }
  }

  /** Finished arguments stay. */
  lemma {:induction false} RunExtends(st: Scan, s: string)
    ensures st.args <= Run(st, s).args
    decreases |s|
  {
    if s != "" {
      RunExtends(Step(st, s[0]), s[1..]);
    }
  }

  lemma FinishExtends(st: Scan, s: string)
    requires Finish(Run(st, s)).Some?
    ensures st.args <= Finish(Run(st, s)).value
  {
    RunExtends(st, s);
  }

  /** The started argument becomes the next one, and what it has so far stays its beginning. */
  lemma {:induction false} StartedGrows(st: Scan, s: string)
    requires st.started && Finish(Run(st, s)).Some?
    ensures var args := Finish(Run(st, s)).value;
            |st.args| < |args| && StartsWith(args[|st.args|], st.current)
    decreases |s|
  {
    if s != "" {
      var next := Step(st, s[0]);
      if next.started {
        StartedGrows(next, s[1..]);
        assert StartsWith(next.current, st.current);
        PrefixOfPrefix(Finish(Run(st, s)).value[|st.args|], next.current, st.current);
      } else {
        assert next.args == st.args + [st.current];
        FinishExtends(next, s[1..]);
        assert Finish(Run(st, s)).value[..|next.args|][|st.args|] == st.current;
      }
    }
  }

  lemma PrefixOfPrefix(s: string, t: string, u: string)
    requires StartsWith(s, t) && StartsWith(t, u)
    ensures StartsWith(s, u)
  {
    assert s[..|u|] == s[..|t|][..|u|];
  }

  // ---- The tokenizer at a match -----------------------------------------------------------------------------

  lemma LastStep(s: string, p: nat)
    requires 0 < p <= |s|
    ensures Before(s, p) == Step(Before(s, p - 1), s[p - 1])
  {
    assert s[..p] == s[..p - 1] + [s[p - 1]];
    RunConcat(START, s[..p - 1], [s[p - 1]]);
    RunOne(Before(s, p - 1), s[p - 1]);
  }

  /** Behind a blank no escape is pending, and a started argument is not empty. */
  lemma BehindBlank(s: string, p: nat)
    requires p <= |s| && (p > 0 ==> IsSpace(s[p - 1]))
    ensures Tidy(Before(s, p)) && !Before(s, p).escaped
    ensures Before(s, p).started ==> Before(s, p).current != ""
  {
    RunKeepsTidy(START, s[..p]);
    if p > 0 {
      LastStep(s, p);
      RunKeepsTidy(START, s[..p - 1]);
    }
  }

  /** Inside quotes or outside, the text of a match adds its key and its value, and leaves the quotes as they are. */
  lemma RunThroughMatch(st: Scan, key: string, v: string)
    requires !st.escaped && PlainKey(key) && AllSimple(v)
    ensures Run(st, key + "\"" + v + "\"") == Append(st, key + v)
  {
    hide Step;
    var named := if key == "" then st else Append(st, key);
    var open := named.(inQuotes := !st.inQuotes, started := true);
    var valued := if v == "" then open else Append(open, v);
    RunChunk(st, key);
    Toggle(named);
    RunConcat(st, key, "\"");
    RunChunk(open, v);
    RunConcat(st, key + "\"", v);
    Toggle(valued);
    RunConcat(st, key + "\"" + v, "\"");
    assert st.current + key + v == st.current + (key + v);
    assert st.current + "" == st.current;
  }

  lemma Toggle(st: Scan)
    requires !st.escaped
    ensures Run(st, "\"") == st.(inQuotes := !st.inQuotes, started := true)
  {
    RunOne(st, '"');
  }

  /** What becomes of the argument that the match is in, for a plain key. */
  lemma ArgumentAtMatch(st: Scan, key: string, v: string, rest: string)
    requires !st.escaped && PlainKey(key) && AllSimple(v)
    requires rest != "" ==> IsSpace(rest[0])
    requires Finish(Run(st, key + "\"" + v + "\"" + rest)).Some?
    ensures var args, text := Finish(Run(st, key + "\"" + v + "\"" + rest)).value, st.current + (key + v);
            && st.args <= args && |st.args| < |args|
            && if !st.inQuotes && (rest != "" ==> IsSeparator(rest[0])) then args[|st.args|] == text
               else StartsWith(args[|st.args|], text) && |args[|st.args|]| > |text|
  {
    var all := key + "\"" + v + "\"" + rest;
    var met := Append(st, key + v);
    RunThroughMatch(st, key, v);
    RunConcat(st, key + "\"" + v + "\"", rest);
    FinishExtends(st, all);
    AfterMatch(met, rest);
  }

  lemma AfterMatch(met: Scan, rest: string)
    requires met.started && !met.escaped && (rest != "" ==> IsSpace(rest[0]))
    requires Finish(Run(met, rest)).Some?
    ensures var args := Finish(Run(met, rest)).value;
            && |met.args| < |args|
            && if !met.inQuotes && (rest != "" ==> IsSeparator(rest[0])) then args[|met.args|] == met.current
               else StartsWith(args[|met.args|], met.current) && |args[|met.args|]| > |met.current|
  {
    if rest != "" {
      var next := Step(met, rest[0]);
      if next.started {
        StartedGrows(next, rest[1..]);
        PrefixOfPrefix(Finish(Run(met, rest)).value[|met.args|], next.current, met.current);
      } else {
        FinishExtends(next, rest[1..]);
        assert Finish(Run(met, rest)).value[..|next.args|][|met.args|] == met.current;
      }
    }
  }

  // ---- Keys that are not plain ------------------------------------------------------------------------------

  predicate IsSpecial(c: char) { c == '"' || c == '\\' }

  predicate AllSpecial(s: string) { forall c | c in s :: IsSpecial(c) }

  /** Quotes and backslashes give at most half as many characters. */
  lemma {:induction false} RunSpecials(st: Scan, u: string)
    requires AllSpecial(u)
    ensures var e := Run(st, u);
            && e.args == st.args && (st.started || u != "" ==> e.started)
            && StartsWith(e.current, st.current)
            && 2 * |e.current| + One(e.escaped) + One(e.inQuotes)
               <= 2 * |st.current| + |u| + One(st.escaped) + One(st.inQuotes)
            && (u != "" && u[|u| - 1] == '"' ==> !e.escaped)
    decreases |u|
  {
    if u != "" {
      assert u[0] in u && forall c | c in u[1..] :: c in u;
      var next := Step(st, u[0]);
      RunSpecials(next, u[1..]);
      PrefixOfPrefix(Run(st, u).current, next.current, st.current);
    }
  }

  /** Behind them the argument ends, or shows that another character stands where the raw text has not come yet. */
  lemma ThenOther(e: Scan, w: string)
    requires e.started && Finish(Run(e, w)).Some?
    requires if w == "" then !e.escaped else !IsSpecial(w[0])
    ensures var args, m := Finish(Run(e, w)).value, |e.current| + One(e.escaped && e.inQuotes);
            && |e.args| < |args|
            && (args[|e.args|] == e.current || (|args[|e.args|]| > m && !IsSpecial(args[|e.args|][m])))
  {
    if w != "" {
      var next := Step(e, w[0]);
      var m := |e.current| + One(e.escaped && e.inQuotes);
      if next.started {
        StartedGrows(next, w[1..]);
        StartsWithAt(Finish(Run(e, w)).value[|e.args|], next.current, m);
      } else {
        FinishExtends(next, w[1..]);
        assert Finish(Run(e, w)).value[..|next.args|][|e.args|] == e.current;
      }
    }
  }

  /** The number of quotes and backslashes at the head. */
  function SpecialRun(s: string): (n: nat)
    ensures n <= |s| && AllSpecial(s[..n])
    ensures n < |s| ==> !IsSpecial(s[n])
  {
    if s == "" || !IsSpecial(s[0]) then 0
    else
      var n := SpecialRun(s[1..]);
      assert s[..n + 1] == [s[0]] + s[1..][..n];
      n + 1
  }

  function LiteralRun(s: string): (n: nat)
    ensures n <= |s| && PlainKey(s[..n])
    ensures n < |s| ==> !IsLiteral(s[n])
  {
    if s == "" || !IsLiteral(s[0]) then 0
    else
      var n := LiteralRun(s[1..]);
      assert s[..n + 1] == [s[0]] + s[1..][..n];
      n + 1
  }

  /** The argument in progress at `met` does not go on with `tail`. */
  predicate GoesElsewhere(met: Scan, result: Option<seq<string>>, tail: string) {
    result.Some? ==>
      && |met.args| < |result.value| && |met.current| <= |result.value[|met.args|]|
      && !StartsWith(result.value[|met.args|][|met.current|..], tail)
  }

  /** An argument that begins like the match does not start with a key that is not plain. */
  lemma OtherKey(st: Scan, key: string, v: string, rest: string)
    requires Tidy(st) && !st.started && !PlainKey(key) && AllSimple(v) && (rest != "" ==> IsSpace(rest[0]))
    requires Step(st, key[0]).started
    requires Finish(Run(st, key + "\"" + v + "\"" + rest)).Some?
    ensures var args := Finish(Run(st, key + "\"" + v + "\"" + rest)).value;
            |st.args| < |args| && !StartsWith(args[|st.args|], key)
  {
    hide Step, Run, Finish, AllSimple, IsSpace, GoesElsewhere, StartsWith;
    var n := LiteralRun(key);
    var a, tail, behind := key[..n], key[n..], "\"" + v + "\"" + rest;
    var met := RunLiteral(st, a, tail + behind);
    assert key + "\"" + v + "\"" + rest == a + (tail + behind);
    NotLiteral(key[n]);
    if IsSeparator(key[n]) {
      BlankBeginsNothing(st, key[n]);
      SeparatorEnds(met, tail + behind);
      ShorterStartsNot(a, key);
    } else {
      SpecialEnds(met, tail, v, rest);
      ElsewhereIsOther(met, Finish(Run(met, tail + behind)), key);
    }
  }

  lemma RunLiteral(st: Scan, a: string, w: string) returns (met: Scan)
    requires Tidy(st) && !st.started && PlainKey(a)
    ensures Run(st, a + w) == Run(met, w)
    ensures met == st.(current := a, started := a != "")
  {
    RunChunk(st, a);
    RunConcat(st, a, w);
    assert "" + a == a;
    met := if a == "" then st else Append(st, a);
  }

  lemma ShorterStartsNot(a: string, key: string)
    requires |a| < |key|
    ensures !StartsWith(a, key)
  {}

  lemma ElsewhereIsOther(met: Scan, result: Option<seq<string>>, key: string)
    requires |met.current| <= |key| && result.Some?
    requires GoesElsewhere(met, result, key[|met.current|..])
    ensures |met.args| < |result.value| && !StartsWith(result.value[|met.args|], key)
  {
    var arg := result.value[|met.args|];
    if StartsWith(arg, key) {
      SuffixOfPrefix(arg, key, |met.current|);
    }
  }

  lemma NotLiteral(c: char)
    ensures !IsLiteral(c) ==> IsSeparator(c) || IsSpecial(c)
  {}

  lemma BlankBeginsNothing(st: Scan, c: char)
    requires Tidy(st) && !st.started && IsSeparator(c)
    ensures Step(st, c) == st
  {}

  lemma SuffixOfPrefix(s: string, key: string, n: nat)
    requires StartsWith(s, key) && n <= |key|
    ensures StartsWith(s[n..], key[n..])
  {
    assert s[n..][..|key| - n] == s[..|key|][n..];
  }

  lemma SeparatorEnds(met: Scan, text: string)
    requires met.started && !met.inQuotes && !met.escaped && text != "" && IsSeparator(text[0])
    requires Finish(Run(met, text)).Some?
    ensures var args := Finish(Run(met, text)).value; |met.args| < |args| && args[|met.args|] == met.current
  {
    var next := Step(met, text[0]);
    FinishExtends(next, text[1..]);
    assert Finish(Run(met, text)).value[..|next.args|][|met.args|] == met.current;
  }

  /** Text that begins with a quote or a backslash does not become an argument that goes on like the text. */
  lemma SpecialEnds(met: Scan, tail: string, v: string, rest: string)
    requires !met.inQuotes && !met.escaped && tail != "" && IsSpecial(tail[0])
    requires AllSimple(v) && (rest != "" ==> IsSpace(rest[0]))
    ensures GoesElsewhere(met, Finish(Run(met, tail + ("\"" + v + "\"" + rest))), tail)
  {
    hide Step, Run, Finish, IsSpace, AllSimple, GoesElsewhere;
    var l := SpecialRun(tail);
    var u, behind := tail[..l], "\"" + v + "\"" + rest;
    if l < |tail| {
      var w := tail[l..] + behind;
      assert tail + behind == u + w && w[0] == tail[l];
      RunConcat(met, u, w);
      RunSpecials(met, u);
      Departs(met, Run(met, u), w, tail, l);
    } else {
      assert u == tail && tail + behind == (u + "\"") + (v + "\"" + rest);
      RunConcat(met, u + "\"", v + "\"" + rest);
      AllSpecialEnds(met, u, v, rest);
    }
  }

  lemma AllSpecialEnds(met: Scan, u: string, v: string, rest: string)
    requires !met.inQuotes && !met.escaped && u != "" && AllSpecial(u)
    requires AllSimple(v) && (rest != "" ==> IsSpace(rest[0]))
    ensures GoesElsewhere(met, Finish(Run(Run(met, u + "\""), v + "\"" + rest)), u)
  {
    hide Step, Run, Finish, GoesElsewhere;
    var e, w := Run(met, u + "\""), v + "\"" + rest;
    RunSpecials(met, u + "\"");
    assert u[..|u|] == u;
    if |u| == 1 {
      ShortSpecial(met, u);
    }
    if u == "\\" {
      QuoteForBackslash(met, e, w);
    } else if v != "" {
      assert v[0] in v && w[0] == v[0];
      Departs(met, e, w, u, |u|);
    } else {
      assert w == "\"" + rest;
      RunConcat(e, "\"", rest);
      Toggle(e);
      Departs(met, Run(e, "\""), rest, u, |u|);
    }
  }

  lemma ShortSpecial(met: Scan, u: string)
    requires !met.inQuotes && !met.escaped && |u| == 1 && IsSpecial(u[0])
    ensures u == "\"" ==> Run(met, u + "\"").current == met.current
    ensures u == "\\" ==> Run(met, u + "\"").current == met.current + "\""
  {
    assert u + "\"" == [u[0], '"'];
    RunTwo(met, u[0], '"');
    assert "" + "\"" == "\"";
  }

  lemma QuoteForBackslash(met: Scan, e: Scan, w: string)
    requires e.args == met.args && e.started && e.current == met.current + "\""
    ensures GoesElsewhere(met, Finish(Run(e, w)), "\\")
  {
    hide Run, Finish;
    if Finish(Run(e, w)).Some? {
      StartedGrows(e, w);
      var arg := Finish(Run(e, w)).value[|met.args|];
      StartsWithAt(arg, e.current, |met.current|);
      StartsWithAt(arg[|met.current|..], "\\", 0);
    }
  }

  /** With fewer characters out than in, the next other character stands where `tail` has a quote or a backslash. */
  lemma Departs(met: Scan, e: Scan, w: string, tail: string, l: nat)
    requires 0 < l <= |tail| && AllSpecial(tail[..l])
    requires e.args == met.args && e.started && StartsWith(e.current, met.current)
    requires |e.current| + One(e.escaped && e.inQuotes) < |met.current| + l
    requires if w == "" then !e.escaped else !IsSpecial(w[0])
    ensures GoesElsewhere(met, Finish(Run(e, w)), tail)
  {
    hide Run, Finish, IsSpecial;
    if Finish(Run(e, w)).None? {
      return;
    }
    ThenOther(e, w);
    var arg := Finish(Run(e, w)).value[|met.args|];
    var m := |e.current| + One(e.escaped && e.inQuotes) - |met.current|;
    StartsWithAt(arg[|met.current|..], tail, m);
    assert tail[..l][m] == tail[m] && tail[m] in tail[..l];
  }

  // ---- When the match is the argument -----------------------------------------------------------------------

  /** All that the argument in progress at a match can become. */
  lemma AtMatch(s: string, key: string, p: nat)
    requires SafeInput(s) && p <= |s| && MatchAt(s, key, p).Some?
    ensures Split(s).Some?
    ensures var st, args, v := Before(s, p), Split(s).value, MatchAt(s, key, p).value;
            && Tidy(st) && !st.escaped && st.args <= args && p < |s|
            && (st.started ==> st.current != "")
            && (PlainKey(key) ==> BeginsAt(s, |st.args|, p) || st.started)
            && (PlainKey(key) ==>
                  && |st.args| < |args|
                  && if !st.inQuotes && EndsAtSeparator(s, MatchEnd(key, p, v))
                     then args[|st.args|] == st.current + (key + v)
                     else StartsWith(args[|st.args|], st.current + (key + v))
                          && |args[|st.args|]| > |st.current + (key + v)|)
            && (!PlainKey(key) && BeginsAt(s, |st.args|, p) ==>
                  |st.args| < |args| && !StartsWith(args[|st.args|], key))
  {
    hide Run, MatchAt, QuotedSimple, SafeInput, Finish, IsSpace;
    var st, v := Before(s, p), MatchAt(s, key, p).value;
    MatchParts(s, key, p);
    BehindBlank(s, p);
    SafeSplits(s, p);
    var rest := s[MatchEnd(key, p, v)..];
    FinishExtends(st, s[p..]);
    LastStep(s, p + 1);
    assert s[p] == s[p..][0];
    if PlainKey(key) {
      assert if key == "" then s[p] == '"' else s[p] == key[0] && key[0] in key;
      ArgumentAtMatch(st, key, v, rest);
    } else if BeginsAt(s, |st.args|, p) {
      assert s[p] == key[0];
      OtherKey(st, key, v, rest);
    }
  }

  lemma SafeSplits(s: string, p: nat)
    requires SafeInput(s) && p <= |s|
    ensures Split(s).Some? && Split(s) == Finish(Run(Before(s, p), s[p..]))
  {
    SafeInputIffClosed(s);
    assert s == s[..p] + s[p..];
    RunConcat(START, s[..p], s[p..]);
  }

  /** The first argument that starts with the key begins at the match if and only if the tokenizer is between
      arguments there, has finished none with the key, and the key is plain. It is the match if and only if moreover a
      separator or the end of the input is behind the match. */
  lemma MatchIsFirstIff(s: string, key: string, p: nat)
    requires SafeInput(s) && Leftmost(s, key, p)
    ensures BeginsFirst(s, key, p) <==> PlainKey(key) && Fresh(s, key, p)
    ensures MatchIsFirst(s, key, p, MatchAt(s, key, p).value) <==> StandsAlone(s, key, p, MatchAt(s, key, p).value)
  {
    hide MatchAt, SafeInput, Split, Before;
    AtMatch(s, key, p);
    var st, args, v, k := Before(s, p), Split(s).value, MatchAt(s, key, p).value, |Before(s, p).args|;
    assert args[..k] == st.args;
    assert "" + (key + v) == key + v;
    if PlainKey(key) && Fresh(s, key, p) {
      assert StartsWith(key + v, key);
      PrefixOfPrefix(args[k], key + v, key);
      assert BeginsAt(s, k, p) && IsFirst(args, key, k);
    }
  }

  // ---- When the values agree --------------------------------------------------------------------------------

  /** Two values that are the same once the default stands for the empty one. */
  predicate Same(w: string, v: string, default_: string) {
    w == v || ((w == "" || w == default_) && (v == "" || v == default_))
  }

  /** Another argument carries the key, and happens to lead to the value of the match: an earlier one; or the one that
      the match is inside of or goes on behind it, whose value is longer, so that only a default can be the same; or a
      later one or none. */
  predicate Coincides(s: string, key: string, p: nat, v: string, default_: string)
    requires p <= |s| && Split(s).Some? && |Before(s, p).args| <= |Split(s).value|
  {
    var earlier, k := Before(s, p).args, |Before(s, p).args|;
    var others := Split(s).value[k..];
    if !Unmatched(earlier, key) then Same(FirstValue(earlier, key), v, default_)
    else if PlainKey(key) && others != [] && StartsWith(others[0], key) then v == "" && default_ == others[0][|key|..]
    else Same(FirstValue(others, key), v, default_)
  }

  /** For every input the pattern applies to, every key and every default: the two ways give the same if and only if
      the match stands alone or a coincidence makes up for it. */
  lemma MatchAgreesIff(s: string, key: string, p: nat, default_: string)
    requires SafeInput(s) && Leftmost(s, key, p)
    ensures Split(s).Some? && |Before(s, p).args| <= |Split(s).value|
    ensures var v := MatchAt(s, key, p).value;
            Plain(s, key, default_) == Some(OrDefault(v, default_))
            <==> StandsAlone(s, key, p, v) || Coincides(s, key, p, v, default_)
  {
    hide MatchAt, SafeInput, Split, Before;
    AtMatch(s, key, p);
    var st, args, v, k := Before(s, p), Split(s).value, MatchAt(s, key, p).value, |Before(s, p).args|;
    assert args == st.args + args[k..];
    FirstValueConcat(st.args, args[k..], key);
    if Unmatched(st.args, key) && PlainKey(key) {
      var whole := st.current + (key + v);
      assert args[k..][0] == args[k];
      assert whole[..|whole|] == whole;
      if StandsAlone(s, key, p, v) {
        assert args[k] == key + v;
        assert (key + v)[..|key|] == key && (key + v)[|key|..] == v;
      } else {
        assert |args[k]| > |key| + |v|;
      }
    }
  }

  lemma {:induction false} FirstValueConcat(a: seq<string>, b: seq<string>, key: string)
    ensures FirstValue(a + b, key) == if Unmatched(a, key) then FirstValue(b, key) else FirstValue(a, key)
  {
    if a == [] {
      assert a + b == b;
    } else {
      assert (a + b)[0] == a[0] && (a + b)[1..] == a[1..] + b;
      assert a == [a[0]] + a[1..];
      FirstValueConcat(a[1..], b, key);
    }
  }

  /** Hence the shell function gives what tokenizing alone would give if and only if the shortcut does not apply, or
      its match stands alone or a coincidence makes up for it. */
  lemma ShortcutAgreesIff(s: string, key: string, default_: string)
    ensures (Shortcut(s, key).Some? ==> Plain(s, key, default_) == Some(OrDefault(Shortcut(s, key).value, default_)))
            <==> (SafeInput(s) ==> forall p: nat | Leftmost(s, key, p) ::
                    && Split(s).Some? && |Before(s, p).args| <= |Split(s).value|
                    && (StandsAlone(s, key, p, MatchAt(s, key, p).value)
                        || Coincides(s, key, p, MatchAt(s, key, p).value, default_)))
  {
    hide Plain, StandsAlone, Coincides, SafeInput, Search, MatchAt;
    SearchIsLeftmost(s, key, 0);
    if SafeInput(s) {
      forall p: nat | Leftmost(s, key, p)
        ensures && Split(s).Some? && |Before(s, p).args| <= |Split(s).value|
        ensures Plain(s, key, default_) == Some(OrDefault(MatchAt(s, key, p).value, default_))
            <==> StandsAlone(s, key, p, MatchAt(s, key, p).value)
                 || Coincides(s, key, p, MatchAt(s, key, p).value, default_)
      {
        MatchAgreesIff(s, key, p, default_);
      }
    }
  }
}
