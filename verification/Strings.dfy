/** Python string operations that several components share. */
module Strings {

  predicate StartsWith(s: string, p: string) {
    |p| <= |s| && s[..|p|] == p
  }

  /** str.isspace for one character. */
  predicate IsPythonSpace(c: char) {
    var n := c as int;
    9 <= n <= 13 || 28 <= n <= 32 || n == 0x85 || n == 0xA0 || n == 0x1680 || 0x2000 <= n <= 0x200A
    || n == 0x2028 || n == 0x2029 || n == 0x202F || n == 0x205F || n == 0x3000
  }

  ghost predicate Contains(s: string, p: string) {
    exists i | 0 <= i <= |s| :: StartsWith(s[i..], p)
  }

  lemma StartsWithAt(s: string, p: string, i: nat)
    ensures StartsWith(s, p) && i < |p| ==> s[i] == p[i]
  {
    assert StartsWith(s, p) && i < |p| ==> s[..|p|][i] == s[i];
  }

  /** str.replace: left to right, occurrences do not overlap. */
  function Replace(s: string, old_: string, new_: string): string
    requires old_ != ""
    decreases |s|
  {
    if s == "" then ""
    else if StartsWith(s, old_) then new_ + Replace(s[|old_|..], old_, new_)
    else [s[0]] + Replace(s[1..], old_, new_)
  }

  lemma ReplaceStep(s: string, old_: string, new_: string)
    requires old_ != "" && s != ""
    ensures StartsWith(s, old_) ==> Replace(s, old_, new_) == new_ + Replace(s[|old_|..], old_, new_)
    ensures !StartsWith(s, old_) ==> Replace(s, old_, new_) == [s[0]] + Replace(s[1..], old_, new_)
  {}

  lemma ReplaceCharStep(s: string, c: char, new_: string)
    requires s != ""
    ensures Replace(s, [c], new_) == (if s[0] == c then new_ else [s[0]]) + Replace(s[1..], [c], new_)
  {
    assert StartsWith(s, [c]) <==> s[0] == c;
  }

  lemma Associate(a: string, b: string, c: string)
    ensures a + b + c == a + (b + c)
  {}

  /** A one-character pattern is replaced character by character. */
  lemma {:induction false} ReplaceCharConcat(a: string, b: string, c: char, new_: string)
    ensures Replace(a + b, [c], new_) == Replace(a, [c], new_) + Replace(b, [c], new_)
  {
    if a == "" {
      assert a + b == b && Replace("", [c], new_) == "";
      assert "" + Replace(b, [c], new_) == Replace(b, [c], new_);
    } else {
      hide Replace, StartsWith;
      assert (a + b)[0] == a[0] && (a + b)[1..] == a[1..] + b;
      ReplaceCharConcat(a[1..], b, c, new_);
      ReplaceCharStep(a + b, c, new_);
      ReplaceCharStep(a, c, new_);
      Associate(if a[0] == c then new_ else [a[0]], Replace(a[1..], [c], new_), Replace(b, [c], new_));
    }
  }

  lemma {:induction false} ReplaceCharAbsent(s: string, c: char, new_: string)
    requires c !in s
    ensures Replace(s, [c], new_) == s
  {
    if s != "" {
      assert s == [s[0]] + s[1..];
      ReplaceCharAbsent(s[1..], c, new_);
    }
  }

  /** What `Replace` leaves alone it only copies: a text free of `c` at the head of the result was at the head of
      `s`. */
  lemma {:induction false} ReplaceKeepsForeignPrefix(s: string, old_: string, c: char, u: string)
    requires old_ != "" && c !in u
    requires StartsWith(Replace(s, old_, [c]), u)
    ensures StartsWith(s, u)
  {
    if u == "" {
      assert s[..0] == u;
    } else {
      var r := Replace(s, old_, [c]);
      assert r[0] == u[0] == r[..|u|][0];
      assert s != "";
      assert u[0] in u;
      assert !StartsWith(s, old_);
      var tail := Replace(s[1..], old_, [c]);
      assert r == [s[0]] + tail && r[1..] == tail;
      assert u[1..] == r[..|u|][1..] == tail[..|u| - 1];
      ReplaceKeepsForeignPrefix(s[1..], old_, c, u[1..]);
      assert s[..|u|] == [s[0]] + s[1..][..|u| - 1];
    }
  }

  /** Replacing never makes an occurrence of a text that avoids the inserted character. */
  lemma {:induction false} ReplaceMakesNoForeign(s: string, old_: string, c: char, u: string)
    requires old_ != "" && u != "" && c !in u
    requires !Contains(s, u)
    ensures !Contains(Replace(s, old_, [c]), u)
  {
    if s != "" {
      var r := Replace(s, old_, [c]);
      var skip := if StartsWith(s, old_) then |old_| else 1;
      var tail := Replace(s[skip..], old_, [c]);
      assert r[1..] == tail;
      SuffixContainsNo(s, skip, u);
      ReplaceMakesNoForeign(s[skip..], old_, c, u);
      assert s[0..] == s;
      forall i | 0 <= i <= |r| ensures !StartsWith(r[i..], u) {
        if i == 0 {
          assert r[0..] == r;
          if StartsWith(r, u) {
            ReplaceKeepsForeignPrefix(s, old_, c, u);
            assert false;
          }
        } else {
          assert r[i..] == tail[i - 1..];
        }
      }
    }
  }

  /** After replacing `u` by a character outside it, `u` is gone. */
  lemma {:induction false} ReplaceRemoves(s: string, u: string, c: char)
    requires u != "" && c !in u
    ensures !Contains(Replace(s, u, [c]), u)
  {
    if s != "" {
      var r := Replace(s, u, [c]);
      var skip := if StartsWith(s, u) then |u| else 1;
      var tail := Replace(s[skip..], u, [c]);
      assert r[1..] == tail;
      ReplaceRemoves(s[skip..], u, c);
      assert u[0] in u && u[0] != c;
      forall i | 0 <= i <= |r| ensures !StartsWith(r[i..], u) {
        if i == 0 {
          assert r[0..] == r;
          assert StartsWith(r, u) ==> u[0] == r[0];
          if StartsWith(r, u) {
            ReplaceKeepsForeignPrefix(s, u, c, u);
            assert false;
          }
        } else {
          assert r[i..] == tail[i - 1..];
        }
      }
    }
  }

  lemma SuffixContainsNo(s: string, k: nat, u: string)
    requires k <= |s| && !Contains(s, u)
    ensures !Contains(s[k..], u)
  {
    forall i | 0 <= i <= |s[k..]| ensures !StartsWith(s[k..][i..], u) {
      assert s[k..][i..] == s[k + i..];
    }
  }

  lemma {:induction false} ReplaceAbsent(s: string, u: string, new_: string)
    requires u != "" && !Contains(s, u)
    ensures Replace(s, u, new_) == s
  {
    if s != "" {
      assert s[0..] == s;
      SuffixContainsNo(s, 1, u);
      ReplaceAbsent(s[1..], u, new_);
    }
  }

  /** A character outside the pattern splits the replacement. */
  lemma {:induction false} ReplaceSplitsAt(a: string, c: char, b: string, old_: string, new_: string)
    requires old_ != "" && c !in old_
    ensures Replace(a + [c] + b, old_, new_) == Replace(a, old_, new_) + [c] + Replace(b, old_, new_)
  {
    var s := a + [c] + b;
    var end := [c] + Replace(b, old_, new_);
    if a == "" {
      assert s[0] == c && s[1..] == b;
      assert old_[0] in old_;
      StartsWithAt(s, old_, 0);
      assert Replace("", old_, new_) == "" && "" + [c] == [c];
    } else {
      hide Replace;
      assert s[0] == a[0] && s[1..] == a[1..] + [c] + b;
      assert |a| < |old_| ==> old_[|a|] in old_ && s[|a|] == c;
      StartsWithAt(s, old_, |a|);
      assert |old_| <= |a| ==> s[..|old_|] == a[..|old_|];
      assert StartsWith(s, old_) <==> StartsWith(a, old_);
      ReplaceStep(s, old_, new_);
      ReplaceStep(a, old_, new_);
      var skip := if StartsWith(a, old_) then |old_| else 1;
      assert s[skip..] == a[skip..] + [c] + b;
      ReplaceSplitsAt(a[skip..], c, b, old_, new_);
      var head, tail := if StartsWith(a, old_) then new_ else [a[0]], Replace(a[skip..], old_, new_);
      Associate(tail, [c], Replace(b, old_, new_));
      Associate(head, tail, end);
      Associate(head + tail, [c], Replace(b, old_, new_));
    }
  }

  /** The fields between the separators of `partial + text`, of which `partial` has none. */
  function SplitAt(partial: string, text: string, separator: char): (fields: seq<string>)
    ensures fields != []
    decreases |text|
  {
    if text == "" then [partial]
    else if text[0] == separator then [partial] + SplitAt("", text[1..], separator)
    else SplitAt(partial + [text[0]], text[1..], separator)
  }

  /** A separator at the end adds an empty field. */
  lemma {:induction false} SplitAtEnd(partial: string, text: string, separator: char)
    ensures SplitAt(partial, text + [separator], separator) == SplitAt(partial, text, separator) + [""]
    decreases |text|
  {
    var longer := text + [separator];
    if text == "" {
      assert longer[1..] == "";
    } else {
      assert longer[0] == text[0] && longer[1..] == text[1..] + [separator];
      SplitAtEnd(if text[0] == separator then "" else partial + [text[0]], text[1..], separator);
    }
  }

  /** The fields put together again. */
  function Joined(fields: seq<string>, separator: char): string {
    if fields == [] then ""
    else if |fields| == 1 then fields[0]
    else fields[0] + [separator] + Joined(fields[1..], separator)
  }

  /** The fields hold no separator, and with separators between them they are the text. */
  lemma {:induction false} SplitAtJoins(partial: string, text: string, separator: char)
    requires separator !in partial
    ensures Joined(SplitAt(partial, text, separator), separator) == partial + text
    ensures forall field | field in SplitAt(partial, text, separator) :: separator !in field
    decreases |text|
  {
    if text == "" {
      assert partial + text == partial;
    } else if text[0] == separator {
      SplitAtJoins("", text[1..], separator);
      var rest := SplitAt("", text[1..], separator);
      assert ([partial] + rest)[1..] == rest;
      assert partial + [separator] + text[1..] == partial + text;
    } else {
      SplitAtJoins(partial + [text[0]], text[1..], separator);
      assert partial + [text[0]] + text[1..] == partial + text;
    }
  }

  /** Text without separators goes to the field in progress. */
  lemma {:induction false} SplitAtSkips(partial: string, a: string, b: string, separator: char)
    requires separator !in a
    ensures SplitAt(partial, a + b, separator) == SplitAt(partial + a, b, separator)
    decreases |a|
  {
    if a == "" {
      assert a + b == b && partial + a == partial;
    } else {
      assert a[0] in a && (a + b)[0] == a[0] && (a + b)[1..] == a[1..] + b;
      SplitAtSkips(partial + [a[0]], a[1..], b, separator);
      assert partial + [a[0]] + a[1..] == partial + a;
    }
  }

  /** Splitting takes apart what joining put together. */
  lemma {:induction false} SplitJoined(fields: seq<string>, separator: char)
    requires fields != [] && forall field | field in fields :: separator !in field
    ensures SplitAt("", Joined(fields, separator), separator) == fields
  {
    var first, rest := fields[0], fields[1..];
    assert first in fields;
    if rest == [] {
      assert Joined(fields, separator) == first + "";
      SplitAtSkips("", first, "", separator);
      assert "" + first == first && fields == [first];
    } else {
      var tail := [separator] + Joined(rest, separator);
      assert Joined(fields, separator) == first + tail;
      SplitAtSkips("", first, tail, separator);
      assert "" + first == first && tail[0] == separator && tail[1..] == Joined(rest, separator);
      assert forall field | field in rest :: field in fields;
      SplitJoined(rest, separator);
      assert fields == [first] + rest;
    }
  }
}
