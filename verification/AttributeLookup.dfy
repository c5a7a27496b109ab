/** Looking one attribute up in a command line: a regular-expression shortcut in front of the tokenizer. */
module AttributeLookup {
  import opened Options
  import opened Strings
  import opened CommandCodec

  // ---- The two patterns of the shortcut ---------------------------------------------------------------------

  /** ^([^"\\]|\\.|"([^"\\]|\\.)*")*$ : balanced quotes and no dangling backslash. */
  predicate SafeInput(s: string)
    decreases |s|
  {
    if s == "" then true
    else if s[0] == '\\' then |s| > 1 && SafeInput(s[2..])
    else if s[0] == '"' then SafeQuoted(s[1..])
    else SafeInput(s[1..])
  }

  predicate SafeQuoted(s: string)
    decreases |s|
  {
    if s == "" then false
    else if s[0] == '\\' then |s| > 1 && SafeQuoted(s[2..])
    else if s[0] == '"' then SafeInput(s[1..])
    else SafeQuoted(s[1..])
  }

  /** [[:alnum:]+/=] in the C locale. */
  predicate IsSimple(c: char) {
    'a' <= c <= 'z' || 'A' <= c <= 'Z' || '0' <= c <= '9' || c == '+' || c == '/' || c == '='
  }

  /** By their codes: the digits, the capital and the small letters, and three signs. */
  lemma SimpleByCode(c: char)
    ensures var n := c as int;
            IsSimple(c) <==> 48 <= n <= 57 || 65 <= n <= 90 || 97 <= n <= 122 || n == 43 || n == 47 || n == 61
  {}

  predicate AllSimple(s: string) { forall c | c in s :: IsSimple(c) }

  function SimpleRun(s: string): (n: nat)
    ensures n <= |s| && AllSimple(s[..n])
    ensures n < |s| ==> !IsSimple(s[n])
  {
    if s == "" || !IsSimple(s[0]) then 0
    else
      var n := SimpleRun(s[1..]);
      assert s[..n + 1] == [s[0]] + s[1..][..n];
      n + 1
  }

  /** Simple characters up to a quote that ends the argument. */
  predicate ClosesSimple(body: string) {
    var n := SimpleRun(body);
    n < |body| && body[n] == '"' && (n + 1 == |body| || IsSpace(body[n + 1]))
  }

  /** The captured value when `text` is `key"value"` up to a blank or the end. */
  function QuotedSimple(text: string, key: string): Option<string> {
    if !StartsWith(text, key + "\"") then None
    else
      var body := text[|key| + 1..];
      if ClosesSimple(body) then Some(body[..SimpleRun(body)]) else None
  }

  /** A match of the value pattern whose attribute name starts at `p`. */
  function MatchAt(s: string, key: string, p: nat): Option<string>
    requires p <= |s|
  {
    if p == 0 || IsSpace(s[p - 1]) then QuotedSimple(s[p..], key) else None
  }

  /** The leftmost match from `p` on. */
  function Search(s: string, key: string, p: nat): Option<string>
    requires p <= |s|
    decreases |s| - p
  {
    var m := MatchAt(s, key, p);
    if m.Some? || p == |s| then m else Search(s, key, p + 1)
  }

  /** The shortcut: None when it does not apply. */
  function Shortcut(s: string, key: string): Option<string> {
    if SafeInput(s) then Search(s, key, 0) else None
  }

  // ---- The plain way ----------------------------------------------------------------------------------------

  /** The text behind `key` in the first argument that starts with it, or nothing. */
  function FirstValue(args: seq<string>, key: string): string {
    if args == [] then ""
    else if StartsWith(args[0], key) then args[0][|key|..]
    else FirstValue(args[1..], key)
  }

  function OrDefault(value: string, default_: string): string {
    if value == "" then default_ else value
  }

  /** Tokenize and take the first match; None when the tokenizer fails. */
  function Plain(s: string, key: string, default_: string): Option<string> {
    var args := Split(s);
    if args.None? then None else Some(OrDefault(FirstValue(args.value, key), default_))
  }

  /** The generated shell function: a missing delimiter and an open quote are errors, the shortcut comes first. */
  method ExtractOrDefault(attr: string, str: string, default_: string, delimiter: string) returns (r: Option<string>)
    ensures delimiter == "" ==> r == None
    ensures delimiter != "" && Shortcut(str, attr + delimiter).Some?
      ==> r == Some(OrDefault(Shortcut(str, attr + delimiter).value, default_))
    ensures delimiter != "" && Shortcut(str, attr + delimiter).None? ==> r == Plain(str, attr + delimiter, default_)
  {
    if delimiter == "" {
      return None;
    }
    var key := attr + delimiter;
    var quick := Shortcut(str, key);
    if quick.Some? {
      return Some(OrDefault(quick.value, default_));
    }
    var ok, args := SplitQuotedArguments(str);
    if !ok {
      return None;
    }
    var value := "";
    var i := 0;
    while i < |args|
      invariant 0 <= i <= |args| && value == ""
      invariant FirstValue(args, key) == FirstValue(args[i..], key)
    {
      if StartsWith(args[i], key) {
        value := args[i][|key|..];
        break;
      }
      i := i + 1;
    }
    return Some(OrDefault(value, default_));
  }

  // ---- Which inputs the shortcut looks at -------------------------------------------------------------------

  /** The safe-input pattern accepts exactly the inputs after which the tokenizer is outside quotes with no pending
      backslash. */
  lemma {:induction false} SafeInputIffClosed(s: string)
    ensures SafeInput(s) <==> !Run(START, s).inQuotes && !Run(START, s).escaped
  {
    SafeDecides(START, s);
  }

  lemma {:induction false} SafeDecides(st: Scan, s: string)
    requires !st.escaped
    ensures (if st.inQuotes then SafeQuoted(s) else SafeInput(s)) <==> !Run(st, s).inQuotes && !Run(st, s).escaped
    decreases |s|
  {
    if s != "" {
      if s[0] == '\\' && |s| > 1 {
        assert s[1..][0] == s[1] && s[1..][1..] == s[2..];
        SafeDecides(Step(Step(st, s[0]), s[1]), s[2..]);
      } else if s[0] == '\\' {
        assert s[1..] == "";
      } else {
        SafeDecides(Step(st, s[0]), s[1..]);
      }
    }
  }

  // ---- On printed commands ----------------------------------------------------------------------------------

  /** An attribute name that cannot be confused: no blank, quote, backslash or '='. */
  predicate PlainName(name: string) { WellFormedName(name) && '=' !in name }

  predicate Distinct(arguments: seq<Argument>) {
    forall i, j | 0 <= i < j < |arguments| :: arguments[i].name != arguments[j].name
  }

  predicate PlainCommand(arguments: seq<Argument>) {
    WellFormed(arguments) && Distinct(arguments) && forall a | a in arguments :: PlainName(a.name)
  }

  /** The value that the command carries for `name`, if any. */
  function Carried(arguments: seq<Argument>, name: string): Option<string> {
    if arguments == [] then None
    else if arguments[0].name == name then Some(Received(arguments[0].value))
    else Carried(arguments[1..], name)
  }

  /** A quote in an escaped value has its backslash in front. */
  lemma {:induction false} EscapedQuote(v: string, i: nat)
    ensures i < |Escape(v)| && Escape(v)[i] == '"' ==> i > 0 && Escape(v)[i - 1] == '\\'
  {
    if v != "" {
      var c := v[0];
      var e := (if c == '\\' || c == '"' then "\\" else "") + [c];
      assert Escape(v) == e + Escape(v[1..]);
      if i >= |e| {
        EscapedQuote(v[1..], i - |e|);
      }
    }
  }

  lemma {:induction false} EscapeSimple(v: string)
    ensures AllSimple(v) ==> Escape(v) == v
    ensures SimpleRun(Escape(v)) == |Escape(v)| ==> AllSimple(v)
  {
    if v != "" {
      EscapeSimple(v[1..]);
      assert v == [v[0]] + v[1..];
      AllSimpleCons(v[0], v[1..]);
      hide Escape, SimpleRun, AllSimple, IsSimple;
      if IsSimple(v[0]) {
        SimpleHead(v);
      } else {
        EscapedHead(v);
      }
    }
  }

  lemma SimpleHead(v: string)
    requires v != "" && IsSimple(v[0])
    ensures Escape(v) == [v[0]] + Escape(v[1..]) && SimpleRun(Escape(v)) == 1 + SimpleRun(Escape(v[1..]))
  {
    assert Escape(v)[1..] == Escape(v[1..]);
  }

  lemma AllSimpleCons(c: char, rest: string)
    ensures AllSimple([c] + rest) <==> IsSimple(c) && AllSimple(rest)
  {
    assert forall d :: d in [c] + rest <==> d == c || d in rest;
  }

  lemma EscapedHead(v: string)
    requires v != "" && !IsSimple(v[0])
    ensures Escape(v) != "" && SimpleRun(Escape(v)) == 0
  {
    assert Escape(v)[0] == if v[0] == '\\' || v[0] == '"' then '\\' else v[0];
  }

  lemma {:induction false} SimpleRunConcat(a: string, b: string)
    ensures SimpleRun(a + b) == if SimpleRun(a) == |a| then |a| + SimpleRun(b) else SimpleRun(a)
  {
    if a == "" {
      assert a + b == b;
    } else {
      assert (a + b)[0] == a[0] && (a + b)[1..] == a[1..] + b;
      SimpleRunConcat(a[1..], b);
    }
  }

  predicate EndsArgument(rest: string) { rest == "" || rest[0] == ' ' }

  /** The simple characters of an escaped value never stop at a quote. */
  lemma RunStopsElsewhere(v: string)
    ensures SimpleRun(Escape(v)) < |Escape(v)| ==> Escape(v)[SimpleRun(Escape(v))] != '"'
  {
    var e := Escape(v);
    var n := SimpleRun(e);
    EscapedQuote(v, n);
    assert forall i | 0 <= i < n :: e[..n][i] == e[i];
    assert forall i | 0 <= i < n :: IsSimple(e[..n][i]);
  }

  lemma SimpleRunOfBody(e: string, rest: string)
    ensures SimpleRun(e + "\"" + rest) == SimpleRun(e)
  {
    assert e + "\"" + rest == e + ("\"" + rest);
    SimpleRunConcat(e, "\"" + rest);
  }

  /** At its opening quote an argument matches exactly when its value is simple, and then gives that value. */
  lemma SimpleBody(v: string, rest: string)
    requires EndsArgument(rest)
    ensures var body := Escape(v) + "\"" + rest;
            ClosesSimple(body) == AllSimple(v) && (AllSimple(v) ==> body[..SimpleRun(body)] == v)
  {
    var e := Escape(v);
    EscapeSimple(v);
    RunStopsElsewhere(v);
    SimpleRunOfBody(e, rest);
    SimpleRunAll(v);
    Behind(e, rest);
  }

  lemma {:induction false} SimpleRunAll(s: string)
    ensures AllSimple(s) ==> SimpleRun(s) == |s|
  {
    if s != "" {
      assert s[0] in s;
      SimpleRunAll(s[1..]);
    }
  }

  lemma Behind(e: string, rest: string)
    ensures var body := e + "\"" + rest;
            body[..|e|] == e && body[|e|] == '"' && |body| == |e| + 1 + |rest|
            && (rest != "" ==> body[|e| + 1] == rest[0]) && forall i | 0 <= i < |e| :: body[i] == e[i]
  {}

  lemma SameKey(name: string, attr: string, x: string, y: string)
    requires '=' !in name && '=' !in attr
    ensures StartsWith(name + "=" + x, attr + "=" + y) ==> name == attr
  {
    var s, p := name + "=" + x, attr + "=" + y;
    StartsWithAt(s, p, |name|);
    StartsWithAt(s, p, |attr|);
    assert s[..|name|] == name && p[..|attr|] == attr;
    assert StartsWith(s, p) && |name| == |attr| ==> s[..|p|][..|attr|] == s[..|name|];
    assert |attr| < |name| ==> name[|attr|] in name && s[|attr|] == name[|attr|];
    assert |name| < |attr| ==> attr[|name|] in attr && p[|name|] == attr[|name|];
  }

  /** A match at the start of an argument is a match of its own name and simple value. */
  lemma MatchOwnArgument(a: Argument, rest: string, attr: string)
    requires PlainName(a.name) && '=' !in attr && EndsArgument(rest)
    ensures QuotedSimple(Quoted(a) + rest, attr + "=")
         == if a.name == attr && AllSimple(Received(a.value)) then Some(Received(a.value)) else None
  {
    var v := Received(a.value);
    var text, key := Quoted(a) + rest, attr + "=";
    assert text == a.name + "=" + ("\"" + Escape(v) + "\"" + rest);
    assert key + "\"" == attr + "=" + "\"";
    SameKey(a.name, attr, "\"" + Escape(v) + "\"" + rest, "\"");
    if a.name == attr {
      assert text[..|key| + 1] == key + "\"";
      assert text[|key| + 1..] == Escape(v) + "\"" + rest;
      SimpleBody(v, rest);
    }
  }

  /** No match starts inside an argument, whatever its value contains. */
  lemma NoMatchInside(a: Argument, rest: string, attr: string, p: nat)
    requires PlainName(a.name) && PlainName(attr) && EndsArgument(rest) && 0 < p <= |Quoted(a)|
    ensures MatchAt(Quoted(a) + rest, attr + "=", p) == None
  {
    var s, key := Quoted(a) + rest, attr + "=";
    var close := |Quoted(a)| - 1;
    assert s[p - 1] == Quoted(a)[p - 1];
    if IsSpace(s[p - 1]) && StartsWith(s[p..], key + "\"") {
      InsideValue(a, p);
      var q := p + |key|;
      forall i | p <= i < q ensures s[i] != '"' {
        StartsWithAt(s[p..], key + "\"", i - p);
        KeyHasNoQuote(attr, i - p);
      }
      StartsWithAt(s[p..], key + "\"", |key|);
      StartsWithAt(s[p..], key + "\"", |attr|);
      assert s[q] == '"' && s[q - 1] == '=' && s[close] == '"';
      assert q <= close;
      QuoteInValue(a, q);
      NothingOpens(rest);
      assert s[p..][|key| + 1..] == rest;
    }
  }

  lemma NothingOpens(rest: string)
    requires EndsArgument(rest)
    ensures !ClosesSimple(rest)
  {}

  lemma KeyHasNoQuote(attr: string, i: nat)
    requires PlainName(attr) && i <= |attr|
    ensures (attr + "=" + "\"")[i] != '"'
  {
    assert i < |attr| ==> attr[i] in attr;
  }

  lemma QuotedChars(a: Argument, i: nat)
    ensures |Quoted(a)| == |a.name| + |Escape(Received(a.value))| + 3
    ensures i < |a.name| ==> Quoted(a)[i] == a.name[i] && a.name[i] in a.name
    ensures |a.name| + 2 <= i < |Quoted(a)| - 1 ==> Quoted(a)[i] == Escape(Received(a.value))[i - |a.name| - 2]
  {}

  lemma InsideValue(a: Argument, p: nat)
    requires PlainName(a.name) && 0 < p <= |Quoted(a)| && IsSpace(Quoted(a)[p - 1])
    ensures p <= |Quoted(a)| - 1
    ensures p > |a.name| + 2
  {
    var text := Quoted(a);
    QuotedChars(a, p - 1);
    assert text[|a.name|] == '=' && text[|a.name| + 1] == '"' && text[|text| - 1] == '"';
  }

  lemma QuoteInValue(a: Argument, q: nat)
    requires |a.name| + 2 < q < |Quoted(a)| && Quoted(a)[q] == '"' && Quoted(a)[q - 1] != '\\'
    ensures q == |Quoted(a)| - 1
  {
    QuotedChars(a, q);
    QuotedChars(a, q - 1);
    EscapedQuote(Received(a.value), q - |a.name| - 2);
  }

  /** Matches behind a blank are the matches of the text behind it. */
  lemma {:induction false} SearchShift(head: string, tail: string, key: string, p: nat)
    requires p <= |tail|
    ensures Search(head + " " + tail, key, |head| + 1 + p) == Search(tail, key, p)
    decreases |tail| - p
  {
    hide QuotedSimple;
    var s := head + " " + tail;
    assert s[|head| + 1 + p..] == tail[p..];
    assert p > 0 ==> s[|head| + p] == tail[p - 1];
    assert s[|head|] == ' ';
    if p < |tail| {
      SearchShift(head, tail, key, p + 1);
    }
  }

  /** Nothing matches inside the first argument, so the search goes on behind it. */
  lemma {:induction false} SearchSkips(a: Argument, rest: string, attr: string, p: nat)
    requires PlainName(a.name) && PlainName(attr) && EndsArgument(rest) && 0 < p <= |Quoted(a)|
    ensures Search(Quoted(a) + rest, attr + "=", p)
         == if rest == "" then None else Search(Quoted(a) + rest, attr + "=", |Quoted(a)| + 1)
    decreases |Quoted(a)| - p
  {
    hide Search, MatchAt, Quoted;
    var s := Quoted(a) + rest;
    NoMatchInside(a, rest, attr, p);
    SearchStep(s, attr + "=", p);
    if p < |Quoted(a)| {
      SearchSkips(a, rest, attr, p + 1);
    }
  }

  lemma SearchStep(s: string, key: string, p: nat)
    requires p <= |s|
    ensures MatchAt(s, key, p) == None ==> Search(s, key, p) == if p == |s| then None else Search(s, key, p + 1)
  {}

  /** On a printed command the search finds exactly the simple value that the command carries under that name. */
  lemma {:induction false} SearchFindsCarried(arguments: seq<Argument>, attr: string)
    requires PlainCommand(arguments) && PlainName(attr) && arguments != []
    ensures Print(arguments).Some?
    ensures Search(Print(arguments).value, attr + "=", 0)
         == match Carried(arguments, attr)
            case None => None
            case Some(v) => if AllSimple(v) then Some(v) else None
    decreases |arguments|
  {
    hide Print, Quoted, QuotedSimple, Received;
    PrintForm(arguments);
    var a, rest := arguments[0], arguments[1..];
    assert a in arguments;
    QuotedHead(a);
    var tail := if rest == [] then "" else " " + Print(rest).value;
    var s := Quoted(a) + tail;
    assert rest == [] ==> s == Quoted(a);
    assert rest != [] ==> s == Quoted(a) + " " + Print(rest).value;
    MatchOwnArgument(a, tail, attr);
    assert s[0..] == s;
    SearchSkips(a, tail, attr, 1);
    if rest != [] {
      SearchFindsCarried(rest, attr);
      SearchShift(Quoted(a), Print(rest).value, attr + "=", 0);
      if a.name == attr {
        CarriedOnce(arguments, attr);
      }
    }
  }

  lemma {:induction false} CarriedOnce(arguments: seq<Argument>, attr: string)
    requires Distinct(arguments) && arguments != [] && arguments[0].name == attr
    ensures Carried(arguments[1..], attr) == None
  {
    NotCarried(arguments[1..], attr);
  }

  lemma {:induction false} NotCarried(arguments: seq<Argument>, attr: string)
    requires forall i | 0 <= i < |arguments| :: arguments[i].name != attr
    ensures Carried(arguments, attr) == None
  {
    if arguments != [] {
      NotCarried(arguments[1..], attr);
    }
  }

  /** The plain way finds the carried value too, simple or not. */
  lemma {:induction false} FirstValueIsCarried(arguments: seq<Argument>, attr: string)
    requires WellFormed(arguments) && '=' !in attr && forall a | a in arguments :: PlainName(a.name)
    ensures FirstValue(Tokens(arguments), attr + "=")
         == match Carried(arguments, attr) case None => "" case Some(v) => v
  {
    if arguments != [] {
      var a := arguments[0];
      assert a in arguments;
      var token := Token(a);
      assert Tokens(arguments)[0] == token && Tokens(arguments)[1..] == Tokens(arguments[1..]);
      FirstValueIsCarried(arguments[1..], attr);
      SameKey(a.name, attr, Received(a.value), "");
      assert attr + "=" + "" == attr + "=";
      if a.name == attr {
        assert token[..|attr| + 1] == attr + "=";
        assert token[|attr| + 1..] == Received(a.value);
      }
    }
  }

  /** On every printed command, and for every attribute, the shortcut gives what tokenizing would give, even when
      values contain text that looks like the attribute; it applies exactly to the simple values. */
  lemma ShortcutAgrees(arguments: seq<Argument>, attr: string, default_: string)
    requires PlainCommand(arguments) && PlainName(attr) && arguments != []
    ensures Print(arguments).Some?
    ensures var s := Print(arguments).value;
            Plain(s, attr + "=", default_)
              == Some(OrDefault(match Carried(arguments, attr) case None => "" case Some(v) => v, default_))
    ensures var s := Print(arguments).value;
            Shortcut(s, attr + "=").Some?
            <==> Carried(arguments, attr).Some? && AllSimple(Carried(arguments, attr).value)
    ensures var s, key := Print(arguments).value, attr + "=";
            Shortcut(s, key).Some? ==> Plain(s, key, default_) == Some(OrDefault(Shortcut(s, key).value, default_))
  {
    ParseOfPrint(arguments);
    FirstValueIsCarried(arguments, attr);
    SearchFindsCarried(arguments, attr);
    PrintedIsClosed(arguments);
  }

  lemma {:induction false} AssignKeepsPlain(arguments: seq<Argument>, name: string, value: string)
    requires PlainCommand(arguments) && PlainName(name) && NUL !in value
    ensures PlainCommand(Assign(arguments, name, value))
    ensures forall a | a in Assign(arguments, name, value) ::
              a.name == name || exists b :: b in arguments && b.name == a.name
  {
    if arguments != [] {
      var first, rest := arguments[0], arguments[1..];
      assert forall a :: a in arguments <==> a == first || a in rest;
      assert Distinct(rest) by {
        assert forall i, j | 0 <= i < j < |rest| :: rest[i] == arguments[i + 1] && rest[j] == arguments[j + 1];
      }
      FirstIsDistinct(arguments);
      if first.name != name {
        AssignKeepsPlain(rest, name, value);
        ConsDistinct(first, Assign(rest, name, value));
      } else {
        ConsDistinct(Argument(name, value), rest);
      }
    }
  }

  lemma FirstIsDistinct(arguments: seq<Argument>)
    requires Distinct(arguments) && arguments != []
    ensures forall b | b in arguments[1..] :: b.name != arguments[0].name
  {
    forall b | b in arguments[1..] ensures b.name != arguments[0].name {
      var i :| 0 <= i < |arguments[1..]| && arguments[1..][i] == b;
      assert arguments[i + 1] == b;
    }
  }

  lemma ConsDistinct(first: Argument, rest: seq<Argument>)
    requires Distinct(rest) && forall b | b in rest :: b.name != first.name
    ensures Distinct([first] + rest)
  {}

  /** Hence on everything that the ambassador serializes, the session id included. */
  lemma SerializedShortcutAgrees(c: Command, attr: string, default_: string)
    requires PlainCommand(c.arguments) && NUL !in c.sessionId && PlainName(attr)
    ensures SerializeArguments(c.arguments, c.sessionId).Some?
    ensures var s, key := SerializeArguments(c.arguments, c.sessionId).value, attr + "=";
            && Plain(s, key, default_)
               == Some(OrDefault(match Carried(Sent(c), attr) case None => "" case Some(v) => v, default_))
            && (Shortcut(s, key).Some? ==> Plain(s, key, default_) == Some(OrDefault(Shortcut(s, key).value, default_)))
  {
    hide Plain, Shortcut, Carried, Print, PlainCommand;
    SessionNameIsPlain();
    AssignKeepsPlain(c.arguments, "SESSION_ID", c.sessionId);
    AssignedIsSome(c.arguments, "SESSION_ID", c.sessionId);
    ShortcutAgrees(Sent(c), attr, default_);
  }

  lemma SessionNameIsPlain()
    ensures PlainName("SESSION_ID")
  {}

  lemma AssignedIsSome(arguments: seq<Argument>, name: string, value: string)
    ensures Assign(arguments, name, value) != []
  {}

  lemma PrintedIsClosed(arguments: seq<Argument>)
    requires WellFormed(arguments) && arguments != []
    ensures Print(arguments).Some? && SafeInput(Print(arguments).value)
  {
    PrintForm(arguments);
    var s := Print(arguments).value;
    SafeInputIffClosed(s);
    ParseOfPrint(arguments);
    PrintedEndsClosed([], arguments);
    assert START.(args := []) == START;
  }

  lemma {:induction false} PrintedEndsClosed(args: seq<string>, arguments: seq<Argument>)
    requires WellFormed(arguments) && arguments != []
    ensures Print(arguments).Some?
    ensures var st := Run(START.(args := args), Print(arguments).value); !st.inQuotes && !st.escaped
    decreases |arguments|
  {
    hide Print, Quoted, Token, Step;
    PrintForm(arguments);
    var a, rest := arguments[0], arguments[1..];
    assert a in arguments;
    if |arguments| == 1 {
      RunArgument(args, a);
    } else {
      RunArgumentAndSpace(args, a);
      RunConcat(START.(args := args), Quoted(a) + " ", Print(rest).value);
      PrintedEndsClosed(args + [Token(a)], rest);
    }
  }

  // ---- Off the printed form ---------------------------------------------------------------------------------

  const HANDWRITTEN: string := "\" a=\"b\" \""

  /** On hand-written input the shortcut can err: the tokenizer sees the one argument ` a=b `, but the pattern finds
      `a="b"` across two quoted stretches. */
  lemma ShortcutErrsOnHandwrittenInput()
    ensures Shortcut(HANDWRITTEN, "a=") == Some("b")
    ensures Plain(HANDWRITTEN, "a=", "none") == Some("none")
  {
    HandwrittenRun();
    SafeInputIffClosed(HANDWRITTEN);
    HandwrittenSearch();
    assert !StartsWith(" a=b ", "a=") by {
      StartsWithAt(" a=b ", "a=", 0);
    }
    assert [" a=b "][1..] == [];
  }

  lemma HandwrittenRun()
    ensures Run(START, HANDWRITTEN) == Scan([], " a=b ", false, false, true)
  {
    hide Run;
    HandwrittenHead();
    HandwrittenTail();
    assert HANDWRITTEN == "\" a=" + "\"b\" \"";
    RunConcat(START, "\" a=", "\"b\" \"");
  }

  lemma HandwrittenHead()
    ensures Run(START, "\" a=") == Scan([], " a=", true, false, true)
  {
    assert "\" a=" == ['"', ' '] + ['a', '='];
    RunConcat(START, ['"', ' '], ['a', '=']);
    hide Run;
    RunTwo(START, '"', ' ');
    RunTwo(Scan([], " ", true, false, true), 'a', '=');
  }

  lemma HandwrittenTail()
    ensures Run(Scan([], " a=", true, false, true), "\"b\" \"") == Scan([], " a=b ", false, false, true)
  {
    hide Run;
    var inside, reopened := Scan([], " a=", true, false, true), Scan([], " a=b", false, false, true);
    assert "\"b\" \"" == ['"', 'b'] + (['"', ' '] + ['"']);
    RunConcat(inside, ['"', 'b'], ['"', ' '] + ['"']);
    RunTwo(inside, '"', 'b');
    assert " a=" + "b" == " a=b" && " a=b" + " " == " a=b ";
    RunConcat(reopened, ['"', ' '], ['"']);
    RunTwo(reopened, '"', ' ');
    RunOne(Scan([], " a=b ", true, false, true), '"');
  }

  lemma HandwrittenSearch()
    ensures Search(HANDWRITTEN, "a=", 0) == Some("b")
  {
    hide Search, MatchAt, QuotedSimple;
    HandwrittenBegins();
    HandwrittenMatch();
    SearchNext(HANDWRITTEN, "a=", 0);
    SearchNext(HANDWRITTEN, "a=", 1);
    SearchFound(HANDWRITTEN, "a=", 2);
  }

  lemma HandwrittenBegins()
    ensures MatchAt(HANDWRITTEN, "a=", 0) == None && MatchAt(HANDWRITTEN, "a=", 1) == None
  {
    var s := HANDWRITTEN;
    StartsWithAt(s, "a=\"", 0);
    assert s[0..] == s;
  }

  lemma HandwrittenMatch()
    ensures MatchAt(HANDWRITTEN, "a=", 2) == Some("b")
  {
    var s := HANDWRITTEN;
    assert s[2..] == "a=\"" + "b\" \"" && s[2..][..3] == "a=\"";
    assert s[2..][3..] == "b\" \"";
    SimpleRunAll("b");
    SimpleRunOfBody("b", " \"");
    assert "b" + "\"" + " \"" == "b\" \"" && "b\" \""[..1] == "b";
  }

  lemma SearchFound(s: string, key: string, p: nat)
    requires p <= |s| && MatchAt(s, key, p).Some?
    ensures Search(s, key, p) == MatchAt(s, key, p)
  {}

  lemma SearchNext(s: string, key: string, p: nat)
    requires p < |s|
    ensures MatchAt(s, key, p) == None ==> Search(s, key, p) == Search(s, key, p + 1)
  {}
}
