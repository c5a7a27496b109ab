/** The command language of the filesystem API: the HTTP ambassador prints `name="value"` arguments, one command a line,
    and the generated shell dispatcher reads the lines and splits them with a hand-written tokenizer. */
module CommandCodec {
  import opened Options
  import opened Strings

  const NUL: char := '\0'

  // ---- The tokenizer ----------------------------------------------------------------------------------------

  /** The arm of the tokenizer that ends an argument. */
  predicate IsSeparator(c: char) { c == ' ' || c == '\t' || c == '\n' }

  /** The [:space:] class of the C locale. */
  predicate IsSpace(c: char) { IsSeparator(c) || c == '\r' || c == '\U{0B}' || c == '\U{0C}' }

  /** The characters the tokenizer consumes in chunks. */
  predicate IsOrdinary(c: char) { c != '\\' && c != '"' && !IsSpace(c) }

  /** The characters that are appended as they are, inside quotes and outside. */
  predicate IsLiteral(c: char) { c != '\\' && c != '"' && !IsSeparator(c) }

  datatype Scan = Scan(args: seq<string>, current: string, inQuotes: bool, escaped: bool, started: bool)

  const START: Scan := Scan([], "", false, false, false)

  function Append(st: Scan, text: string): Scan {
    st.(current := st.current + text, started := true)
  }

  /** The reference machine: one character at a time. */
  function Step(st: Scan, c: char): Scan {
    if st.escaped then
      var kept := if st.inQuotes && c != '"' && c != '\\' then "\\" else "";
      Append(st, kept + [c]).(escaped := false)
    else if c == '\\' then
      st.(escaped := true, started := true)
    else if c == '"' then
      st.(inQuotes := !st.inQuotes, started := true)
    else if IsSeparator(c) then
      if st.inQuotes then st.(current := st.current + [c])
      else if st.started then st.(args := st.args + [st.current], current := "", started := false)
      else st
    else
      Append(st, [c])
  }

  function Run(st: Scan, s: string): Scan
    decreases |s|
  {
    if s == "" then st else Run(Step(st, s[0]), s[1..])
  }

  /** The arguments once the input is used up; an open quote is an error. */
  function Finish(st: Scan): Option<seq<string>> {
    var current := if st.escaped then st.current + "\\" else st.current;
    if st.inQuotes then None
    else Some(if st.started then st.args + [current] else st.args)
  }

  function Split(s: string): Option<seq<string>> { Finish(Run(START, s)) }

  /** The length of the longest prefix that the chunk pattern matches. */
  function ChunkLength(s: string): (n: nat)
    ensures n <= |s|
    ensures forall i | 0 <= i < n :: IsOrdinary(s[i])
    ensures n < |s| ==> !IsOrdinary(s[n])
  {
    if s == "" || !IsOrdinary(s[0]) then 0 else 1 + ChunkLength(s[1..])
  }

  lemma {:induction false} RunConcat(st: Scan, a: string, b: string)
    ensures Run(st, a + b) == Run(Run(st, a), b)
    decreases |a|
  {
    if a == "" {
      assert a + b == b;
    } else {
      assert (a + b)[0] == a[0] && (a + b)[1..] == a[1..] + b;
      RunConcat(Step(st, a[0]), a[1..], b);
    }
  }

  /** A whole chunk moves the machine as its characters do one by one. */
  lemma {:induction false} RunChunk(st: Scan, chunk: string)
    requires !st.escaped && forall c | c in chunk :: IsLiteral(c)
    ensures Run(st, chunk) == if chunk == "" then st else Append(st, chunk)
    decreases |chunk|
  {
    if chunk != "" {
      assert chunk[0] in chunk && chunk == [chunk[0]] + chunk[1..];
      assert Step(st, chunk[0]) == Append(st, [chunk[0]]);
      RunChunk(Append(st, [chunk[0]]), chunk[1..]);
      assert st.current + [chunk[0]] + chunk[1..] == st.current + chunk;
      assert chunk[1..] == "" ==> chunk == [chunk[0]];
    }
  }

  lemma RunOrdinaryPrefix(st: Scan, s: string, n: nat)
    requires n <= |s| && !st.escaped && 0 < n && forall i | 0 <= i < n :: IsOrdinary(s[i])
    ensures Run(st, s) == Run(Append(st, s[..n]), s[n..])
  {
    assert s == s[..n] + s[n..];
    RunConcat(st, s[..n], s[n..]);
    RunChunk(st, s[..n]);
  }

  /** The generated shell function, chunks and all. It agrees with the character machine on every input and fails
      exactly when the input ends inside quotes. */
  method SplitQuotedArguments(text: string) returns (ok: bool, output: seq<string>)
    ensures ok <==> UnescapedQuotes(text) % 2 == 0
    ensures ok <==> Split(text).Some?
    ensures ok ==> output == Split(text).value
    ensures !ok ==> output == Run(START, text).args
  {
    var input := text;
    var current := "";
    var inQuotes, escaped, argumentStarted := false, false, false;
    output := [];
    while input != ""
      invariant Run(Scan(output, current, inQuotes, escaped, argumentStarted), input) == Run(START, text)
      decreases |input|
    {
      var n := ChunkLength(input);
      if !escaped && n > 0 {
        RunOrdinaryPrefix(Scan(output, current, inQuotes, escaped, argumentStarted), input, n);
        current := current + input[..n];
        input := input[n..];
        argumentStarted := true;
        continue;
      }
      var character := input[0];
      input := input[1..];
      if escaped {
        assert current + "\\" + [character] == current + ("\\" + [character]);
        assert "" + [character] == [character];
        if inQuotes && character != '"' && character != '\\' {
          current := current + "\\";
        }
        current := current + [character];
        escaped := false;
        argumentStarted := true;
        continue;
      }
      if character == '\\' {
        escaped := true;
        argumentStarted := true;
      } else if character == '"' {
        inQuotes := !inQuotes;
        argumentStarted := true;
      } else if IsSeparator(character) {
        if inQuotes {
          current := current + [character];
        } else if argumentStarted {
          output := output + [current];
          current := "";
          argumentStarted := false;
        }
      } else {
        current := current + [character];
        argumentStarted := true;
      }
    }
    QuotesDecide(START, text);
    if escaped {
      current := current + "\\";
    }
    if inQuotes {
      return false, output;
    }
    if argumentStarted {
      output := output + [current];
    }
    ok := true;
  }

  /** The quotes that no backslash precedes as an escape. */
  function UnescapedQuotes(s: string): nat {
    if s == "" then 0
    else if s[0] == '\\' then if |s| == 1 then 0 else UnescapedQuotes(s[2..])
    else (if s[0] == '"' then 1 else 0) + UnescapedQuotes(s[1..])
  }

  lemma {:induction false} QuotesDecide(st: Scan, s: string)
    requires !st.escaped
    ensures Run(st, s).inQuotes <==> (UnescapedQuotes(s) % 2 == 1) != st.inQuotes
    decreases |s|
  {
    if s != "" {
      if s[0] == '\\' && |s| > 1 {
        assert s[1..][0] == s[1] && s[1..][1..] == s[2..];
        QuotesDecide(Step(Step(st, s[0]), s[1]), s[2..]);
      } else if s[0] == '\\' {
        assert s[1..] == "";
      } else {
        QuotesDecide(Step(st, s[0]), s[1..]);
      }
    }
  }

  // ---- The printer ------------------------------------------------------------------------------------------

  /** CRLF and LF become CR, because a line feed ends a command. */
  function NormalizeBreaks(value: string): string {
    Replace(Replace(value, "\r\n", "\n"), "\n", "\r")
  }

  function QuoteArgumentValue(value: string): Option<string> {
    if NUL in value then None
    else Some("\"" + Replace(Replace(NormalizeBreaks(value), "\\", "\\\\"), "\"", "\\\"") + "\"")
  }

  datatype Argument = Argument(name: string, value: string)

  /** Assignment to a key of an insertion-ordered dictionary. */
  function Assign(arguments: seq<Argument>, name: string, value: string): seq<Argument> {
    if arguments == [] then [Argument(name, value)]
    else if arguments[0].name == name then [Argument(name, value)] + arguments[1..]
    else [arguments[0]] + Assign(arguments[1..], name, value)
  }

  function Forwarded(arguments: seq<Argument>, sessionId: string): seq<Argument> {
    Assign(arguments, "SESSION_ID", sessionId)
  }

  /** Every argument is forwarded in its place. The id of the session takes the value of the first argument of its
      name, and is a last argument if there is none. */
  lemma {:induction false} ForwardedTells(arguments: seq<Argument>, sessionId: string)
    ensures var forwarded := Forwarded(arguments, sessionId);
            && |arguments| <= |forwarded|
            && (forall i :: 0 <= i < |arguments| ==>
                  forwarded[i] == if IsFirstOf(arguments, i, "SESSION_ID") then Argument("SESSION_ID", sessionId)
                                  else arguments[i])
            && forwarded[|arguments|..] == if exists a :: a in arguments && a.name == "SESSION_ID" then []
                                           else [Argument("SESSION_ID", sessionId)]
  {
    if arguments != [] && arguments[0].name != "SESSION_ID" {
      var first, rest := arguments[0], arguments[1..];
      var forwarded := Forwarded(arguments, sessionId);
      ForwardedTells(rest, sessionId);
      assert forwarded == [first] + Forwarded(rest, sessionId);
      forall i | 0 <= i < |arguments|
        ensures forwarded[i] == if IsFirstOf(arguments, i, "SESSION_ID") then Argument("SESSION_ID", sessionId)
                                else arguments[i]
      {
        if i > 0 {
          assert arguments[i] == rest[i - 1];
          assert IsFirstOf(arguments, i, "SESSION_ID") <==> IsFirstOf(rest, i - 1, "SESSION_ID") by {
            assert forall j :: 0 <= j < i - 1 ==> rest[j] == arguments[j + 1];
            assert forall j :: 1 <= j < i ==> arguments[j] == rest[j - 1];
          }
        }
      }
      assert forwarded[|arguments|..] == Forwarded(rest, sessionId)[|rest|..];
      assert arguments == [first] + rest;
    }
  }

  predicate IsFirstOf(arguments: seq<Argument>, i: nat, name: string)
    requires i < |arguments|
  {
    arguments[i].name == name && forall j :: 0 <= j < i ==> arguments[j].name != name
  }

  function Print(arguments: seq<Argument>): Option<string> {
    if arguments == [] then Some("")
    else
      var quoted := QuoteArgumentValue(arguments[0].value);
      if quoted.None? then None
      else
        var head := arguments[0].name + "=" + quoted.value;
        if |arguments| == 1 then Some(head)
        else
          var tail := Print(arguments[1..]);
          if tail.None? then None else Some(head + " " + tail.value)
  }

  function SerializeArguments(arguments: seq<Argument>, sessionId: string): Option<string> {
    Print(Forwarded(arguments, sessionId))
  }

  function StripLeft(s: string): string {
    if s != "" && IsPythonSpace(s[0]) then StripLeft(s[1..]) else s
  }

  function StripRight(s: string): string {
    if s != "" && IsPythonSpace(s[|s| - 1]) then StripRight(s[..|s| - 1]) else s
  }

  /** One line per command, whatever blank space surrounds it. */
  function CanonizeArgs(command: string): string {
    StripRight(StripLeft(command)) + "\n"
  }

  /** Blank space around a command goes, and a line end comes behind it. */
  lemma CanonizeStrips(before: string, command: string, after: string)
    requires (forall c | c in before :: IsPythonSpace(c)) && (forall c | c in after :: IsPythonSpace(c))
    requires command != "" && !IsPythonSpace(command[0]) && !IsPythonSpace(command[|command| - 1])
    ensures CanonizeArgs(before + command + after) == command + "\n"
  {
    var all := command + after;
    assert before + command + after == before + all && all[0] == command[0];
    StripsLeft(before, all);
    StripsRight(command, after);
  }

  lemma {:induction false} StripsLeft(before: string, rest: string)
    requires (forall c | c in before :: IsPythonSpace(c)) && rest != "" && !IsPythonSpace(rest[0])
    ensures StripLeft(before + rest) == rest
  {
    if before == "" {
      assert before + rest == rest;
    } else {
      assert before[0] in before && (before + rest)[0] == before[0] && (before + rest)[1..] == before[1..] + rest;
      StripsLeft(before[1..], rest);
    }
  }

  lemma {:induction false} StripsRight(rest: string, after: string)
    requires (forall c | c in after :: IsPythonSpace(c)) && rest != "" && !IsPythonSpace(rest[|rest| - 1])
    ensures StripRight(rest + after) == rest
    decreases |after|
  {
    if after == "" {
      assert rest + after == rest;
    } else {
      var last := |after| - 1;
      assert after[last] in after && (rest + after)[|rest| + last] == after[last];
      assert (rest + after)[..|rest| + last] == rest + after[..last];
      StripsRight(rest, after[..last]);
    }
  }

  /** The complete lines of a FIFO stream, as `read -r` delivers them. */
  function Lines(stream: string): seq<string> {
    LinesFrom("", stream)
  }

  function LinesFrom(partial: string, stream: string): seq<string>
    decreases |stream|
  {
    if stream == "" then []
    else if stream[0] == '\n' then [partial] + LinesFrom("", stream[1..])
    else LinesFrom(partial + [stream[0]], stream[1..])
  }

  // ---- Printing and parsing are inverse ---------------------------------------------------------------------

  /** What the receiver is meant to see of a value. */
  function Received(value: string): string {
    if value == "" then ""
    else if StartsWith(value, "\r\n") then "\r" + Received(value[2..])
    else (if value[0] == '\n' then "\r" else [value[0]]) + Received(value[1..])
  }

  lemma {:induction false} NormalizeIsReceived(value: string)
    ensures NormalizeBreaks(value) == Received(value)
    ensures '\n' !in Received(value)
    ensures NUL !in value ==> NUL !in Received(value)
    decreases |value|
  {
    if value != "" {
      var first := Replace(value, "\r\n", "\n");
      if StartsWith(value, "\r\n") {
        NormalizeIsReceived(value[2..]);
        var rest := Replace(value[2..], "\r\n", "\n");
        assert first == "\n" + rest;
        ReplaceCharConcat("\n", rest, '\n', "\r");
        NewlineBecomesReturn();
      } else {
        NormalizeIsReceived(value[1..]);
        var rest := Replace(value[1..], "\r\n", "\n");
        assert first == [value[0]] + rest;
        ReplaceCharConcat([value[0]], rest, '\n', "\r");
        if value[0] == '\n' {
          NewlineBecomesReturn();
        } else {
          ReplaceCharAbsent([value[0]], '\n', "\r");
        }
      }
    }
  }

  lemma NewlineBecomesReturn()
    ensures Replace("\n", "\n", "\r") == "\r"
  {
    assert StartsWith("\n", "\n");
    assert Replace("\n", "\n", "\r") == "\r" + Replace("", "\n", "\r");
  }

  function Escape(value: string): string {
    if value == "" then ""
    else (if value[0] == '\\' || value[0] == '"' then "\\" else "") + [value[0]] + Escape(value[1..])
  }

  lemma ReplaceOne(c: char, new_: string)
    ensures Replace([c], [c], new_) == new_
  {
    assert StartsWith([c], [c]) && [c][1..] == "";
    assert new_ + Replace("", [c], new_) == new_;
  }

  /** The two replacements escape character by character. */
  lemma {:induction false} QuotingIsEscaping(value: string)
    ensures Replace(Replace(value, "\\", "\\\\"), "\"", "\\\"") == Escape(value)
  {
    if value != "" {
      var c, rest := value[0], value[1..];
      assert value == [c] + rest;
      ReplaceCharConcat([c], rest, '\\', "\\\\");
      ReplaceCharConcat(Replace([c], "\\", "\\\\"), Replace(rest, "\\", "\\\\"), '"', "\\\"");
      QuotingIsEscaping(rest);
      if c == '\\' {
        ReplaceOne('\\', "\\\\");
        ReplaceCharAbsent("\\\\", '"', "\\\"");
      } else {
        ReplaceCharAbsent([c], '\\', "\\\\");
        if c == '"' {
          ReplaceOne('"', "\\\"");
        } else {
          ReplaceCharAbsent([c], '"', "\\\"");
        }
      }
    }
  }

  lemma QuoteForm(value: string)
    requires NUL !in value
    ensures QuoteArgumentValue(value) == Some("\"" + Escape(Received(value)) + "\"")
  {
    NormalizeIsReceived(value);
    QuotingIsEscaping(Received(value));
  }

  lemma {:induction false} RunEscaped(st: Scan, value: string)
    requires st.inQuotes && !st.escaped && st.started
    ensures Run(st, Escape(value)) == st.(current := st.current + value)
    decreases |value|
  {
    if value == "" {
      assert st.current + "" == st.current;
    } else {
      var c := value[0];
      var next := st.(current := st.current + [c]);
      var e := (if c == '\\' || c == '"' then "\\" else "") + [c];
      RunConcat(st, e, Escape(value[1..]));
      if c == '\\' || c == '"' {
        RunTwo(st, '\\', c);
        assert e == ['\\', c];
        assert "" + [c] == [c];
      } else {
        RunOne(st, c);
        assert e == [c];
      }
      RunEscaped(next, value[1..]);
      assert st.current + [c] + value[1..] == st.current + value;
    }
  }

  lemma RunOne(st: Scan, c: char)
    ensures Run(st, [c]) == Step(st, c)
  {
    assert [c][1..] == "";
  }

  lemma RunTwo(st: Scan, c: char, d: char)
    ensures Run(st, [c, d]) == Step(Step(st, c), d)
  {
    assert [c, d][1..] == [d];
    RunOne(Step(st, c), d);
  }

  /** Names that need no quoting: any text without blank space, quotes or backslashes. */
  predicate WellFormedName(name: string) {
    forall c | c in name :: !IsPythonSpace(c) && c != '"' && c != '\\' && c != NUL
  }

  predicate WellFormed(arguments: seq<Argument>) {
    forall a | a in arguments :: WellFormedName(a.name) && NUL !in a.value
  }

  function Token(a: Argument): string { a.name + "=" + Received(a.value) }

  function Tokens(arguments: seq<Argument>): seq<string> {
    if arguments == [] then [] else [Token(arguments[0])] + Tokens(arguments[1..])
  }

  function Quoted(a: Argument): string { a.name + "=" + "\"" + Escape(Received(a.value)) + "\"" }

  lemma OrdinaryName(name: string)
    requires WellFormedName(name)
    ensures forall c | c in name + "=" :: IsOrdinary(c)
  {
    forall c | c in name + "=" ensures IsOrdinary(c) {
      assert c in name || c == '=';
    }
  }

  lemma RunArgument(args: seq<string>, a: Argument)
    requires WellFormedName(a.name)
    ensures Run(START.(args := args), Quoted(a)) == Scan(args, Token(a), false, false, true)
  {
    var st := START.(args := args);
    var name, value := a.name + "=", Received(a.value);
    OrdinaryName(a.name);
    RunChunk(st, name);
    var open := Append(st, name);
    assert "" + name == name;
    var inside := open.(inQuotes := true);
    RunOne(open, '"');
    RunEscaped(inside, value);
    var filled := inside.(current := name + value);
    RunOne(filled, '"');
    RunConcat(st, name + "\"" + Escape(value), "\"");
    RunConcat(st, name + "\"", Escape(value));
    RunConcat(st, name, "\"");
  }

  /** `Print` joins the quoted arguments with single spaces. */
  lemma {:induction false} PrintForm(arguments: seq<Argument>)
    requires WellFormed(arguments)
    ensures Print(arguments).Some?
    ensures |arguments| == 1 ==> Print(arguments).value == Quoted(arguments[0])
    ensures |arguments| > 1 ==> Print(arguments[1..]).Some?
    ensures |arguments| > 1 ==> Print(arguments).value == Quoted(arguments[0]) + " " + Print(arguments[1..]).value
  {
    if arguments != [] {
      var a := arguments[0];
      assert a in arguments;
      QuoteForm(a.value);
      assert a.name + "=" + ("\"" + Escape(Received(a.value)) + "\"") == Quoted(a);
      if |arguments| > 1 {
        PrintForm(arguments[1..]);
      }
    }
  }

  lemma {:induction false} RunPrinted(args: seq<string>, arguments: seq<Argument>)
    requires WellFormed(arguments)
    ensures Print(arguments).Some?
    ensures Finish(Run(START.(args := args), Print(arguments).value)) == Some(args + Tokens(arguments))
    decreases |arguments|
  {
    hide Print, Quoted, Token, Step;
    PrintForm(arguments);
    if arguments == [] {
      PrintNone();
      assert args + [] == args;
    } else {
      var a, rest := arguments[0], arguments[1..];
      assert a in arguments;
      assert args + [Token(a)] + Tokens(rest) == args + Tokens(arguments);
      if |arguments| == 1 {
        RunArgument(args, a);
        assert rest == [] && Tokens(rest) == [];
        assert args + [Token(a)] + [] == args + [Token(a)];
      } else {
        RunArgumentAndSpace(args, a);
        RunConcat(START.(args := args), Quoted(a) + " ", Print(rest).value);
        RunPrinted(args + [Token(a)], rest);
      }
    }
  }

  lemma PrintNone()
    ensures Print([]) == Some("")
  {}

  lemma RunArgumentAndSpace(args: seq<string>, a: Argument)
    requires WellFormedName(a.name)
    ensures Run(START.(args := args), Quoted(a) + " ") == START.(args := args + [Token(a)])
  {
    RunArgument(args, a);
    var parsed := Scan(args, Token(a), false, false, true);
    RunConcat(START.(args := args), Quoted(a), [' ']);
    RunOne(parsed, ' ');
    assert Quoted(a) + [' '] == Quoted(a) + " ";
    assert Step(parsed, ' ') == Scan(args + [Token(a)], "", false, false, false);
  }

  /** Tokenizing a printed command recovers every `name=value` in order. */
  lemma ParseOfPrint(arguments: seq<Argument>)
    requires WellFormed(arguments)
    ensures Print(arguments).Some?
    ensures Split(Print(arguments).value) == Some(Tokens(arguments))
  {
    RunPrinted([], arguments);
    assert START.(args := []) == START;
    assert [] + Tokens(arguments) == Tokens(arguments);
  }

  /** A NUL in any value is the one thing that stops a command from being printed. */
  lemma {:induction false} PrintFailsOnNul(arguments: seq<Argument>)
    ensures Print(arguments).None? <==> exists a | a in arguments :: NUL in a.value
  {
    if arguments != [] {
      PrintFailsOnNul(arguments[1..]);
      assert arguments == [arguments[0]] + arguments[1..];
      if |arguments| == 1 {
        assert arguments == [arguments[0]];
      }
    }
  }

  // ---- Framing ----------------------------------------------------------------------------------------------

  lemma {:induction false} EscapeKeepsOut(value: string, c: char)
    requires c !in value && c != '\\'
    ensures c !in Escape(value)
  {
    if value != "" {
      EscapeKeepsOut(value[1..], c);
    }
  }

  lemma QuotedIsOneLine(a: Argument)
    requires WellFormedName(a.name) && NUL !in a.value
    ensures '\n' !in Quoted(a)
  {
    NormalizeIsReceived(a.value);
    EscapeKeepsOut(Received(a.value), '\n');
    assert IsPythonSpace('\n');
  }

  lemma {:induction false} PrintedIsOneLine(arguments: seq<Argument>)
    requires WellFormed(arguments) && arguments != []
    ensures Print(arguments).Some?
    ensures '\n' !in Print(arguments).value
    ensures |Print(arguments).value| >= 1
    ensures Print(arguments).value[|Print(arguments).value| - 1] == '"'
    ensures !IsPythonSpace(Print(arguments).value[0])
  {
    PrintForm(arguments);
    assert arguments[0] in arguments;
    QuotedIsOneLine(arguments[0]);
    QuotedHead(arguments[0]);
    if |arguments| > 1 {
      PrintedIsOneLine(arguments[1..]);
    }
  }

  lemma QuotedHead(a: Argument)
    requires WellFormedName(a.name)
    ensures |Quoted(a)| > 2 && Quoted(a)[|Quoted(a)| - 1] == '"' && !IsPythonSpace(Quoted(a)[0])
  {
    assert Quoted(a) == a.name + ("=" + "\"" + Escape(Received(a.value)) + "\"");
    if a.name != "" {
      assert a.name[0] in a.name;
    }
  }

  /** Canonization leaves a printed command alone and ends its line. */
  lemma CanonizeKeepsPrinted(arguments: seq<Argument>)
    requires WellFormed(arguments) && arguments != []
    ensures Print(arguments).Some?
    ensures CanonizeArgs(Print(arguments).value) == Print(arguments).value + "\n"
  {
    PrintedIsOneLine(arguments);
  }

  lemma {:induction false} LinesFromLine(partial: string, line: string, rest: string)
    requires '\n' !in line
    ensures LinesFrom(partial, line + "\n" + rest) == [partial + line] + LinesFrom("", rest)
    decreases |line|
  {
    var s := line + "\n" + rest;
    if line == "" {
      assert s[0] == '\n' && s[1..] == rest && partial + line == partial;
    } else {
      assert line[0] in line && s[0] == line[0] && s[1..] == line[1..] + "\n" + rest;
      LinesFromLine(partial + [line[0]], line[1..], rest);
      assert partial + [line[0]] + line[1..] == partial + line;
    }
  }

  datatype Command = Command(arguments: seq<Argument>, sessionId: string)

  predicate WellFormedCommand(c: Command) { WellFormed(c.arguments) && NUL !in c.sessionId }

  function Sent(c: Command): seq<Argument> { Forwarded(c.arguments, c.sessionId) }

  lemma {:induction false} AssignKeepsWellFormed(arguments: seq<Argument>, name: string, value: string)
    requires WellFormed(arguments) && WellFormedName(name) && NUL !in value
    ensures WellFormed(Assign(arguments, name, value)) && Assign(arguments, name, value) != []
  {
    if arguments != [] && arguments[0].name != name {
      AssignKeepsWellFormed(arguments[1..], name, value);
    }
  }

  lemma SentIsWellFormed(c: Command)
    requires WellFormedCommand(c)
    ensures WellFormed(Sent(c)) && Sent(c) != []
  {
    assert WellFormedName("SESSION_ID");
    AssignKeepsWellFormed(c.arguments, "SESSION_ID", c.sessionId);
  }

  /** The bytes that a sequence of commands puts on the request FIFO. */
  function Stream(commands: seq<Command>): string
    requires forall c | c in commands :: SerializeArguments(c.arguments, c.sessionId).Some?
  {
    if commands == [] then ""
    else CanonizeArgs(SerializeArguments(commands[0].arguments, commands[0].sessionId).value) + Stream(commands[1..])
  }

  lemma {:induction false} CommandsSerialize(commands: seq<Command>)
    requires forall c | c in commands :: WellFormedCommand(c)
    ensures forall c | c in commands :: SerializeArguments(c.arguments, c.sessionId).Some?
  {
    forall c | c in commands ensures SerializeArguments(c.arguments, c.sessionId).Some? {
      SentIsWellFormed(c);
      ParseOfPrint(Sent(c));
    }
  }

  lemma LinesFirst(line: string, rest: string)
    requires '\n' !in line
    ensures Lines(line + "\n" + rest) == [line] + Lines(rest)
  {
    LinesFromLine("", line, rest);
    assert "" + line == line;
  }

  lemma NoLines()
    ensures Lines("") == []
  {}

  /** Any list of commands survives printing, framing, splitting into lines and tokenizing: command `i` comes back as
      line `i`, and its tokens are its arguments in order with the session id among them. */
  lemma {:induction false} CommandsRoundTrip(commands: seq<Command>)
    requires forall c | c in commands :: WellFormedCommand(c)
    ensures forall c | c in commands :: SerializeArguments(c.arguments, c.sessionId).Some?
    ensures |Lines(Stream(commands))| == |commands|
    ensures forall i | 0 <= i < |commands| :: Split(Lines(Stream(commands))[i]) == Some(Tokens(Sent(commands[i])))
  {
    hide Lines, Print, Tokens, Split, WellFormed;
    CommandsSerialize(commands);
    if commands == [] {
      NoLines();
    } else {
      var c := commands[0];
      assert c in commands;
      SentIsWellFormed(c);
      var printed := Print(Sent(c)).value;
      ParseOfPrint(Sent(c));
      CanonizeKeepsPrinted(Sent(c));
      PrintedIsOneLine(Sent(c));
      CommandsRoundTrip(commands[1..]);
      LinesFirst(printed, Stream(commands[1..]));
    }
  }
}
