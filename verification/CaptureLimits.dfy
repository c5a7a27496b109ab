/** Exactly when assembling connections in temporary files is right, and what follows for interleaved connections. */
module CaptureLimits {
  import opened Options
  import opened CaptureEvents
  import opened CaptureReference
  import opened Capture

  /** From these files, whatever the events and the memory limit: if no event ends the capture, the directory shows what
      the events say. */
  ghost predicate AlwaysRight(naming: Naming, scope: Scope, files: map<string, Bytes>) {
    forall captureId, limit, events
      | limit >= 1 && AllInScope(naming, captureId, scope, events) && GoesOn(naming, captureId, events) ::
        Shows(After(naming, captureId, limit, files, events).files, files, Outputs(naming, captureId, events))
  }

  ghost predicate WellNamed(naming: Naming, scope: Scope) {
    && (forall key | key in scope.keys :: naming.safeName(key.filename) == key.filename)
    && forall l | l in scope.legacy :: naming.safeName(l) == l
  }

  lemma {:induction false} AfterRefines(naming: Naming, captureId: string, scope: Scope, limit: int,
                                        files: map<string, Bytes>, events: seq<Event>)
    requires Lawful(naming) && Separate(naming, scope) && Clean(naming, scope, files) && limit >= 1
    requires AllInScope(naming, captureId, scope, events) && GoesOn(naming, captureId, events)
    ensures Refines(naming, captureId, scope, files, events, After(naming, captureId, limit, files, events))
    decreases |events|
  {
    hide Lawful, Separate, Clean, AllInScope, InScope, Refines, Verdict, Handled;
    if events == [] {
      StartRefines(naming, captureId, scope, files);
    } else {
      var last := |events| - 1;
      var front, e := events[..last], events[last];
      assert GoesOn(naming, captureId, front) by {
        assert forall i | 0 <= i < last :: front[..i] == events[..i] && front[i] == events[i];
        assert forall i | 0 <= i < last :: Verdict(naming, captureId, events[..i], events[i]).None?;
      }
      ScopeOf(naming, captureId, scope, events, last);
      AfterRefines(naming, captureId, scope, limit, files, front);
      HandledRefines(naming, captureId, scope, limit, files, front, After(naming, captureId, limit, files, front), e);
      assert events == front + [e];
    }
  }

  lemma RefinesShows(naming: Naming, captureId: string, scope: Scope, files: map<string, Bytes>, events: seq<Event>,
                     c: Consumer)
    requires Refines(naming, captureId, scope, files, events, c)
    ensures Shows(c.files, files, Outputs(naming, captureId, events))
  {}

  lemma SeparateIsRight(naming: Naming, scope: Scope, files: map<string, Bytes>)
    requires Lawful(naming) && Separate(naming, scope) && Clean(naming, scope, files)
    ensures AlwaysRight(naming, scope, files)
  {
    hide Lawful, Separate, Clean, AllInScope, GoesOn, Shows, Outputs, After;
    forall captureId, limit, events
      | limit >= 1 && AllInScope(naming, captureId, scope, events) && GoesOn(naming, captureId, events)
      ensures Shows(After(naming, captureId, limit, files, events).files, files, Outputs(naming, captureId, events))
    {
      AfterRefines(naming, captureId, scope, limit, files, events);
      RefinesShows(naming, captureId, scope, files, events, After(naming, captureId, limit, files, events));
    }
  }

  lemma RightShows(naming: Naming, scope: Scope, captureId: string, limit: int, files: map<string, Bytes>,
                   events: seq<Event>)
    requires limit >= 1 && AllInScope(naming, captureId, scope, events) && GoesOn(naming, captureId, events)
    ensures AlwaysRight(naming, scope, files) ==>
              Shows(After(naming, captureId, limit, files, events).files, files, Outputs(naming, captureId, events))
  {}

  function ChunkEvent(captureId: string, key: Key, index: nat, payload: Bytes): Event {
    Event(SCHEMA_VERSION, captureId, ConnectionLogChunk(key.traceId, key.filename, Some(index), Some(payload)))
  }

  function CompleteEvent(captureId: string, key: Key, count: nat): Event {
    Event(SCHEMA_VERSION, captureId, ConnectionLogComplete(key.traceId, key.filename, Some(count)))
  }

  function LogEvent(captureId: string, filename: string, payload: Bytes): Event {
    Event(SCHEMA_VERSION, captureId, ConnectionLog(filename, Some(payload)))
  }

  lemma AfterGrows(naming: Naming, captureId: string, limit: int, files: map<string, Bytes>, events: seq<Event>,
                   e: Event)
    ensures After(naming, captureId, limit, files, events + [e])
         == Handled(naming, captureId, limit, After(naming, captureId, limit, files, events), e).0
  {
    assert (events + [e])[..|events|] == events;
  }

  lemma GoesOnMore(naming: Naming, captureId: string, events: seq<Event>, e: Event)
    requires GoesOn(naming, captureId, events) && Verdict(naming, captureId, events, e).None?
    ensures GoesOn(naming, captureId, events + [e])
  {
    assert (events + [e])[..|events|] == events;
    OneMoreGoesOn(naming, captureId, events + [e], |events|);
    assert (events + [e])[..|events| + 1] == events + [e];
  }

  const A: Bytes := [0]
  const B: Bytes := [1]

  /** Two connections with the same temporary file: the first gets the chunk of the second as well. */
  lemma SharedIsWrong(naming: Naming, scope: Scope, files: map<string, Bytes>, a: Key, b: Key)
    requires Lawful(naming) && WellNamed(naming, scope) && a in scope.keys && b in scope.keys && a != b
    requires Temporary(naming, a) == Temporary(naming, b) && Clean(naming, scope, files)
    ensures !AlwaysRight(naming, scope, files)
  {
    hide Verdict, GoesOn, After, Outputs, Pending, Shows, Lawful, AllInScope, Clean;
    var e1, e2, e3 := ChunkEvent("", a, 0, A), ChunkEvent("", b, 0, B), CompleteEvent("", a, 1);
    FirstChunk(naming, scope, files, a, e1);
    SharedSecond(naming, scope, files, a, b, [] + [e1], e2);
    SharedThird(naming, scope, files, a, [] + [e1] + [e2], e3);
    var events := [] + [e1] + [e2] + [e3];
    assert events == [e1, e2, e3];
    InScopes(naming, scope, events);
    PlainKey(naming, scope, a);
    NotShown(After(naming, "", 1, files, events).files, files, Outputs(naming, "", events), a.filename, A);
    RightShows(naming, scope, "", 1, files, events);
  }

  lemma PlainKey(naming: Naming, scope: Scope, key: Key)
    requires Lawful(naming) && WellNamed(naming, scope) && key in scope.keys
    ensures IsPlain(key.filename)
  {}

  lemma NotShown(files: map<string, Bytes>, initial: map<string, Bytes>, outputs: map<string, Bytes>,
                 name: string, content: Bytes)
    requires IsPlain(name) && name in outputs && outputs[name] == content && Stored(files, name) != content
    ensures !Shows(files, initial, outputs)
  {
    assert Stored(initial + outputs, name) == content;
  }

  lemma InScopes(naming: Naming, scope: Scope, events: seq<Event>)
    requires forall e | e in events :: InScope(naming, "", scope, e)
    ensures AllInScope(naming, "", scope, events)
  {}

  /** The first chunk of a connection, under the smallest limit, goes to its temporary file at once. */
  lemma FirstChunk(naming: Naming, scope: Scope, files: map<string, Bytes>, a: Key, e: Event)
    requires e == ChunkEvent("", a, 0, A) && WellNamed(naming, scope) && a in scope.keys
    requires Clean(naming, scope, files)
    ensures After(naming, "", 1, files, [] + [e])
         == Consumer(map[a := Assembly(1, [])], 0, files[Temporary(naming, a) := A], 0)
    ensures GoesOn(naming, "", [] + [e]) && Pending(naming, "", [] + [e], a) == Some([A])
    ensures forall k | k != a :: Pending(naming, "", [] + [e], k) == None
    ensures Outputs(naming, "", [] + [e]) == map[] && InScope(naming, "", scope, e)
  {
    hide After, Outputs, Pending, Temporary;
    AfterGrows(naming, "", 1, files, [], e);
    assert [] + A == A && [] + [A] == [A];
    assert After(naming, "", 1, files, []) == Start(files) by { AfterStart(naming, 1, files); }
    OutputsGrow(naming, "", [], e);
    PendingNone(naming, a);
    PendingGrows(naming, "", [], e, a);
    GoesOnMore(naming, "", [], e);
    forall k | k != a ensures Pending(naming, "", [] + [e], k) == None {
      PendingNone(naming, k);
      PendingGrows(naming, "", [], e, k);
    }
  }

  lemma PendingNone(naming: Naming, key: Key)
    ensures Pending(naming, "", [], key) == None && Outputs(naming, "", []) == map[]
  {}

  lemma SharedSecond(naming: Naming, scope: Scope, files: map<string, Bytes>, a: Key, b: Key, events: seq<Event>,
                     e: Event)
    requires e == ChunkEvent("", b, 0, B) && WellNamed(naming, scope) && b in scope.keys && a != b
    requires Temporary(naming, a) == Temporary(naming, b)
    requires After(naming, "", 1, files, events)
          == Consumer(map[a := Assembly(1, [])], 0, files[Temporary(naming, a) := A], 0)
    requires GoesOn(naming, "", events) && Pending(naming, "", events, a) == Some([A])
    requires Pending(naming, "", events, b) == None
    ensures var c := After(naming, "", 1, files, events + [e]);
            c.chunks == map[a := Assembly(1, []), b := Assembly(1, [])] && c.buffered == 0
            && c.files == files[Temporary(naming, a) := A + B]
    ensures GoesOn(naming, "", events + [e]) && Pending(naming, "", events + [e], a) == Some([A])
    ensures InScope(naming, "", scope, e)
  {
    hide After, Outputs, Pending, Temporary;
    AfterGrows(naming, "", 1, files, events, e);
    PendingGrows(naming, "", events, e, a);
    GoesOnMore(naming, "", events, e);
    assert [] + B == B;
  }

  lemma SharedThird(naming: Naming, scope: Scope, files: map<string, Bytes>, a: Key, events: seq<Event>, e: Event)
    requires e == CompleteEvent("", a, 1) && Lawful(naming) && WellNamed(naming, scope) && a in scope.keys
    requires a in After(naming, "", 1, files, events).chunks
    requires After(naming, "", 1, files, events).chunks[a] == Assembly(1, [])
    requires GoesOn(naming, "", events) && Pending(naming, "", events, a) == Some([A])
    ensures Stored(After(naming, "", 1, files, events + [e]).files, a.filename)
            == Stored(After(naming, "", 1, files, events).files, Temporary(naming, a))
    ensures GoesOn(naming, "", events + [e])
    ensures a.filename in Outputs(naming, "", events + [e]) && Outputs(naming, "", events + [e])[a.filename] == A
    ensures InScope(naming, "", scope, e)
  {
    hide After, Outputs, Pending, Temporary, Lawful;
    AfterGrows(naming, "", 1, files, events, e);
    OutputsGrow(naming, "", events, e);
    GoesOnMore(naming, "", events, e);
    JoinOne(A);
  }

  /** A file of the older kind takes the temporary file of a connection away. */
  lemma LegacyIsWrong(naming: Naming, scope: Scope, files: map<string, Bytes>, a: Key, l: string)
    requires Lawful(naming) && WellNamed(naming, scope) && a in scope.keys && l in scope.legacy
    requires Temporary(naming, a) == LegacyTemporary(l) && Clean(naming, scope, files)
    ensures !AlwaysRight(naming, scope, files)
  {
    hide Verdict, GoesOn, After, Outputs, Pending, Shows, Lawful, AllInScope, Clean;
    var e1, e2, e3 := ChunkEvent("", a, 0, A), LogEvent("", l, B), CompleteEvent("", a, 1);
    FirstChunk(naming, scope, files, a, e1);
    LegacySecond(naming, scope, files, a, l, [] + [e1], e2);
    SharedThird(naming, scope, files, a, [] + [e1] + [e2], e3);
    var events := [] + [e1] + [e2] + [e3];
    assert events == [e1, e2, e3];
    InScopes(naming, scope, events);
    PlainKey(naming, scope, a);
    NotShown(After(naming, "", 1, files, events).files, files, Outputs(naming, "", events), a.filename, A);
    RightShows(naming, scope, "", 1, files, events);
  }

  lemma LegacySecond(naming: Naming, scope: Scope, files: map<string, Bytes>, a: Key, l: string, events: seq<Event>,
                     e: Event)
    requires e == LogEvent("", l, B) && Lawful(naming) && WellNamed(naming, scope) && l in scope.legacy
    requires Temporary(naming, a) == LegacyTemporary(l)
    requires After(naming, "", 1, files, events)
          == Consumer(map[a := Assembly(1, [])], 0, files[Temporary(naming, a) := A], 0)
    requires GoesOn(naming, "", events) && Pending(naming, "", events, a) == Some([A])
    ensures var c := After(naming, "", 1, files, events + [e]);
            c.chunks == map[a := Assembly(1, [])] && Stored(c.files, Temporary(naming, a)) == []
    ensures GoesOn(naming, "", events + [e]) && Pending(naming, "", events + [e], a) == Some([A])
    ensures InScope(naming, "", scope, e)
  {
    hide After, Outputs, Pending, Temporary, LegacyTemporary;
    AfterGrows(naming, "", 1, files, events, e);
    PendingGrows(naming, "", events, e, a);
    GoesOnMore(naming, "", events, e);
    TemporaryIsHidden(naming, a, l);
  }

  /** A connection whose temporary file holds something at the start gets that too. */
  lemma LeftoverIsWrong(naming: Naming, scope: Scope, files: map<string, Bytes>, a: Key)
    requires Lawful(naming) && WellNamed(naming, scope) && a in scope.keys && Stored(files, Temporary(naming, a)) != []
    ensures !AlwaysRight(naming, scope, files)
  {
    hide Verdict, GoesOn, After, Outputs, Shows, Lawful, AllInScope, Temporary;
    var e := CompleteEvent("", a, 0);
    LeftoverGoesIn(naming, scope, 1, files, a);
    var events := [] + [e];
    NothingEnds(naming, "", []);
    GoesOnMore(naming, "", [], e);
    assert naming.safeName(a.filename) == a.filename;
    InScopes(naming, scope, events);
    PlainKey(naming, scope, a);
    NotShown(After(naming, "", 1, files, events).files, files, Outputs(naming, "", events), a.filename, []);
    RightShows(naming, scope, "", 1, files, events);
  }

  /** From any starting files: the reconstruction is right for every sequence of events about some connections if and
      only if the names of their temporary files are different from one another and from those of the files of the older
      kind, and none of their own temporary files holds anything at the start. Leftovers that are empty, and those of
      the older kind, do no harm. */
  lemma RightIffSeparate(naming: Naming, scope: Scope, files: map<string, Bytes>)
    requires Lawful(naming) && WellNamed(naming, scope)
    ensures AlwaysRight(naming, scope, files) <==> Separate(naming, scope) && Clean(naming, scope, files)
  {
    hide Lawful, AlwaysRight, WellNamed, Temporary, LegacyTemporary, Stored;
    if !Clean(naming, scope, files) {
      var a :| a in scope.keys && Stored(files, Temporary(naming, a)) != [];
      LeftoverIsWrong(naming, scope, files, a);
    } else if Separate(naming, scope) {
      SeparateIsRight(naming, scope, files);
    } else if a, b :| a in scope.keys && b in scope.keys && a != b && Temporary(naming, a) == Temporary(naming, b) {
      SharedIsWrong(naming, scope, files, a, b);
    } else {
      var a, l :| a in scope.keys && l in scope.legacy && Temporary(naming, a) == LegacyTemporary(l);
      LegacyIsWrong(naming, scope, files, a, l);
    }
  }

  /** A temporary file that an earlier run has left goes into the next log of its connection. */
  lemma LeftoverGoesIn(naming: Naming, scope: Scope, limit: int, files: map<string, Bytes>, a: Key)
    requires Lawful(naming) && WellNamed(naming, scope) && a in scope.keys && Temporary(naming, a) in files
    ensures var e := CompleteEvent("", a, 0);
            && Verdict(naming, "", [], e).None?
            && Outputs(naming, "", [] + [e]) == map[a.filename := []]
            && Stored(After(naming, "", limit, files, [] + [e]).files, a.filename) == files[Temporary(naming, a)]
  {
    hide After, Outputs, Pending, Temporary, Lawful;
    var e := CompleteEvent("", a, 0);
    PendingNone(naming, a);
    OutputsGrow(naming, "", [], e);
    AfterGrows(naming, "", limit, files, [], e);
    assert After(naming, "", limit, files, []) == Start(files) by { AfterStart(naming, limit, files); }
    assert Join([]) == [];
  }

  lemma AfterStart(naming: Naming, limit: int, files: map<string, Bytes>)
    ensures After(naming, "", limit, files, []) == Start(files)
  {}

  // ---- When names are separate --------------------------------------------------------------------------------

  /** Numbers are rendered without dots, and differently when they differ. */
  ghost predicate RendersNumbers(naming: Naming) {
    && (forall n: int :: '.' !in naming.render(Number(n)))
    && forall n: int, m: int :: naming.render(Number(n)) == naming.render(Number(m)) ==> n == m
  }

  lemma DotsApart(a: string, x: string, b: string, y: string)
    requires '.' !in x && |a| < |b|
    ensures a + "." + x != b + "." + y
  {
    var s, t := a + "." + x, b + "." + y;
    assert t[|b|] == '.';
    if |b| < |s| {
      assert s[|b|] == x[|b| - |a| - 1] && x[|b| - |a| - 1] in x;
    }
  }

  lemma LastDot(a: string, x: string, b: string, y: string)
    requires '.' !in x && '.' !in y && a + "." + x == b + "." + y
    ensures a == b && x == y
  {
    var s := a + "." + x;
    if |a| < |b| {
      DotsApart(a, x, b, y);
    } else if |b| < |a| {
      DotsApart(b, y, a, x);
    } else {
      assert a == s[..|a|] == b && x == s[|a| + 1..] == y;
    }
  }

  /** The connections that the publisher sends, whose identities are numbers, never share a temporary file. */
  lemma NumbersAreSeparate(naming: Naming, scope: Scope)
    requires RendersNumbers(naming) && scope.legacy == {}
    requires forall key | key in scope.keys :: key.traceId.Number?
    ensures Separate(naming, scope)
  {
    forall a, b | a in scope.keys && b in scope.keys && a != b ensures Temporary(naming, a) != Temporary(naming, b) {
      NumberedTemporaries(naming, a, b);
    }
  }

  lemma NumberedTemporaries(naming: Naming, a: Key, b: Key)
    requires RendersNumbers(naming) && a.traceId.Number? && b.traceId.Number?
    ensures Temporary(naming, a) == Temporary(naming, b) ==> a == b
  {
    var x, y := naming.render(Number(a.traceId.n)), naming.render(Number(b.traceId.n));
    assert '.' !in x && '.' !in y;
    if Temporary(naming, a) == Temporary(naming, b) {
      DropSuffix("." + a.filename + "." + x, "." + b.filename + "." + y, ".tmp");
      LastDot("." + a.filename, x, "." + b.filename, y);
      DropPrefix(".", a.filename, b.filename);
    }
  }

  lemma DropSuffix(a: string, b: string, suffix: string)
    requires a + suffix == b + suffix
    ensures a == b
  {
    assert |a| == |b|;
    assert a == (a + suffix)[..|a|] && b == (b + suffix)[..|b|];
  }

  lemma DropPrefix(prefix: string, a: string, b: string)
    requires prefix + a == prefix + b
    ensures a == b
  {
    assert a == (prefix + a)[|prefix|..] && b == (prefix + b)[|prefix|..];
  }

  /** A connection with the name `a` and the number 1 shares its file with an older file of the name `a.1`. */
  lemma OldFilesCanClash(naming: Naming, scope: Scope)
    requires naming.render(Number(1)) == "1"
    requires Key(Number(1), "a") in scope.keys && "a.1" in scope.legacy
    ensures !Separate(naming, scope)
  {
    assert "." + "a" + "." + "1" + ".tmp" == "." + "a.1" + ".tmp";
  }

  // ---- Interleaved connections --------------------------------------------------------------------------------

  function KeyOf(naming: Naming, captureId: string, e: Event): Option<Key> {
    var chunk := ChunkKey(naming, captureId, e);
    if chunk.Some? then chunk else CompleteKey(naming, captureId, e)
  }

  /** The events about one connection. */
  function Only(naming: Naming, captureId: string, events: seq<Event>, key: Key): seq<Event> {
    if events == [] then []
    else
      var last := |events| - 1;
      Only(naming, captureId, events[..last], key)
      + if KeyOf(naming, captureId, events[last]) == Some(key) then [events[last]] else []
  }

  /** A log that is published: its trace, its name, and the pieces of its content. */
  datatype Log = Log(trace: int, filename: string, chunks: seq<Bytes>)

  function EventsOf(captureId: string, log: Log): seq<Event> {
    ConnectionEvents(captureId, log.trace, log.filename, log.chunks)
  }

  function LogKey(naming: Naming, log: Log): Key { Key(Number(log.trace), naming.safeName(log.filename)) }

  /** Each event is about one of the logs, and the events about each log are those of its publication, in their order;
      how the logs alternate is left open. */
  ghost predicate Interleaves(naming: Naming, captureId: string, logs: map<Key, Log>, events: seq<Event>) {
    && (forall key | key in logs :: LogKey(naming, logs[key]) == key)
    && (forall e | e in events ::
          KeyOf(naming, captureId, e).Some? && KeyOf(naming, captureId, e).value in logs)
    && (forall key | key in logs :: Only(naming, captureId, events, key) <= EventsOf(captureId, logs[key]))
  }

  lemma {:induction false} ChunkEventsAt(captureId: string, trace: int, filename: string, chunks: seq<Bytes>, i: nat)
    requires i < |chunks|
    ensures |ChunkEvents(captureId, trace, filename, chunks)| == |chunks|
    ensures ChunkEvents(captureId, trace, filename, chunks)[i]
         == Event(SCHEMA_VERSION, captureId, ConnectionLogChunk(Number(trace), filename, Some(i), Some(chunks[i])))
  {
    var last := |chunks| - 1;
    if i < last {
      ChunkEventsAt(captureId, trace, filename, chunks[..last], i);
    } else if last > 0 {
      ChunkEventsAt(captureId, trace, filename, chunks[..last], 0);
    }
  }

  lemma EventsAt(captureId: string, log: Log, i: nat)
    requires i <= |log.chunks|
    ensures var events := EventsOf(captureId, log);
            && |events| == |log.chunks| + 1
            && events[i] == Event(SCHEMA_VERSION, captureId,
                                  if i < |log.chunks|
                                  then ConnectionLogChunk(Number(log.trace), log.filename, Some(i), Some(log.chunks[i]))
                                  else ConnectionLogComplete(Number(log.trace), log.filename, Some(|log.chunks|)))
  {
    if |log.chunks| > 0 {
      ChunkEventsAt(captureId, log.trace, log.filename, log.chunks, if i < |log.chunks| then i else 0);
    }
  }

  /** When `m` events of a log have come: its chunks so far are pending, unless none has come or all have. */
  ghost predicate Progressed(naming: Naming, captureId: string, log: Log, events: seq<Event>, key: Key) {
    var m := |Only(naming, captureId, events, key)|;
    && m <= |log.chunks| + 1
    && PendingList(Pending(naming, captureId, events, key)) == (if m <= |log.chunks| then log.chunks[..m] else [])
    && (Pending(naming, captureId, events, key).Some? <==> 0 < m <= |log.chunks|)
  }

  lemma OnlyGrows(naming: Naming, captureId: string, events: seq<Event>, e: Event, key: Key)
    ensures Only(naming, captureId, events + [e], key)
         == Only(naming, captureId, events, key) + if KeyOf(naming, captureId, e) == Some(key) then [e] else []
  {
    assert (events + [e])[..|events|] == events;
  }

  /** The next event of a log is the one that is due. */
  lemma ProgressGrows(naming: Naming, captureId: string, log: Log, events: seq<Event>, e: Event, key: Key)
    requires Progressed(naming, captureId, log, events, key) && LogKey(naming, log) == key
    requires Only(naming, captureId, events + [e], key) <= EventsOf(captureId, log)
    ensures Progressed(naming, captureId, log, events + [e], key)
    ensures KeyOf(naming, captureId, e) == Some(key) ==> Verdict(naming, captureId, events, e).None?
    ensures KeyOf(naming, captureId, e) == Some(key) ==>
              e == EventsOf(captureId, log)[|Only(naming, captureId, events, key)|]
  {
    hide Pending, Only;
    OnlyGrows(naming, captureId, events, e, key);
    PendingGrows(naming, captureId, events, e, key);
    var before := Only(naming, captureId, events, key);
    if KeyOf(naming, captureId, e) == Some(key) {
      var m := |before|;
      EventsAt(captureId, log, 0);
      assert (before + [e])[m] == e;
      assert m <= |log.chunks|;
      EventsAt(captureId, log, m);
      if m < |log.chunks| {
        assert log.chunks[..m + 1] == log.chunks[..m] + [log.chunks[m]];
      } else {
        assert log.chunks[..m] == log.chunks;
      }
    } else {
      assert before + [] == before;
    }
  }

  /** A log has its file among the outputs once its last event has come. */
  ghost predicate Restored(naming: Naming, captureId: string, log: Log, events: seq<Event>, key: Key) {
    var outputs := Outputs(naming, captureId, events);
    if |Only(naming, captureId, events, key)| == |log.chunks| + 1 then
      key.filename in outputs && outputs[key.filename] == Join(log.chunks)
    else key.filename !in outputs
  }

  lemma InterleavesFront(naming: Naming, captureId: string, logs: map<Key, Log>, events: seq<Event>, e: Event)
    requires Interleaves(naming, captureId, logs, events + [e])
    ensures Interleaves(naming, captureId, logs, events)
    ensures KeyOf(naming, captureId, e).Some? && KeyOf(naming, captureId, e).value in logs
  {
    hide KeyOf, EventsOf;
    assert e in events + [e] && forall x | x in events :: x in events + [e];
    forall key | key in logs ensures Only(naming, captureId, events, key) <= EventsOf(captureId, logs[key]) {
      OnlyGrows(naming, captureId, events, e, key);
    }
  }

  lemma RestoredGrows(naming: Naming, captureId: string, log: Log, events: seq<Event>, e: Event, key: Key, own: Key)
    requires Progressed(naming, captureId, log, events, key) && LogKey(naming, log) == key
    requires Restored(naming, captureId, log, events, key)
    requires Only(naming, captureId, events + [e], key) <= EventsOf(captureId, log)
    requires KeyOf(naming, captureId, e) == Some(own) && (own != key ==> own.filename != key.filename)
    ensures Restored(naming, captureId, log, events + [e], key)
  {
    hide Outputs, Pending, Only, EventsOf;
    OnlyGrows(naming, captureId, events, e, key);
    OutputsGrow(naming, captureId, events, e);
    var m := |Only(naming, captureId, events, key)|;
    if own == key {
      ProgressGrows(naming, captureId, log, events, e, key);
      EventsAt(captureId, log, m);
      assert log.chunks[..|log.chunks|] == log.chunks;
    }
  }

  lemma {:induction false} InterleavingProgress(naming: Naming, captureId: string, logs: map<Key, Log>,
                                                events: seq<Event>)
    requires Interleaves(naming, captureId, logs, events)
    requires forall a, b | a in logs && b in logs && a != b :: a.filename != b.filename
    ensures GoesOn(naming, captureId, events)
    ensures forall key | key in logs ::
              && Progressed(naming, captureId, logs[key], events, key)
              && Restored(naming, captureId, logs[key], events, key)
    decreases |events|
  {
    if events == [] {
      InterleavingStart(naming, captureId, logs);
    } else {
      hide Interleaves, GoesOn, Progressed, Restored, KeyOf;
      var last := |events| - 1;
      var front, e := events[..last], events[last];
      assert events == front + [e];
      InterleavesFront(naming, captureId, logs, front, e);
      InterleavingProgress(naming, captureId, logs, front);
      var own := KeyOf(naming, captureId, e).value;
      forall key | key in logs
        ensures Progressed(naming, captureId, logs[key], events, key)
                && Restored(naming, captureId, logs[key], events, key)
                && (key == own ==> Verdict(naming, captureId, front, e).None?)
      {
        InterleavedOnly(naming, captureId, logs, events, key);
        ProgressGrows(naming, captureId, logs[key], front, e, key);
        RestoredGrows(naming, captureId, logs[key], front, e, key, own);
      }
      GoesOnMore(naming, captureId, front, e);
    }
  }

  lemma InterleavedOnly(naming: Naming, captureId: string, logs: map<Key, Log>, events: seq<Event>, key: Key)
    requires Interleaves(naming, captureId, logs, events) && key in logs
    ensures Only(naming, captureId, events, key) <= EventsOf(captureId, logs[key]) && LogKey(naming, logs[key]) == key
  {}

  lemma InterleavingStart(naming: Naming, captureId: string, logs: map<Key, Log>)
    ensures GoesOn(naming, captureId, [])
    ensures forall key | key in logs ::
              Progressed(naming, captureId, logs[key], [], key) && Restored(naming, captureId, logs[key], [], key)
  {
    forall key | key in logs
      ensures Progressed(naming, captureId, logs[key], [], key) && Restored(naming, captureId, logs[key], [], key)
    {
      var log := logs[key];
      assert log.chunks[..0] == [];
    }
  }

  /** All events of all logs have come. */
  ghost predicate AllCame(naming: Naming, captureId: string, logs: map<Key, Log>, events: seq<Event>) {
    forall key | key in logs :: Only(naming, captureId, events, key) == EventsOf(captureId, logs[key])
  }

  /** However the publications of several logs are interleaved, the consumer restores the content of each: no event is
      turned down, the directory ends up with every log, and the capture can be completed. */
  lemma InterleavingRestores(naming: Naming, captureId: string, logs: map<Key, Log>, contents: map<Key, Bytes>,
                             size: nat, limit: int, files: map<string, Bytes>, events: seq<Event>)
    requires Lawful(naming) && RendersNumbers(naming) && size > 0 && limit >= 1
    requires Interleaves(naming, captureId, logs, events) && AllCame(naming, captureId, logs, events)
    requires forall a, b | a in logs && b in logs && a != b :: a.filename != b.filename
    requires forall key | key in logs :: key in contents && logs[key].chunks == Chunks(contents[key], size)
    requires Clean(naming, Scope(logs.Keys, {}), files)
    ensures GoesOn(naming, captureId, events)
    ensures var end := After(naming, captureId, limit, files, events);
            && (forall key | key in logs ::
                  key.filename in end.files && end.files[key.filename] == contents[key])
            && Handled(naming, captureId, limit, end, Event(SCHEMA_VERSION, captureId, CaptureComplete)).1
               == Some(Completed(end.received))
  {
    hide Lawful, Interleaves, AllCame, GoesOn, Progressed, Restored, After, Outputs, Clean, Separate;
    var scope := Scope(logs.Keys, {});
    var end := After(naming, captureId, limit, files, events);
    InterleavingProgress(naming, captureId, logs, events);
    LogsAreNumbers(naming, captureId, logs, events);
    NumbersAreSeparate(naming, scope);
    LogsInScope(naming, captureId, logs, events);
    AfterRefines(naming, captureId, scope, limit, files, events);
    forall key | key in logs ensures key.filename in end.files && end.files[key.filename] == contents[key] {
      ChunksJoin(contents[key], size);
      LogIsShown(naming, captureId, logs, files, events, end, key);
    }
    NoneLeft(naming, captureId, logs, files, events, end);
  }

  lemma LogsAreNumbers(naming: Naming, captureId: string, logs: map<Key, Log>, events: seq<Event>)
    requires Interleaves(naming, captureId, logs, events)
    ensures forall key | key in logs :: key.traceId.Number?
  {
    forall key | key in logs ensures key.traceId.Number? {
      assert LogKey(naming, logs[key]) == key;
    }
  }

  lemma LogsInScope(naming: Naming, captureId: string, logs: map<Key, Log>, events: seq<Event>)
    requires Interleaves(naming, captureId, logs, events)
    ensures AllInScope(naming, captureId, Scope(logs.Keys, {}), events)
  {
    forall e | e in events ensures InScope(naming, captureId, Scope(logs.Keys, {}), e) {
      assert KeyOf(naming, captureId, e).Some? && KeyOf(naming, captureId, e).value in logs;
    }
  }

  lemma LogIsShown(naming: Naming, captureId: string, logs: map<Key, Log>, files: map<string, Bytes>,
                   events: seq<Event>, end: Consumer, key: Key)
    requires Lawful(naming) && key in logs && Interleaves(naming, captureId, logs, events)
    requires AllCame(naming, captureId, logs, events) && Restored(naming, captureId, logs[key], events, key)
    requires Refines(naming, captureId, Scope(logs.Keys, {}), files, events, end)
    ensures key.filename in end.files && end.files[key.filename] == Join(logs[key].chunks)
  {
    hide Outputs, Only, Pending, Received;
    InterleavedOnly(naming, captureId, logs, events, key);
    EventsAt(captureId, logs[key], 0);
    assert Only(naming, captureId, events, key) == EventsOf(captureId, logs[key]);
    assert IsPlain(naming.safeName(logs[key].filename));
    var outputs := Outputs(naming, captureId, events);
    assert key.filename in files + outputs && (files + outputs)[key.filename] == outputs[key.filename];
    assert Stored(end.files, key.filename) == Stored(files + outputs, key.filename);
  }

  /** When all events have come, no connection is unfinished. */
  lemma NoneLeft(naming: Naming, captureId: string, logs: map<Key, Log>, files: map<string, Bytes>,
                 events: seq<Event>, end: Consumer)
    requires Interleaves(naming, captureId, logs, events) && AllCame(naming, captureId, logs, events)
    requires forall key | key in logs :: Progressed(naming, captureId, logs[key], events, key)
    requires Refines(naming, captureId, Scope(logs.Keys, {}), files, events, end)
    ensures end.chunks == map[]
  {
    hide Outputs, Only, Pending, Received, Shows, Interleaves;
    forall key | key in logs ensures key !in end.chunks {
      EventsAt(captureId, logs[key], 0);
      assert Only(naming, captureId, events, key) == EventsOf(captureId, logs[key]);
      assert Assembled(naming, Pending(naming, captureId, events, key), end, key) by {
        assert key in Scope(logs.Keys, {}).keys;
      }
    }
    assert forall key | key in end.chunks :: key in logs.Keys;
  }
}
