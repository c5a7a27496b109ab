/** The consumer of capture events: it assembles the chunks of interleaved connections in buffers that share a limit,
    and in temporary files. */
module Capture {
  import opened Options
  import opened Sequences
  import opened CaptureEvents
  import opened CaptureReference

  datatype Assembly = Assembly(next: nat, buffer: Bytes)

  /** `files` is the output directory with its temporary files. */
  datatype Consumer = Consumer(chunks: map<Key, Assembly>, buffered: int, files: map<string, Bytes>, received: nat)

  function Temporary(naming: Naming, key: Key): string {
    "." + key.filename + "." + naming.render(key.traceId) + ".tmp"
  }

  function LegacyTemporary(filename: string): string { "." + filename + ".tmp" }

  function Stored(files: map<string, Bytes>, name: string): Bytes { if name in files then files[name] else [] }

  /** Appends the buffer to its temporary file, in one write, unless it is empty. */
  function Flushed(files: map<string, Bytes>, name: string, buffer: Bytes): map<string, Bytes> {
    if buffer == [] then files else files[name := Stored(files, name) + buffer]
  }

  function AfterLog(naming: Naming, c: Consumer, filename: string, payload: Bytes): Consumer {
    var safe := naming.safeName(filename);
    var written := c.files[LegacyTemporary(safe) := payload];
    c.(files := (written - {LegacyTemporary(safe)})[safe := payload], received := c.received + 1)
  }

  function AfterChunk(naming: Naming, limit: int, c: Consumer, key: Key, payload: Bytes): Consumer {
    var state := if key in c.chunks then c.chunks[key] else Assembly(0, []);
    var buffer, buffered := state.buffer + payload, c.buffered + |payload|;
    if buffered >= limit then
      c.(chunks := c.chunks[key := Assembly(state.next + 1, [])], buffered := buffered - |buffer|,
         files := Flushed(c.files, Temporary(naming, key), buffer))
    else c.(chunks := c.chunks[key := Assembly(state.next + 1, buffer)], buffered := buffered)
  }

  function AfterComplete(naming: Naming, c: Consumer, key: Key): Consumer {
    var state := if key in c.chunks then c.chunks[key] else Assembly(0, []);
    var temporary := Temporary(naming, key);
    var flushed := Flushed(c.files, temporary, state.buffer);
    Consumer(c.chunks - {key}, c.buffered - |state.buffer|,
             (flushed - {temporary})[key.filename := Stored(flushed, temporary)], c.received + 1)
  }

  /** One event: how the consumer goes on, or how the capture ends. */
  function Handled(naming: Naming, captureId: string, limit: int, c: Consumer, e: Event): (Consumer, Option<Ending>) {
    if e.schemaVersion != SCHEMA_VERSION then (c, Some(Failed(UnsupportedSchema)))
    else if e.captureId != captureId then (c, None)
    else
      match e.body
      case ConnectionLog(filename, payload) =>
        if payload.None? then (c, Some(Failed(BadPayload))) else (AfterLog(naming, c, filename, payload.value), None)
      case ConnectionLogChunk(traceId, filename, chunkIndex, payload) =>
        var key := Key(traceId, naming.safeName(filename));
        var next := if key in c.chunks then c.chunks[key].next else 0;
        if chunkIndex != Some(next) then (c, Some(Failed(OutOfOrder)))
        else if payload.None? then (c, Some(Failed(BadPayload)))
        else (AfterChunk(naming, limit, c, key, payload.value), None)
      case ConnectionLogComplete(traceId, filename, chunkCount) =>
        var key := Key(traceId, naming.safeName(filename));
        var next := if key in c.chunks then c.chunks[key].next else 0;
        if chunkCount != Some(next) then (c, Some(Failed(Incomplete)))
        else (AfterComplete(naming, c, key), None)
      case CaptureComplete =>
        if c.chunks != map[] then (c, Some(Failed(Unfinished))) else (c, Some(Completed(c.received)))
      case CaptureStartTimeout => (c, Some(StartTimeout))
      case CaptureFailed => (c, Some(Failed(ReportedFailure)))
      case Unsupported => (c, Some(Failed(UnsupportedType)))
  }

  function Start(files: map<string, Bytes>): Consumer { Consumer(map[], 0, files, 0) }

  /** The consumer after events that have not ended the capture. */
  function After(naming: Naming, captureId: string, limit: int, files: map<string, Bytes>, events: seq<Event>):
    Consumer
  {
    if events == [] then Start(files)
    else
      var last := |events| - 1;
      Handled(naming, captureId, limit, After(naming, captureId, limit, files, events[..last]), events[last]).0
  }

  // ---- The shared memory bound --------------------------------------------------------------------------------

  function Total(chunks: map<Key, Assembly>, keys: seq<Key>): nat {
    if keys == [] then 0
    else
      var key := keys[|keys| - 1];
      Total(chunks, keys[..|keys| - 1]) + if key in chunks then |chunks[key].buffer| else 0
  }

  /** The counter is the sum of the live buffers, in whatever order they are listed, and below the limit. */
  ghost predicate Bounded(c: Consumer, limit: int) {
    && c.buffered < limit
    && forall keys: seq<Key> | NoRepeats(keys) && (forall key | key in c.chunks :: key in keys) ::
         c.buffered == Total(c.chunks, keys)
  }

  lemma {:induction false} TotalElsewhere(a: map<Key, Assembly>, b: map<Key, Assembly>, keys: seq<Key>)
    requires forall key | key in keys :: (key in a <==> key in b) && (key in a ==> a[key].buffer == b[key].buffer)
    ensures Total(a, keys) == Total(b, keys)
  {
    if keys != [] {
      assert keys[|keys| - 1] in keys;
      TotalElsewhere(a, b, keys[..|keys| - 1]);
    }
  }

  function Size(chunks: map<Key, Assembly>, key: Key): nat { if key in chunks then |chunks[key].buffer| else 0 }

  lemma {:induction false} TotalUpdate(a: map<Key, Assembly>, b: map<Key, Assembly>, keys: seq<Key>, key: Key)
    requires NoRepeats(keys) && key in keys
    requires forall k | k != key :: (k in a <==> k in b) && (k in a ==> a[k].buffer == b[k].buffer)
    ensures Total(b, keys) == Total(a, keys) - Size(a, key) + Size(b, key)
    ensures Total(a, keys) >= Size(a, key)
    decreases |keys|
  {
    var last := |keys| - 1;
    var front := keys[..last];
    if keys[last] == key {
      forall k | k in front ensures k != key {
        var i :| 0 <= i < |front| && front[i] == k;
        assert keys[i] != keys[last];
      }
      TotalElsewhere(a, b, front);
    } else {
      assert key in front;
      TotalUpdate(a, b, front, key);
    }
  }

  lemma StartBounded(files: map<string, Bytes>, limit: int)
    requires limit >= 1
    ensures Bounded(Start(files), limit)
  {
    forall keys: seq<Key> ensures Total(map[], keys) == 0 {
      TotalOfNone(keys);
    }
  }

  lemma {:induction false} TotalOfNone(keys: seq<Key>)
    ensures Total(map[], keys) == 0
  {
    if keys != [] {
      TotalOfNone(keys[..|keys| - 1]);
    }
  }

  lemma WithKey(keys: seq<Key>, key: Key) returns (more: seq<Key>)
    requires NoRepeats(keys)
    ensures NoRepeats(more) && key in more && more == if key in keys then keys else keys + [key]
  {
    more := if key in keys then keys else keys + [key];
  }

  lemma ChunkBounded(naming: Naming, limit: int, c: Consumer, key: Key, payload: Bytes)
    requires Bounded(c, limit)
    ensures Bounded(AfterChunk(naming, limit, c, key, payload), limit)
  {
    var c' := AfterChunk(naming, limit, c, key, payload);
    forall keys: seq<Key> | NoRepeats(keys) && (forall k | k in c'.chunks :: k in keys)
      ensures c'.buffered == Total(c'.chunks, keys)
    {
      assert key in keys;
      TotalUpdate(c.chunks, c'.chunks, keys, key);
    }
    KeyBuffer(c, limit, key);
  }

  /** One buffer is part of the sum. */
  lemma KeyBuffer(c: Consumer, limit: int, key: Key)
    requires Bounded(c, limit)
    ensures c.buffered >= Size(c.chunks, key)
  {
    var keys := ListKeys(c.chunks.Keys);
    var more := WithKey(keys, key);
    TotalUpdate(c.chunks, c.chunks, more, key);
  }

  lemma {:induction false} ListKeys(keys: set<Key>) returns (list: seq<Key>)
    ensures NoRepeats(list) && forall key :: key in list <==> key in keys
    decreases |keys|
  {
    if keys == {} {
      list := [];
    } else {
      var key :| key in keys;
      var rest := ListKeys(keys - {key});
      list := rest + [key];
    }
  }

  lemma CompleteBounded(naming: Naming, limit: int, c: Consumer, key: Key)
    requires Bounded(c, limit)
    ensures Bounded(AfterComplete(naming, c, key), limit)
  {
    var c' := AfterComplete(naming, c, key);
    forall keys: seq<Key> | NoRepeats(keys) && (forall k | k in c'.chunks :: k in keys)
      ensures c'.buffered == Total(c'.chunks, keys)
    {
      var more := WithKey(keys, key);
      TotalUpdate(c.chunks, c'.chunks, more, key);
      if key !in keys {
        TotalPlus(c'.chunks, keys, key, more);
      }
    }
  }

  lemma TotalPlus(chunks: map<Key, Assembly>, keys: seq<Key>, key: Key, more: seq<Key>)
    requires more == keys + [key] && key !in chunks
    ensures Total(chunks, more) == Total(chunks, keys)
  {
    assert more[..|keys|] == keys;
  }

  /** The counter equals the live buffers and stays below the limit after every event. */
  lemma HandledBounded(naming: Naming, captureId: string, limit: int, c: Consumer, e: Event)
    requires Bounded(c, limit)
    ensures Bounded(Handled(naming, captureId, limit, c, e).0, limit)
  {
    hide Bounded, AfterChunk, AfterComplete;
    if IsRelevant(captureId, e) {
      if e.body.ConnectionLogChunk? && e.body.payload.Some? {
        ChunkBounded(naming, limit, c, Key(e.body.traceId, naming.safeName(e.body.filename)), e.body.payload.value);
      } else if e.body.ConnectionLogComplete? {
        CompleteBounded(naming, limit, c, Key(e.body.traceId, naming.safeName(e.body.filename)));
      } else if e.body.ConnectionLog? && e.body.payload.Some? {
        LogBounded(naming, limit, c, e.body.filename, e.body.payload.value);
      }
    }
  }

  lemma LogBounded(naming: Naming, limit: int, c: Consumer, filename: string, payload: Bytes)
    requires Bounded(c, limit)
    ensures Bounded(AfterLog(naming, c, filename, payload), limit)
  {}

  // ---- The consumer against the reference ---------------------------------------------------------------------

  /** The connections and the files of the older kind that the events may be about. */
  datatype Scope = Scope(keys: set<Key>, legacy: set<string>)

  ghost predicate InScope(naming: Naming, captureId: string, scope: Scope, e: Event) {
    IsRelevant(captureId, e) ==>
      && (e.body.ConnectionLogChunk? || e.body.ConnectionLogComplete? ==>
            Key(e.body.traceId, naming.safeName(e.body.filename)) in scope.keys)
      && (e.body.ConnectionLog? ==> naming.safeName(e.body.filename) in scope.legacy)
  }

  ghost predicate AllInScope(naming: Naming, captureId: string, scope: Scope, events: seq<Event>) {
    forall e | e in events :: InScope(naming, captureId, scope, e)
  }

  /** No two connections share a temporary file, and none shares it with a file of the older kind. */
  ghost predicate Separate(naming: Naming, scope: Scope) {
    && (forall a, b | a in scope.keys && b in scope.keys && a != b :: Temporary(naming, a) != Temporary(naming, b))
    && forall a, l | a in scope.keys && l in scope.legacy :: Temporary(naming, a) != LegacyTemporary(l)
  }

  /** No temporary file of a connection with anything in it is left from an earlier run. */
  ghost predicate Clean(naming: Naming, scope: Scope, files: map<string, Bytes>) {
    forall key | key in scope.keys :: Stored(files, Temporary(naming, key)) == []
  }

  /** A connection in progress: its chunks are its temporary file and then its buffer; otherwise no file or an empty
      one is there. */
  ghost predicate Assembled(naming: Naming, pending: Option<seq<Bytes>>, c: Consumer, key: Key) {
    && (key in c.chunks <==> pending.Some?)
    && (match pending
        case None => Stored(c.files, Temporary(naming, key)) == []
        case Some(list) =>
          && c.chunks[key].next == |list|
          && Stored(c.files, Temporary(naming, key)) + c.chunks[key].buffer == Join(list))
  }

  /** Apart from temporary files, the directory holds what it held and what the events produced. */
  ghost predicate Shows(files: map<string, Bytes>, initial: map<string, Bytes>, outputs: map<string, Bytes>) {
    forall name | IsPlain(name) ::
      Stored(files, name) == Stored(initial + outputs, name) && (name in files <==> name in initial + outputs)
  }

  ghost predicate Refines(naming: Naming, captureId: string, scope: Scope, initial: map<string, Bytes>,
                          events: seq<Event>, c: Consumer)
  {
    && (forall key | key in scope.keys :: Assembled(naming, Pending(naming, captureId, events, key), c, key))
    && (forall key | key in c.chunks :: key in scope.keys)
    && Shows(c.files, initial, Outputs(naming, captureId, events))
    && c.received == Received(naming, captureId, events)
  }

  lemma StartRefines(naming: Naming, captureId: string, scope: Scope, initial: map<string, Bytes>)
    requires Clean(naming, scope, initial)
    ensures Refines(naming, captureId, scope, initial, [], Start(initial))
  {
    assert initial + map[] == initial;
  }

  /** A step that is about nothing in the scope. */
  lemma IdleRefines(naming: Naming, captureId: string, scope: Scope, initial: map<string, Bytes>, events: seq<Event>,
                    c: Consumer, e: Event)
    requires Refines(naming, captureId, scope, initial, events, c) && !IsRelevant(captureId, e)
    ensures Refines(naming, captureId, scope, initial, events + [e], c)
  {
    hide Assembled, Shows;
    OutputsGrow(naming, captureId, events, e);
    forall key | key in scope.keys
      ensures Assembled(naming, Pending(naming, captureId, events + [e], key), c, key)
    {
      PendingGrows(naming, captureId, events, e, key);
    }
  }

  lemma JoinMore(list: seq<Bytes>, payload: Bytes, stored: Bytes, buffer: Bytes)
    requires stored + buffer == Join(list)
    ensures stored + (buffer + payload) == Join(list + [payload])
    ensures stored + buffer + payload == Join(list + [payload])
  {
    JoinConcat(list, [payload]);
    JoinOne(payload);
    assert stored + (buffer + payload) == stored + buffer + payload;
  }

  lemma ChunkAssembled(naming: Naming, limit: int, c: Consumer, key: Key, payload: Bytes, pending: Option<seq<Bytes>>)
    requires Assembled(naming, pending, c, key)
    ensures Assembled(naming, Some(PendingList(pending) + [payload]), AfterChunk(naming, limit, c, key, payload), key)
  {
    var state := if key in c.chunks then c.chunks[key] else Assembly(0, []);
    var stored := Stored(c.files, Temporary(naming, key));
    assert stored + state.buffer == Join(PendingList(pending));
    JoinMore(PendingList(pending), payload, stored, state.buffer);
    var c' := AfterChunk(naming, limit, c, key, payload);
    var all := Join(PendingList(pending) + [payload]);
    assert all + [] == all;
  }

  /** What happens to one connection leaves another as it is. */
  lemma ElsewhereAssembled(naming: Naming, scope: Scope, c: Consumer, c': Consumer, key: Key, other: Key,
                           pending: Option<seq<Bytes>>)
    requires Assembled(naming, pending, c, other)
    requires other in c.chunks <==> other in c'.chunks
    requires other in c.chunks ==> c'.chunks[other] == c.chunks[other]
    requires Temporary(naming, other) in c.files <==> Temporary(naming, other) in c'.files
    requires Stored(c'.files, Temporary(naming, other)) == Stored(c.files, Temporary(naming, other))
    ensures Assembled(naming, pending, c', other)
  {}

  lemma TemporaryIsHidden(naming: Naming, key: Key, filename: string)
    ensures !IsPlain(Temporary(naming, key)) && !IsPlain(LegacyTemporary(filename))
  {}

  /** The chunk of `key` leaves other files alone. */
  lemma ChunkEffect(naming: Naming, limit: int, c: Consumer, key: Key, payload: Bytes)
    ensures var c' := AfterChunk(naming, limit, c, key, payload);
            && c'.received == c.received && c'.chunks.Keys == c.chunks.Keys + {key}
            && (forall k | k != key && k in c.chunks :: c'.chunks[k] == c.chunks[k])
            && (forall name | name != Temporary(naming, key) ::
                  (name in c'.files <==> name in c.files) && Stored(c'.files, name) == Stored(c.files, name))
  {}

  lemma ChunkRefines(naming: Naming, captureId: string, scope: Scope, limit: int, initial: map<string, Bytes>,
                     events: seq<Event>, c: Consumer, e: Event)
    requires Refines(naming, captureId, scope, initial, events, c) && Separate(naming, scope)
    requires IsRelevant(captureId, e) && e.body.ConnectionLogChunk? && e.body.payload.Some?
    requires InScope(naming, captureId, scope, e)
    ensures var key := Key(e.body.traceId, naming.safeName(e.body.filename));
            Refines(naming, captureId, scope, initial, events + [e],
                    AfterChunk(naming, limit, c, key, e.body.payload.value))
  {
    hide Assembled, AfterChunk, Temporary, Outputs, Pending;
    var key, payload := Key(e.body.traceId, naming.safeName(e.body.filename)), e.body.payload.value;
    var c' := AfterChunk(naming, limit, c, key, payload);
    OutputsGrow(naming, captureId, events, e);
    ChunkEffect(naming, limit, c, key, payload);
    TemporaryIsHidden(naming, key, "");
    forall other | other in scope.keys
      ensures Assembled(naming, Pending(naming, captureId, events + [e], other), c', other)
    {
      PendingGrows(naming, captureId, events, e, other);
      if other == key {
        ChunkAssembled(naming, limit, c, key, payload, Pending(naming, captureId, events, key));
      } else {
        ElsewhereAssembled(naming, scope, c, c', key, other, Pending(naming, captureId, events, other));
      }
    }
  }

  lemma CompleteEffect(naming: Naming, c: Consumer, key: Key, pending: Option<seq<Bytes>>)
    requires Assembled(naming, pending, c, key) && IsPlain(key.filename)
    ensures var c' := AfterComplete(naming, c, key);
            && Assembled(naming, None, c', key)
            && c'.received == c.received + 1 && c'.chunks == c.chunks - {key}
            && key.filename in c'.files && c'.files[key.filename] == Join(PendingList(pending))
            && forall name | name != Temporary(naming, key) && name != key.filename ::
                 (name in c'.files <==> name in c.files) && Stored(c'.files, name) == Stored(c.files, name)
  {
    TemporaryIsHidden(naming, key, "");
    hide Temporary;
    var all := Join(PendingList(pending));
    assert all + [] == all && Join([]) == [];
  }

  lemma CompleteRefines(naming: Naming, captureId: string, scope: Scope, initial: map<string, Bytes>,
                        events: seq<Event>, c: Consumer, e: Event)
    requires Lawful(naming) && Refines(naming, captureId, scope, initial, events, c) && Separate(naming, scope)
    requires IsRelevant(captureId, e) && e.body.ConnectionLogComplete? && InScope(naming, captureId, scope, e)
    ensures var key := Key(e.body.traceId, naming.safeName(e.body.filename));
            Refines(naming, captureId, scope, initial, events + [e], AfterComplete(naming, c, key))
  {
    hide Assembled, AfterComplete, Temporary, Outputs, Pending;
    var key := Key(e.body.traceId, naming.safeName(e.body.filename));
    var c' := AfterComplete(naming, c, key);
    OutputsGrow(naming, captureId, events, e);
    CompleteEffect(naming, c, key, Pending(naming, captureId, events, key));
    TemporaryIsHidden(naming, key, "");
    forall other | other in scope.keys
      ensures Assembled(naming, Pending(naming, captureId, events + [e], other), c', other)
    {
      PendingGrows(naming, captureId, events, e, other);
      TemporaryIsHidden(naming, other, "");
      if other != key {
        ElsewhereAssembled(naming, scope, c, c', key, other, Pending(naming, captureId, events, other));
      }
    }
    ShowsMore(c.files, c'.files, initial, Outputs(naming, captureId, events), key.filename,
              Join(PendingList(Pending(naming, captureId, events, key))));
  }

  /** A file that appears in the directory appears among the outputs. */
  lemma ShowsMore(files: map<string, Bytes>, files': map<string, Bytes>, initial: map<string, Bytes>,
                  outputs: map<string, Bytes>, name: string, content: Bytes)
    requires Shows(files, initial, outputs)
    requires name in files' && files'[name] == content
    requires forall other | other != name && IsPlain(other) ::
               (other in files' <==> other in files) && Stored(files', other) == Stored(files, other)
    ensures Shows(files', initial, outputs[name := content])
  {}

  lemma LogRefines(naming: Naming, captureId: string, scope: Scope, initial: map<string, Bytes>,
                   events: seq<Event>, c: Consumer, e: Event)
    requires Lawful(naming) && Refines(naming, captureId, scope, initial, events, c) && Separate(naming, scope)
    requires IsRelevant(captureId, e) && e.body.ConnectionLog? && e.body.payload.Some?
    requires InScope(naming, captureId, scope, e)
    ensures Refines(naming, captureId, scope, initial, events + [e],
                    AfterLog(naming, c, e.body.filename, e.body.payload.value))
  {
    hide Assembled, Temporary, LegacyTemporary, Outputs, Pending;
    var safe := naming.safeName(e.body.filename);
    var c' := AfterLog(naming, c, e.body.filename, e.body.payload.value);
    OutputsGrow(naming, captureId, events, e);
    forall other | other in scope.keys
      ensures Assembled(naming, Pending(naming, captureId, events + [e], other), c', other)
    {
      PendingGrows(naming, captureId, events, e, other);
      TemporaryIsHidden(naming, other, safe);
      ElsewhereAssembled(naming, scope, c, c', other, other, Pending(naming, captureId, events, other));
    }
    TemporaryIsHidden(naming, Key(Missing, ""), safe);
    ShowsMore(c.files, c'.files, initial, Outputs(naming, captureId, events), safe, e.body.payload.value);
  }

  /** The consumer ends the capture exactly when the reference does, in the same way, and otherwise keeps in step. */
  lemma HandledRefines(naming: Naming, captureId: string, scope: Scope, limit: int, initial: map<string, Bytes>,
                       events: seq<Event>, c: Consumer, e: Event)
    requires Lawful(naming) && Refines(naming, captureId, scope, initial, events, c) && Separate(naming, scope)
    requires InScope(naming, captureId, scope, e) && AllInScope(naming, captureId, scope, events)
    ensures var (c', ending) := Handled(naming, captureId, limit, c, e);
            && ending == Verdict(naming, captureId, events, e)
            && (ending.None? ==> Refines(naming, captureId, scope, initial, events + [e], c'))
            && (ending.Some? ==> c' == c)
  {
    hide Separate, Shows, Outputs, Pending, AfterChunk, AfterComplete, AfterLog, Received, HasUnfinished, Lawful;
    if !IsRelevant(captureId, e) {
      if e.schemaVersion == SCHEMA_VERSION {
        IdleRefines(naming, captureId, scope, initial, events, c, e);
      }
    } else {
      match e.body
      case ConnectionLog(_, payload) =>
        if payload.Some? {
          LogRefines(naming, captureId, scope, initial, events, c, e);
        }
      case ConnectionLogChunk(traceId, filename, chunkIndex, payload) =>
        NextIsPending(naming, captureId, scope, initial, events, c, Key(traceId, naming.safeName(filename)));
        if payload.Some? {
          ChunkRefines(naming, captureId, scope, limit, initial, events, c, e);
        }
      case ConnectionLogComplete(traceId, filename, chunkCount) =>
        NextIsPending(naming, captureId, scope, initial, events, c, Key(traceId, naming.safeName(filename)));
        CompleteRefines(naming, captureId, scope, initial, events, c, e);
      case CaptureComplete => NonePending(naming, captureId, scope, initial, events, c);
      case _ =>
    }
  }

  lemma NextIsPending(naming: Naming, captureId: string, scope: Scope, initial: map<string, Bytes>,
                      events: seq<Event>, c: Consumer, key: Key)
    requires Refines(naming, captureId, scope, initial, events, c) && key in scope.keys
    ensures (if key in c.chunks then c.chunks[key].next else 0)
         == |PendingList(Pending(naming, captureId, events, key))|
  {
    assert Assembled(naming, Pending(naming, captureId, events, key), c, key);
  }

  lemma NonePending(naming: Naming, captureId: string, scope: Scope, initial: map<string, Bytes>,
                    events: seq<Event>, c: Consumer)
    requires Refines(naming, captureId, scope, initial, events, c) && AllInScope(naming, captureId, scope, events)
    ensures c.chunks != map[] <==> HasUnfinished(naming, captureId, events)
  {
    hide Pending, Shows, Outputs, Received;
    if c.chunks != map[] {
      var key :| key in c.chunks;
      assert Assembled(naming, Pending(naming, captureId, events, key), c, key);
    }
    if HasUnfinished(naming, captureId, events) {
      var key :| Pending(naming, captureId, events, key).Some?;
      PendingInScope(naming, captureId, scope, events, key);
      assert Assembled(naming, Pending(naming, captureId, events, key), c, key);
    }
  }

  lemma {:induction false} PendingInScope(naming: Naming, captureId: string, scope: Scope, events: seq<Event>, key: Key)
    requires AllInScope(naming, captureId, scope, events) && Pending(naming, captureId, events, key).Some?
    ensures key in scope.keys
  {
    var last := |events| - 1;
    assert events[last] in events && forall e | e in events[..last] :: e in events;
    assert InScope(naming, captureId, scope, events[last]);
    if ChunkKey(naming, captureId, events[last]) != Some(key) {
      PendingInScope(naming, captureId, scope, events[..last], key);
    }
  }

  lemma NothingEnds(naming: Naming, captureId: string, events: seq<Event>)
    ensures events[..0] == [] && GoesOn(naming, captureId, [])
  {}

  lemma ScopeOf(naming: Naming, captureId: string, scope: Scope, events: seq<Event>, n: nat)
    requires n < |events| && AllInScope(naming, captureId, scope, events)
    ensures InScope(naming, captureId, scope, events[n]) && AllInScope(naming, captureId, scope, events[..n])
  {
    assert events[n] in events && forall e | e in events[..n] :: e in events;
  }

  lemma OneMoreGoesOn(naming: Naming, captureId: string, events: seq<Event>, n: nat)
    requires n < |events| && GoesOn(naming, captureId, events[..n])
    ensures Verdict(naming, captureId, events[..n], events[n]).None? ==> GoesOn(naming, captureId, events[..n + 1])
  {
    hide Verdict;
    var more := events[..n + 1];
    if Verdict(naming, captureId, events[..n], events[n]).None? {
      forall i | 0 <= i < |more| ensures Verdict(naming, captureId, more[..i], more[i]).None? {
        assert more[..i] == events[..i];
        if i < n {
          assert Verdict(naming, captureId, events[..n][..i], events[..n][i]).None?;
          assert events[..n][..i] == events[..i];
        }
      }
    }
  }

  lemma NeverTimedOut(naming: Naming, captureId: string, limit: int, c: Consumer, e: Event)
    ensures Handled(naming, captureId, limit, c, e).1 != Some(TimedOut)
  {
    hide AfterLog, AfterChunk, AfterComplete;
  }

  /** Consumes events until one ends the capture; when there are no more, the inactivity timeout ends it. */
  method ConsumeCapture(naming: Naming, captureId: string, incoming: seq<Event>, files: map<string, Bytes>, limit: int,
                        ghost scope: Scope)
    returns (ending: Ending, end: Consumer, consumed: nat)
    requires limit >= 1
    ensures consumed <= |incoming| && Bounded(end, limit)
    ensures Lawful(naming) && Separate(naming, scope) && Clean(naming, scope, files)
            && AllInScope(naming, captureId, scope, incoming) ==>
              && GoesOn(naming, captureId, incoming[..consumed])
              && Refines(naming, captureId, scope, files, incoming[..consumed], end)
              && (if ending == TimedOut then consumed == |incoming|
                  else consumed < |incoming|
                       && Verdict(naming, captureId, incoming[..consumed], incoming[consumed]) == Some(ending))
  {
    hide Bounded, Refines, Verdict, GoesOn, Handled, Separate, Clean, Lawful, AllInScope, InScope;
    var c := Start(files);
    consumed := 0;
    StartBounded(files, limit);
    ghost var fits := Lawful(naming) && Separate(naming, scope) && Clean(naming, scope, files)
                      && AllInScope(naming, captureId, scope, incoming);
    if fits {
      StartRefines(naming, captureId, scope, files);
      NothingEnds(naming, captureId, incoming);
    }
    while consumed < |incoming|
      invariant consumed <= |incoming| && Bounded(c, limit)
      invariant fits ==> GoesOn(naming, captureId, incoming[..consumed])
      invariant fits ==> Refines(naming, captureId, scope, files, incoming[..consumed], c)
    {
      var e := incoming[consumed];
      var handled := Handled(naming, captureId, limit, c, e);
      HandledBounded(naming, captureId, limit, c, e);
      NeverTimedOut(naming, captureId, limit, c, e);
      if fits {
        ScopeOf(naming, captureId, scope, incoming, consumed);
        HandledRefines(naming, captureId, scope, limit, files, incoming[..consumed], c, e);
        assert incoming[..consumed + 1] == incoming[..consumed] + [e];
        OneMoreGoesOn(naming, captureId, incoming, consumed);
      }
      c := handled.0;
      if handled.1.Some? {
        return handled.1.value, c, consumed;
      }
      consumed := consumed + 1;
    }
    ending, end := TimedOut, c;
  }

  /** A chunk stays in memory as long as the limit allows it; when it is reached, the buffer of its connection, and no
      other, is written at once and is empty then. An empty buffer makes no file. */
  lemma ChunkGoesWhere(naming: Naming, limit: int, c: Consumer, key: Key, payload: Bytes)
    ensures var c' := AfterChunk(naming, limit, c, key, payload);
            var buffer := (if key in c.chunks then c.chunks[key].buffer else []) + payload;
            var name := Temporary(naming, key);
            && key in c'.chunks && c'.chunks - {key} == c.chunks - {key}
            && c'.chunks[key].next == (if key in c.chunks then c.chunks[key].next else 0) + 1
            && (if c.buffered + |payload| < limit then
                  c'.files == c.files && c'.chunks[key].buffer == buffer && c'.buffered == c.buffered + |payload|
                else
                  && c'.chunks[key].buffer == [] && c'.buffered == c.buffered + |payload| - |buffer|
                  && if buffer == [] then c'.files == c.files
                     else c'.files == c.files[name := Stored(c.files, name) + buffer])
  {}
}
