/** What a sequence of capture events says about the files of the capture, without any buffering. */
module CaptureReference {
  import opened Options
  import opened CaptureEvents

  /** Names of files are made safe; the identity of a trace is rendered into the name of a temporary file. */
  datatype Naming = Naming(safeName: string -> string, render: TraceId -> string)

  ghost predicate Lawful(naming: Naming) {
    forall name :: IsPlain(naming.safeName(name)) && naming.safeName(naming.safeName(name)) == naming.safeName(name)
  }

  /** The name is not that of a hidden file. */
  predicate IsPlain(name: string) { name != "" && name[0] != '.' }

  datatype Key = Key(traceId: TraceId, filename: string)

  datatype Failure =
    | UnsupportedSchema | BadPayload | OutOfOrder | Incomplete | Unfinished | ReportedFailure | UnsupportedType

  datatype Ending = Completed(received: nat) | StartTimeout | Failed(failure: Failure) | TimedOut

  predicate IsRelevant(captureId: string, e: Event) { e.schemaVersion == SCHEMA_VERSION && e.captureId == captureId }

  function ChunkKey(naming: Naming, captureId: string, e: Event): Option<Key> {
    if IsRelevant(captureId, e) && e.body.ConnectionLogChunk? then
      Some(Key(e.body.traceId, naming.safeName(e.body.filename)))
    else None
  }

  function CompleteKey(naming: Naming, captureId: string, e: Event): Option<Key> {
    if IsRelevant(captureId, e) && e.body.ConnectionLogComplete? then
      Some(Key(e.body.traceId, naming.safeName(e.body.filename)))
    else None
  }

  /** The chunks of a key since its last completion; None when there are none. */
  function Pending(naming: Naming, captureId: string, events: seq<Event>, key: Key): Option<seq<Bytes>> {
    if events == [] then None
    else
      var before, e := Pending(naming, captureId, events[..|events| - 1], key), events[|events| - 1];
      if ChunkKey(naming, captureId, e) == Some(key) then
        Some(PendingList(before) + if e.body.payload.Some? then [e.body.payload.value] else [])
      else if CompleteKey(naming, captureId, e) == Some(key) then None
      else before
  }

  function PendingList(pending: Option<seq<Bytes>>): seq<Bytes> { if pending.Some? then pending.value else [] }

  /** The files that the events produce: for a completed connection, its chunks one after another. */
  function Outputs(naming: Naming, captureId: string, events: seq<Event>): map<string, Bytes> {
    if events == [] then map[]
    else
      var init, e := events[..|events| - 1], events[|events| - 1];
      var before := Outputs(naming, captureId, init);
      var key := CompleteKey(naming, captureId, e);
      if key.Some? then before[key.value.filename := Join(PendingList(Pending(naming, captureId, init, key.value)))]
      else if IsRelevant(captureId, e) && e.body.ConnectionLog? && e.body.payload.Some? then
        before[naming.safeName(e.body.filename) := e.body.payload.value]
      else before
  }

  function Received(naming: Naming, captureId: string, events: seq<Event>): nat {
    if events == [] then 0
    else
      var e := events[|events| - 1];
      Received(naming, captureId, events[..|events| - 1])
      + if IsRelevant(captureId, e) && (e.body.ConnectionLogComplete? || e.body.ConnectionLog?) then 1 else 0
  }

  ghost predicate HasUnfinished(naming: Naming, captureId: string, events: seq<Event>) {
    exists key :: Pending(naming, captureId, events, key).Some?
  }

  /** Whether an event ends the capture, and how, after the events before it. */
  ghost function Verdict(naming: Naming, captureId: string, events: seq<Event>, e: Event): Option<Ending> {
    if e.schemaVersion != SCHEMA_VERSION then Some(Failed(UnsupportedSchema))
    else if e.captureId != captureId then None
    else
      match e.body
      case ConnectionLog(_, payload) => if payload.None? then Some(Failed(BadPayload)) else None
      case ConnectionLogChunk(traceId, filename, chunkIndex, payload) =>
        var pending := Pending(naming, captureId, events, Key(traceId, naming.safeName(filename)));
        if chunkIndex != Some(|PendingList(pending)|) then Some(Failed(OutOfOrder))
        else if payload.None? then Some(Failed(BadPayload))
        else None
      case ConnectionLogComplete(traceId, filename, chunkCount) =>
        var pending := Pending(naming, captureId, events, Key(traceId, naming.safeName(filename)));
        if chunkCount != Some(|PendingList(pending)|) then Some(Failed(Incomplete)) else None
      case CaptureComplete =>
        if HasUnfinished(naming, captureId, events) then Some(Failed(Unfinished))
        else Some(Completed(Received(naming, captureId, events)))
      case CaptureStartTimeout => Some(StartTimeout)
      case CaptureFailed => Some(Failed(ReportedFailure))
      case Unsupported => Some(Failed(UnsupportedType))
  }

  /** None of the events ends the capture. */
  ghost predicate GoesOn(naming: Naming, captureId: string, events: seq<Event>) {
    forall i | 0 <= i < |events| :: Verdict(naming, captureId, events[..i], events[i]).None?
  }

  lemma PendingGrows(naming: Naming, captureId: string, events: seq<Event>, e: Event, key: Key)
    ensures Pending(naming, captureId, events + [e], key)
         == if ChunkKey(naming, captureId, e) == Some(key) then
              Some(PendingList(Pending(naming, captureId, events, key))
                   + if e.body.payload.Some? then [e.body.payload.value] else [])
            else if CompleteKey(naming, captureId, e) == Some(key) then None
            else Pending(naming, captureId, events, key)
  {
    assert (events + [e])[..|events|] == events;
  }

  lemma OutputsGrow(naming: Naming, captureId: string, events: seq<Event>, e: Event)
    ensures Outputs(naming, captureId, events + [e])
         == var key := CompleteKey(naming, captureId, e);
            var before := Outputs(naming, captureId, events);
            if key.Some? then
              before[key.value.filename := Join(PendingList(Pending(naming, captureId, events, key.value)))]
            else if IsRelevant(captureId, e) && e.body.ConnectionLog? && e.body.payload.Some? then
              before[naming.safeName(e.body.filename) := e.body.payload.value]
            else before
    ensures Received(naming, captureId, events + [e])
         == Received(naming, captureId, events)
            + if IsRelevant(captureId, e) && (e.body.ConnectionLogComplete? || e.body.ConnectionLog?) then 1 else 0
  {
    assert (events + [e])[..|events|] == events;
  }
}
