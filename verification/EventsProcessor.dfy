/** The streaming directory events processor: it announces files that have come to rest, until it is sealed. */
module EventsProcessor {
  import opened Options
  import opened EventProtocol
  import opened EventDelivery
  import opened DirectoryJournal

  datatype Report = Report(sealReason: string, generated: nat, delivered: nat, undelivered: int,
                           terminationDelivered: bool, lastSequence: nat)

  /** `Reported` carries whether the loop ended by itself after the seal, as opposed to a stop signal. */
  datatype Outcome = Raised | TimedOut | Reported(report: Report, settled: bool)

  const EXPLICIT := "explicit"
  const IDLE := "idle timeout"
  const STOPPED := "processor stopped"

  function CountReady(events: seq<Event>): nat {
    if events == [] then 0
    else CountReady(events[..|events| - 1]) + if events[|events| - 1].Ready? then 1 else 0
  }

  lemma {:induction false} CountReadyConcat(a: seq<Event>, b: seq<Event>)
    ensures CountReady(a + b) == CountReady(a) + CountReady(b)
    decreases |b|
  {
    if b == [] {
      assert a + b == a;
    } else {
      var n := |b| - 1;
      assert (a + b)[..|a + b| - 1] == a + b[..n] && (a + b)[|a + b| - 1] == b[n];
      CountReadyConcat(a, b[..n]);
    }
  }

  lemma {:induction false} AllReadyCount(events: seq<Event>)
    requires AllReady(events)
    ensures CountReady(events) == |events|
  {
    if events != [] {
      assert events[|events| - 1] in events;
      AllReadyCount(events[..|events| - 1]);
    }
  }

  /** Announces the files of turn `t` that are as they were in the turn before and not yet announced like that. */
  method AnnounceStable(ghost turns: seq<Turn>, ghost t: nat, order: seq<string>, current: map<string, Identity>,
                        previous: map<string, Identity>, session: string,
                        journal0: seq<Event>, emitted0: map<string, Identity>, pending0: seq<Event>,
                        sequence0: nat, generated0: nat)
    returns (journal: seq<Event>, emitted: map<string, Identity>, pending: seq<Event>, sequence: nat, generated: nat)
    requires sequence0 == generated0 == |journal0|
    requires t < |turns| && current == FilesAt(turns, t) && previous == FilesAt(turns, t - 1)
    requires forall p :: p in order <==> p in current
    requires Faithful(turns, t, journal0) && Emitted(emitted0, journal0)
    ensures Faithful(turns, t + 1, journal) && Emitted(emitted, journal)
    ensures journal0 <= journal && pending == pending0 + journal[|journal0|..]
    ensures sequence == generated == |journal|
    requires Reflects(emitted0, turns, t) && Signed(journal0, session)
    ensures Reflects(emitted, turns, t + 1) && Signed(journal, session)
  {
    hide Reflects, LastStable;
    hide NeverRepeats, OnlyStable, EveryStable, Emitted, Numbered, AllReady;
    journal, emitted, pending := journal0, emitted0, pending0;
    sequence, generated := sequence0, generated0;
    assert OnlyStable(turns, t + 1, journal0) by { OnlyStableGrows(turns, t, t + 1, journal0); }
    assert pending0 + journal0[|journal0|..] == pending0;
    for i := 0 to |order|
      invariant Numbered(journal) && AllReady(journal) && NeverRepeats(journal) && OnlyStable(turns, t + 1, journal)
      invariant Signed(journal, session)
      invariant Emitted(emitted, journal)
      invariant journal0 <= journal && pending == pending0 + journal[|journal0|..]
      invariant sequence == generated == |journal|
      invariant forall p :: Lookup(emitted, p) == Lookup(emitted0, p)
                            || (p in emitted && StableAt(turns, t, p, emitted[p]))
      invariant forall j | 0 <= j < i :: Settled(current, previous, emitted, order[j])
    {
      var path := order[i];
      if Matches(previous, path, current[path]) && !Matches(emitted, path, current[path]) {
        sequence, generated := sequence + 1, generated + 1;
        var event := Ready(sequence, path, current[path], session);
        AnnounceKeeps(turns, t, journal, emitted, event);
        assert (journal + [event])[|journal0|..] == journal[|journal0|..] + [event];
        assert pending0 + (journal[|journal0|..] + [event]) == pending0 + journal[|journal0|..] + [event];
        journal, emitted, pending := journal + [event], emitted[path := current[path]], pending + [event];
      }
    }
    forall p, id | StableAt(turns, t, p, id) ensures Matches(emitted, p, id) {
      var j :| 0 <= j < |order| && order[j] == p;
      assert Settled(current, previous, emitted, order[j]);
    }
    EveryStableGrows(turns, t, journal0, journal, emitted);
    ReflectsGrows(turns, t, emitted0, emitted);
  }

  /** A path that has not changed has been announced as it is. */
  ghost predicate Settled(current: map<string, Identity>, previous: map<string, Identity>,
                          emitted: map<string, Identity>, path: string)
  {
    path in current && Matches(previous, path, current[path]) ==> Matches(emitted, path, current[path])
  }

  /** The journal grows at its end together with what is pending. */
  lemma KeepsGrows(writer: EventWriter, journal: seq<Event>, pending: seq<Event>, added: seq<Event>)
    requires writer.Keeps(journal, pending)
    ensures writer.Keeps(journal + added, pending + added)
  {
    InOrderGrows(writer.past, journal, added);
    assert writer.Delivered() + (pending + added) == writer.Delivered() + pending + added;
    assert writer.batch <= pending <= pending + added;
  }

  lemma {:induction false} InOrderGrows(connections: seq<Connection>, journal: seq<Event>, added: seq<Event>)
    requires InOrder(connections, journal)
    ensures InOrder(connections, journal + added)
    decreases |connections|
  {
    if connections != [] {
      InOrderGrows(connections[..|connections| - 1], journal, added);
    }
  }

  function Reason(turns: seq<Turn>, s: nat): string
    requires s < |turns|
  {
    if turns[s].sealRead then "explicit" else "idle timeout"
  }

  /** What holds of the journal and of the connections at the end of any run. */
  ghost predicate Accounted(json: Json, journal: seq<Event>, rest: seq<Event>, connections: seq<Connection>,
                            wires: seq<string>)
  {
    && Carried(connections) + rest == journal
    && InOrder(connections, journal) && Wrote(json, connections, wires)
  }

  /** After the turn in which the seal was observed, the loop goes on up to the first quiet turn. */
  ghost predicate Waits(turns: seq<Turn>, limits: Limits, scans: nat, sealedAt: Option<nat>, settled: bool)
    requires scans <= |turns|
  {
    && SealedBefore(turns, limits, scans, sealedAt)
    && (settled ==> sealedAt.Some? && sealedAt.value < scans - 1 && Quiet(turns, scans - 1))
    && (sealedAt.Some? ==> forall t | sealedAt.value < t < scans :: (settled && t == scans - 1) || !Quiet(turns, t))
  }

  /** The journal is the announcements and the record of termination; the report and that record agree with it. */
  ghost predicate Ended(turns: seq<Turn>, scans: nat, report: Report, journal: seq<Event>, rest: seq<Event>) {
    journal != []
    && var ready, terminal := journal[..|journal| - 1], journal[|journal| - 1];
    && Faithful(turns, scans, ready) && (forall path :: LastReady(ready, path) == LastStable(turns, scans, path))
    && terminal.Terminated? && terminal.generated == |ready|
    && terminal.generated == terminal.delivered + terminal.undelivered
    && terminal.reason == (if report.sealReason == "" then "processor stopped" else report.sealReason)
    && report.generated == |ready| && report.lastSequence == |journal|
    && report.generated == report.delivered + report.undelivered && report.undelivered == CountReady(rest)
    && (report.terminationDelivered <==> rest == [])
  }

  /** Of a queue that ends with the record of termination, the front was sent. */
  lemma SentFront(queue: seq<Event>, sent: seq<Event>, rest: seq<Event>)
    requires queue == sent + rest && EndsWithTerminal(queue)
    ensures rest == [] <==> exists e :: e in sent && e.Terminated?
    ensures rest != [] ==> EndsWithTerminal(rest)
  {
    var last := |queue| - 1;
    if rest == [] {
      assert queue[last] in sent;
    } else {
      assert rest[|rest| - 1] == queue[last];
      assert rest[..|rest| - 1] == queue[|sent|..last];
      assert queue[..last] == queue[..|sent|] + queue[|sent|..last];
      forall e | e in sent ensures e.Ready? {
        assert e in queue[..last];
      }
    }
  }

  predicate EndsWithTerminal(queue: seq<Event>) {
    queue != [] && queue[|queue| - 1].Terminated? && AllReady(queue[..|queue| - 1])
  }

  /** Some answer is an error that is raised. */
  predicate Raises(os: seq<Syscall>) { Fails(OtherErrno) in os }

  /** The first of the attempts can write all that is left. */
  predicate FirstSuffices(isOpen: bool, endings: seq<seq<Syscall>>, left: nat) {
    endings != [] && Attempted(isOpen, endings[0], left).Accepted?
  }

  predicate AnyRaises(endings: seq<seq<Syscall>>) { exists os | os in endings :: Raises(os) }

  /** Hands over what is pending, which ends with the record of termination, until the deadline. */
  method Drain(writer: EventWriter, ghost journal: seq<Event>, pending: seq<Event>, delivered0: nat,
               endings: seq<seq<Syscall>>)
    returns (raised: bool, rest: seq<Event>, delivered: nat, terminationDelivered: bool)
    requires writer.Keeps(journal, pending) && EndsWithTerminal(pending)
    requires delivered0 == CountReady(writer.Delivered())
    modifies writer
    ensures writer.Keeps(journal, rest) && delivered == CountReady(writer.Delivered())
    ensures terminationDelivered <==> rest == []
    ensures raised ==> AnyRaises(endings)
    ensures old(writer.payload).None? && FirstSuffices(old(writer.descriptor), endings, old(writer.Left(pending)))
            ==> rest == []
  {
    hide CountReady, EndsWithTerminal, AnyRaises, Raises, EventWriter.Keeps, EventWriter.Delivered;
    raised, rest, delivered, terminationDelivered := false, pending, delivered0, false;
    var turn := 0;
    assert rest != [] by { assert EndsWithTerminal(pending); EndsWithTerminalFacts(pending); }
    while rest != [] && turn < |endings|
      invariant writer.Keeps(journal, rest) && delivered == CountReady(writer.Delivered())
      invariant rest != [] ==> EndsWithTerminal(rest)
      invariant terminationDelivered <==> rest == []
      invariant turn == 0 ==> rest == pending && writer.descriptor == old(writer.descriptor)
                              && writer.payload == old(writer.payload)
                              && writer.Left(pending) == old(writer.Left(pending))
      invariant turn > 0 && old(writer.payload).None?
                && FirstSuffices(old(writer.descriptor), endings, old(writer.Left(pending)))
                ==> rest == []
      decreases |endings| - turn
    {
      var sent, left;
      sent, left, raised := DrainOnce(writer, journal, rest, endings[turn]);
      SentFront(rest, sent, left);
      rest, turn := left, turn + 1;
      delivered := delivered + CountReady(sent);
      terminationDelivered := exists e | e in sent :: e.Terminated?;
      if raised {
        AnEndingRaises(endings, turn - 1);
        return;
      }
    }
  }

  method DrainOnce(writer: EventWriter, ghost journal: seq<Event>, pending: seq<Event>, os: seq<Syscall>)
    returns (sent: seq<Event>, left: seq<Event>, raised: bool)
    requires writer.Keeps(journal, pending)
    modifies writer
    ensures writer.Keeps(journal, left) && sent + left == pending
    ensures CountReady(writer.Delivered()) == CountReady(old(writer.Delivered())) + CountReady(sent)
    ensures raised ==> Raises(os)
    ensures old(writer.payload).None? && Attempted(old(writer.descriptor), os, old(writer.Left(pending))).Accepted? ==>
              left == []
  {
    hide CountReady, Attempted, EventWriter.Keeps, EventWriter.Delivered;
    ghost var before := writer.Delivered();
    RaisedByAnswer(writer.descriptor, os, writer.Left(pending));
    sent, left, raised := writer.Flush(pending, os, journal);
    CountReadyConcat(before, sent);
  }

  lemma AnEndingRaises(endings: seq<seq<Syscall>>, i: nat)
    requires i < |endings| && Raises(endings[i])
    ensures AnyRaises(endings)
  {}

  lemma EndsWithTerminalFacts(queue: seq<Event>)
    requires EndsWithTerminal(queue)
    ensures queue != []
  {}

  /** Writes the record of termination, hands it over if it can, and reports. */
  method Terminate(writer: EventWriter, ghost turns: seq<Turn>, ghost scans: nat, ready: seq<Event>,
                   pending0: seq<Event>, sequence0: nat, generated: nat, delivered0: nat, sealReason: string,
                   session: string, endings: seq<seq<Syscall>>)
    returns (raised: bool, journal: seq<Event>, rest: seq<Event>, report: Report)
    requires writer.Keeps(ready, pending0) && Faithful(turns, scans, ready)
    requires forall path :: LastReady(ready, path) == LastStable(turns, scans, path)
    requires sequence0 == generated == |ready| && delivered0 == |writer.Delivered()| && Signed(ready, session)
    modifies writer
    ensures writer.Keeps(journal, rest) && Numbered(journal) && Signed(journal, session)
    ensures Ended(turns, scans, report, journal, rest)
    ensures report.sealReason == sealReason
    ensures raised ==> AnyRaises(endings)
    ensures journal == ready + [Terminated(|ready| + 1, if sealReason == "" then STOPPED else sealReason, session,
                                           |ready|, |ready| - |pending0|, |pending0|)]
  {
    hide Faithful, LastReady, LastStable, EventWriter.Keeps, EventWriter.Delivered, EndsWithTerminal;
    hide CountReady, Ended, Numbered, AllReady, AnyRaises;
    KeepsSum(writer, ready, pending0);
    var sequence := sequence0 + 1;
    FaithfulReady(turns, scans, ready);
    DeliveredReady(writer, ready, pending0);
    var terminal := Terminated(sequence, if sealReason == "" then STOPPED else sealReason, session,
                               generated, delivered0, generated - delivered0);
    journal := ready + [terminal];
    KeepsGrows(writer, ready, pending0, [terminal]);
    TerminalLast(pending0, terminal);
    var delivered, terminationDelivered;
    raised, rest, delivered, terminationDelivered := Drain(writer, journal, pending0 + [terminal], delivered0, endings);
    report := Report(sealReason, generated, delivered, generated - delivered, terminationDelivered, sequence);
    KeepsSum(writer, journal, rest);
    TerminatedEnds(turns, scans, ready, terminal, report, writer.Delivered(), rest);
  }

  lemma FaithfulReady(turns: seq<Turn>, n: nat, journal: seq<Event>)
    requires Faithful(turns, n, journal)
    ensures AllReady(journal)
  {}

  lemma TerminalLast(pending: seq<Event>, terminal: Event)
    requires AllReady(pending) && terminal.Terminated?
    ensures EndsWithTerminal(pending + [terminal])
  {
    assert (pending + [terminal])[..|pending|] == pending;
  }

  lemma KeepsSum(writer: EventWriter, journal: seq<Event>, pending: seq<Event>)
    requires writer.Keeps(journal, pending)
    ensures writer.Delivered() + pending == journal
  {}

  lemma TerminatedEnds(turns: seq<Turn>, scans: nat, ready: seq<Event>, terminal: Event, report: Report,
                       delivered: seq<Event>, rest: seq<Event>)
    requires delivered + rest == ready + [terminal] && Faithful(turns, scans, ready)
    requires forall path :: LastReady(ready, path) == LastStable(turns, scans, path)
    requires terminal.Terminated? && terminal.sequence == |ready| + 1 == report.lastSequence
    requires terminal.generated == report.generated == |ready| == terminal.delivered + terminal.undelivered
    requires terminal.reason == if report.sealReason == "" then STOPPED else report.sealReason
    requires report.delivered == CountReady(delivered) && report.undelivered == report.generated - report.delivered
    requires report.terminationDelivered <==> rest == []
    ensures Numbered(ready + [terminal]) && Ended(turns, scans, report, ready + [terminal], rest)
  {
    hide OnlyStable, EveryStable, NeverRepeats, LastReady, LastStable;
    var journal := ready + [terminal];
    assert journal[..|journal| - 1] == ready;
    CountReadyConcat(delivered, rest);
    AllReadyCount(ready);
    assert CountReady(journal) == CountReady(ready);
  }

  /** Before the termination every event is the announcement of a file. */
  lemma DeliveredReady(writer: EventWriter, journal: seq<Event>, pending: seq<Event>)
    requires writer.Keeps(journal, pending) && AllReady(journal)
    ensures CountReady(writer.Delivered()) == |writer.Delivered()| <= |journal| && AllReady(pending)
  {
    assert forall e | e in writer.Delivered() :: e in journal;
    assert forall e | e in pending :: e in journal;
    AllReadyCount(writer.Delivered());
  }

  lemma TurnScanned(turns: seq<Turn>, t: nat)
    requires t < |turns| && WellScanned(turns) && turns[t].scan.Found?
    ensures forall p :: p in turns[t].scan.order <==> p in turns[t].scan.files
  {
    assert turns[t] in turns;
  }

  /** One turn: announce, hand over, and look for the seal. */
  method TakeTurn(writer: EventWriter, turns: seq<Turn>, limits: Limits, ghost t: nat, turn: Turn,
                  previous: map<string, Identity>, journal0: seq<Event>, emitted0: map<string, Identity>,
                  pending0: seq<Event>, sequence0: nat, generated0: nat, delivered0: nat)
    returns (raised: bool, journal: seq<Event>, emitted: map<string, Identity>, pending: seq<Event>,
             sequence: nat, generated: nat, delivered: nat)
    requires t < |turns| && turn == turns[t] && turn.scan.Found? && WellScanned(turns)
    requires previous == FilesAt(turns, t - 1)
    requires Faithful(turns, t, journal0) && Emitted(emitted0, journal0) && Reflects(emitted0, turns, t)
    requires writer.Keeps(journal0, pending0)
    requires sequence0 == generated0 == |journal0| && delivered0 == |writer.Delivered()|
    requires Signed(journal0, limits.session)
    modifies writer
    ensures Signed(journal, limits.session)
    ensures Faithful(turns, t + 1, journal) && Emitted(emitted, journal) && Reflects(emitted, turns, t + 1)
    ensures writer.Keeps(journal, pending)
    ensures sequence == generated == |journal| && delivered == |writer.Delivered()|
    ensures raised ==> Raises(turn.os)
  {
    hide Attempted;
    hide Emitted, Reflects, Faithful, WellScanned, EventWriter.Keeps, EventWriter.Delivered, CountReady, Signed;
    assert forall p :: p in turn.scan.order <==> p in turn.scan.files by { TurnScanned(turns, t); }
    journal, emitted, pending, sequence, generated :=
      AnnounceStable(turns, t, turn.scan.order, turn.scan.files, previous, limits.session,
                     journal0, emitted0, pending0, sequence0, generated0);
    KeepsGrows(writer, journal0, pending0, journal[|journal0|..]);
    assert journal0 + journal[|journal0|..] == journal;
    FaithfulReady(turns, t + 1, journal);
    DeliveredReady(writer, journal, pending);
    ghost var before := writer.Delivered();
    var sent;
    RaisedByAnswer(writer.descriptor, turn.os, writer.Left(pending));
    sent, pending, raised := writer.Flush(pending, turn.os, journal);
    CountReadyConcat(before, sent);
    DeliveredReady(writer, journal, pending);
    delivered := delivered0 + CountReady(sent);
  }

  /** The checks after the flush of turn `t`: for the seal, for inactivity since the last name appeared, and for a
      start without any. */
  method LookForSeal(ghost turns: seq<Turn>, limits: Limits, ghost t: nat, turn: Turn, lastActivity: int,
                     activitySeen: bool, isSealed0: bool, sealReason0: string, ghost sealedAt0: Option<nat>)
    returns (isSealed: bool, postSealScanRequired: bool, sealReason: string, expired: bool,
             ghost sealedAt: Option<nat>)
    requires t < |turns| && turn == turns[t]
    requires SealedBefore(turns, limits, t, sealedAt0) && IsSeal(turns, sealedAt0, isSealed0, sealReason0)
    requires activitySeen == LastActivity(turns, t + 1).Some?
    requires activitySeen ==> lastActivity == LastActivity(turns, t + 1).value
    ensures SealedBefore(turns, limits, t + 1, sealedAt) && IsSeal(turns, sealedAt, isSealed, sealReason)
    ensures sealedAt0.Some? ==> sealedAt == sealedAt0
    ensures postSealScanRequired <==> sealedAt == Some(t)
    ensures expired <==> ExpiresAt(turns, limits, t)
  {
    isSealed, postSealScanRequired, sealReason, sealedAt := isSealed0, false, sealReason0, sealedAt0;
    if !isSealed && turn.sealRead {
      isSealed, postSealScanRequired, sealReason, sealedAt := true, true, EXPLICIT, Some(t);
    }
    if !isSealed && activitySeen && turn.now - lastActivity >= limits.updateTimeout {
      isSealed, postSealScanRequired, sealReason, sealedAt := true, true, IDLE, Some(t);
    }
    expired := !isSealed && !activitySeen && turn.now - limits.started >= limits.initialTimeout;
  }

  ghost predicate IsSeal(turns: seq<Turn>, sealedAt: Option<nat>, isSealed: bool, sealReason: string) {
    match sealedAt
    case None => !isSealed && sealReason == ""
    case Some(s) => isSealed && s < |turns| && sealReason == Reason(turns, s)
  }

  /** The end of turn `t`: the loop is left when a turn after the seal was quiet. */
  lemma WaitsGrows(turns: seq<Turn>, limits: Limits, t: nat, before: Option<nat>, sealedAt: Option<nat>, settled: bool)
    requires t < |turns| && Waits(turns, limits, t, before, false) && SealedBefore(turns, limits, t + 1, sealedAt)
    requires before.Some? ==> sealedAt == before
    requires settled <==> sealedAt.Some? && sealedAt != Some(t) && Quiet(turns, t)
    ensures Waits(turns, limits, t + 1, sealedAt, settled)
  {
    hide SealsAt, Quiet;
  }

  /** All stable events are created, by the dictionary of emitted identities, exactly in a quiet turn. */
  lemma QuietTurn(turns: seq<Turn>, t: nat, current: map<string, Identity>, emitted: map<string, Identity>)
    requires current == FilesAt(turns, t) && Reflects(emitted, turns, t + 1)
    ensures Quiet(turns, t) <==> forall p | p in current :: Matches(emitted, p, current[p])
  {
    hide LastStable;
    forall p | p in current
      ensures LastStable(turns, t + 1, p) == Some(current[p]) <==> Matches(emitted, p, current[p])
    {
      assert LastStable(turns, t + 1, p) == Lookup(emitted, p);
    }
  }

  lemma FromNothing(turns: seq<Turn>, limits: Limits, writer: EventWriter)
    ensures Signed([], limits.session)
    ensures Faithful(turns, 0, []) && Emitted(map[], []) && Reflects(map[], turns, 0)
    ensures Waits(turns, limits, 0, None, false) && IsSeal(turns, None, false, "")
  {}

  lemma EmittedReflects(turns: seq<Turn>, n: nat, emitted: map<string, Identity>, journal: seq<Event>)
    requires Emitted(emitted, journal) && Reflects(emitted, turns, n)
    ensures forall path :: LastReady(journal, path) == LastStable(turns, n, path)
  {
    hide LastStable, LastReady;
    forall path ensures LastReady(journal, path) == LastStable(turns, n, path) {
      assert LastStable(turns, n, path) == Lookup(emitted, path);
    }
  }

  lemma NoActivity(turns: seq<Turn>)
    ensures LastActivity(turns, 0) == None
  {}

  lemma ActivityGrows(turns: seq<Turn>, t: nat)
    requires t < |turns|
    ensures LastActivity(turns, t + 1) == if AppearedAt(turns, t) then Some(turns[t].now) else LastActivity(turns, t)
  {}

  lemma WaitsSealed(turns: seq<Turn>, limits: Limits, n: nat, sealedAt: Option<nat>)
    requires n <= |turns| && Waits(turns, limits, n, sealedAt, false)
    ensures SealedBefore(turns, limits, n, sealedAt)
  {}

  lemma IsSealFacts(turns: seq<Turn>, sealedAt: Option<nat>, isSealed: bool, sealReason: string)
    requires IsSeal(turns, sealedAt, isSealed, sealReason)
    ensures isSealed <==> sealedAt.Some?
  {}

  lemma FaithfulNumbered(turns: seq<Turn>, n: nat, journal: seq<Event>)
    requires Faithful(turns, n, journal)
    ensures Numbered(journal)
  {}

  method Leave(writer: EventWriter, ghost journal: seq<Event>, ghost rest: seq<Event>)
    requires writer.Keeps(journal, rest)
    modifies writer
    ensures Accounted(writer.json, journal, rest, writer.Connections(), writer.Wires())
    ensures !writer.descriptor && writer.payload == old(writer.payload) && writer.batch == old(writer.batch)
  {
    writer.Close(false, journal, rest);
  }

  /** The first `n` scans were not refused. */
  predicate NoneRefused(turns: seq<Turn>, n: nat)
    requires n <= |turns|
  {
    forall t | 0 <= t < n :: turns[t].scan.Found?
  }

  /** An error was raised for a reason: turn `scans` was refused, or an error of a system call in it or in the endings
      was raised. The journal says what the scans say, the one of that turn included when it was not refused; after the
      loop it ends with the record of termination. */
  ghost predicate RaisedFor(turns: seq<Turn>, limits: Limits, endings: seq<seq<Syscall>>, scans: nat,
                            sealedAt: Option<nat>, journal: seq<Event>)
    requires scans <= |turns|
  {
    || (scans < |turns| && turns[scans].scan.Refused? && Faithful(turns, scans, journal))
    || (scans < |turns| && turns[scans].scan.Found? && Raises(turns[scans].os) && Faithful(turns, scans + 1, journal))
    || (AnyRaises(endings) && LoopEnded(turns, limits, scans, sealedAt)
        && EndsWithTerminal(journal) && Faithful(turns, scans, journal[..|journal| - 1]))
  }

  /** The loop was left after a quiet turn behind the seal, or on a stop signal. */
  ghost predicate LoopEnded(turns: seq<Turn>, limits: Limits, scans: nat, sealedAt: Option<nat>)
    requires scans <= |turns|
  {
    Waits(turns, limits, scans, sealedAt, true)
    || (scans == |turns| && Waits(turns, limits, scans, sealedAt, false))
  }

  lemma RefusedFor(turns: seq<Turn>, limits: Limits, endings: seq<seq<Syscall>>, scans: nat, sealedAt: Option<nat>,
                   journal: seq<Event>)
    requires scans < |turns| && turns[scans].scan.Refused? && Faithful(turns, scans, journal)
    ensures RaisedFor(turns, limits, endings, scans, sealedAt, journal)
  {}

  lemma FlushFor(turns: seq<Turn>, limits: Limits, endings: seq<seq<Syscall>>, scans: nat, sealedAt: Option<nat>,
                 journal: seq<Event>)
    requires scans < |turns| && turns[scans].scan.Found? && Raises(turns[scans].os)
    requires Faithful(turns, scans + 1, journal)
    ensures RaisedFor(turns, limits, endings, scans, sealedAt, journal)
  {}

  lemma EndingFor(turns: seq<Turn>, limits: Limits, endings: seq<seq<Syscall>>, scans: nat, sealedAt: Option<nat>,
                  settled: bool, report: Report, journal: seq<Event>, rest: seq<Event>)
    requires scans <= |turns| && Waits(turns, limits, scans, sealedAt, settled) && (settled || scans == |turns|)
    requires AnyRaises(endings) && Ended(turns, scans, report, journal, rest)
    ensures RaisedFor(turns, limits, endings, scans, sealedAt, journal)
  {
    hide OnlyStable, EveryStable, NeverRepeats, LastReady, LastStable, Waits;
  }

  method Run(json: Json, turns: seq<Turn>, endings: seq<seq<Syscall>>, limits: Limits)
    returns (outcome: Outcome, journal: seq<Event>, rest: seq<Event>, scans: nat, writer: EventWriter,
             ghost sealedAt: Option<nat>)
    requires WellScanned(turns)
    ensures scans <= |turns|
    ensures Accounted(json, journal, rest, writer.Connections(), writer.Wires())
    ensures Numbered(journal) && Signed(journal, limits.session)
    ensures outcome.TimedOut? <==> scans > 0 && ExpiresAt(turns, limits, scans - 1)
    ensures NeverExpires(turns, limits, if outcome.TimedOut? then scans - 1 else scans)
    ensures outcome.TimedOut? ==> Faithful(turns, scans, journal)
    ensures outcome.Raised? ==> RaisedFor(turns, limits, endings, scans, sealedAt, journal)
    ensures NoneRefused(turns, scans)
    ensures outcome.Reported? ==>
              && Waits(turns, limits, scans, sealedAt, outcome.settled)
              && (outcome.settled || scans == |turns|)
              && Ended(turns, scans, outcome.report, journal, rest)
              && IsSeal(turns, sealedAt, sealedAt.Some?, outcome.report.sealReason)
  {
    hide Faithful, Emitted, Reflects, Waits, IsSeal, SealedBefore, Quiet, LastActivity, Ended, ExpiresAt;
    hide Numbered, Accounted;
    hide EventWriter.Keeps, EventWriter.Connections, EventWriter.Wires, EventWriter.Delivered;
    hide LastReady, LastStable, StableAt, SealsAt, RaisedFor, AnyRaises, Raises, Signed;
    var pending: seq<Event>, emitted: map<string, Identity>, sequence: nat, generated: nat := [], map[], 0, 0;
    var previous: map<string, Identity>, previouslyObserved: set<string> := map[], {};
    var lastActivity, activitySeen := limits.started, false;
    var isSealed, sealReason := false, "";
    var delivered: nat, settled, raised := 0, false, false;
    journal, scans, sealedAt := [], 0, None;
    writer := new EventWriter(json);
    FromNothing(turns, limits, writer);
    NoActivity(turns);
    while scans < |turns|
      invariant scans <= |turns|
      invariant Faithful(turns, scans, journal) && Emitted(emitted, journal) && Reflects(emitted, turns, scans)
      invariant writer.Keeps(journal, pending) && writer.json == json && fresh(writer)
      invariant sequence == generated == |journal| && delivered == |writer.Delivered()|
      invariant previous == FilesAt(turns, scans - 1) && previouslyObserved == ObservedAt(turns, scans - 1)
      invariant LastActivity(turns, scans) == if activitySeen then Some(lastActivity) else None
      invariant Waits(turns, limits, scans, sealedAt, false) && IsSeal(turns, sealedAt, isSealed, sealReason)
      invariant !settled && !raised && Numbered(journal) && NeverExpires(turns, limits, scans)
      invariant NoneRefused(turns, scans) && Signed(journal, limits.session)
    {
      var turn := turns[scans];
      if turn.scan.Refused? {
        RefusedFor(turns, limits, endings, scans, sealedAt, journal);
        raised := true;
        break;
      }
      ActivityGrows(turns, scans);
      if turn.scan.observed - previouslyObserved != {} {
        lastActivity, activitySeen := turn.now, true;
      }
      raised, journal, emitted, pending, sequence, generated, delivered :=
        TakeTurn(writer, turns, limits, scans, turn, previous, journal, emitted, pending, sequence, generated,
                 delivered);
      FaithfulNumbered(turns, scans + 1, journal);
      if raised {
        FlushFor(turns, limits, endings, scans, sealedAt, journal);
        break;
      }
      ghost var before := sealedAt;
      assert SealedBefore(turns, limits, scans, before) by { WaitsSealed(turns, limits, scans, before); }
      var postSealScanRequired, expired;
      isSealed, postSealScanRequired, sealReason, expired, sealedAt :=
        LookForSeal(turns, limits, scans, turn, lastActivity, activitySeen, isSealed, sealReason, before);
      if expired {
        rest := pending;
        outcome, scans := TimedOut, scans + 1;
        FaithfulNumbered(turns, scans, journal);
        Leave(writer, journal, rest);
        return;
      }
      var current := turn.scan.files;
      var allStableEventsCreated := forall p | p in current :: Matches(emitted, p, current[p]);
      QuietTurn(turns, scans, current, emitted);
      previous, previouslyObserved := current, turn.scan.observed;
      scans := scans + 1;
      assert isSealed <==> sealedAt.Some? by { IsSealFacts(turns, sealedAt, isSealed, sealReason); }
      WaitsGrows(turns, limits, scans - 1, before, sealedAt,
                 isSealed && !postSealScanRequired && allStableEventsCreated);
      if isSealed {
        if postSealScanRequired {
          postSealScanRequired := false;
        } else if allStableEventsCreated {
          settled := true;
          break;
        }
      }
    }
    rest, outcome := pending, Raised;
    if !raised {
      IsSealFacts(turns, sealedAt, isSealed, sealReason);
      EmittedReflects(turns, scans, emitted, journal);
      var report;
      raised, journal, rest, report :=
        Terminate(writer, turns, scans, journal, pending, sequence, generated, delivered, sealReason, limits.session,
                  endings);
      if raised {
        EndingFor(turns, limits, endings, scans, sealedAt, settled, report, journal, rest);
      } else {
        outcome := Reported(report, settled);
      }
    }
    Leave(writer, journal, rest);
  }

  // ---- What the readers of the connections see ----------------------------------------------------------------

  /** The events that the readers of all connections yield. */
  function ReadAll(json: Json, wires: seq<string>): seq<Event> {
    if wires == [] then [] else ReadAll(json, wires[..|wires| - 1]) + Read(json, wires[|wires| - 1]).events
  }

  lemma OwnEventsIncrease(before: seq<Event>, own: seq<Event>, torn: seq<Event>, journal: seq<Event>)
    requires before + own + torn <= journal && Numbered(journal)
    ensures StrictlyIncreasing(own + torn)
  {
    forall i, j | 0 <= i < j < |own + torn| ensures (own + torn)[i].sequence < (own + torn)[j].sequence {
      assert (own + torn)[i] == journal[|before| + i] && (own + torn)[j] == journal[|before| + j];
    }
  }

  lemma {:induction false} ReadersSeeCarried(json: Json, journal: seq<Event>, connections: seq<Connection>,
                                             wires: seq<string>)
    requires Lawful(json) && Numbered(journal) && InOrder(connections, journal) && Wrote(json, connections, wires)
    ensures |ReadAll(json, wires)| >= |Carried(connections)|
    ensures if exists c :: c in connections && LacksOnlyLineEnd(json, c)
            then |ReadAll(json, wires)| > |Carried(connections)|
            else ReadAll(json, wires) == Carried(connections)
    decreases |connections|
  {
    hide Lawful, StrictlyIncreasing, Read, Bytes;
    if connections != [] {
      var last := |connections| - 1;
      var init, c := connections[..last], connections[last];
      assert wires[last] == Bytes(json, c);
      ReadersSeeCarried(json, journal, init, wires[..last]);
      OwnEventsIncrease(Carried(init), Flatten(c.batches), TornEvents(c), journal);
      ConnectionReads(json, c);
      assert Flatten(c.batches) + [] == Flatten(c.batches);
      assert connections == init + [c];
      if exists d :: d in connections && LacksOnlyLineEnd(json, d) {
        var d :| d in connections && LacksOnlyLineEnd(json, d);
        assert d in init || d == c;
      }
    }
  }

  /** Over all connections of a run, the readers yield the journal without what is still pending, each event once and
      in order, if and only if no connection broke just before the line end of a batch. */
  lemma ReadersSeeTheJournal(json: Json, journal: seq<Event>, rest: seq<Event>, connections: seq<Connection>,
                             wires: seq<string>)
    requires Lawful(json) && Numbered(journal) && Accounted(json, journal, rest, connections, wires)
    ensures ReadAll(json, wires) + rest == journal
       <==> !exists c :: c in connections && LacksOnlyLineEnd(json, c)
  {
    ReadersSeeCarried(json, journal, connections, wires);
    assert |ReadAll(json, wires) + rest| == |ReadAll(json, wires)| + |rest|;
    assert |journal| == |Carried(connections)| + |rest|;
  }

  /** Such a break: of a batch with one event everything was accepted but the line end. The event stays pending, and a
      reader has seen it already. */
  lemma BreakBeforeLineEnd(json: Json, e: Event)
    requires Lawful(json) && e.sequence == 1
    ensures var text := json.encode([e]);
            var c := Connection([], Some(Torn([e], |text|)));
            && Accounted(json, [e], [e], [c], [text])
            && ReadAll(json, [text]) + [e] != [e]
  {
    var text := json.encode([e]);
    var c := Connection([], Some(Torn([e], |text|)));
    assert [c][..0] == [];
    assert WellTorn(json, c) && text[..|text|] == text && Bytes(json, c) == "" + text;
    assert Carried([c]) == [] && Carried([c]) + TornEvents(c) == [e];
    assert InOrder([], [e]) && InOrder([c], [e]);
    assert Wrote(json, [c], [text]);
    assert LacksOnlyLineEnd(json, c) && c in [c];
    ReadersSeeTheJournal(json, [e], [e], [c], [text]);
  }
}
