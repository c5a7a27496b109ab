/** Adding many files at once: a reader deals out the announced files to workers, each with a queue of its own, and a
    collector records and publishes their outcomes. Every interleaving of the threads is a run. */
module BulkAdd {
  import opened Options
  import opened EventProtocol

  datatype Task = File(sequence: nat, path: string) | TerminateWorker

  datatype Outcome = Outcome(sequence: nat, path: string, added: bool)

  datatype Message = Done(outcome: Outcome) | TerminateCollector

  datatype Worker = Worker(queue: seq<Task>, holding: Option<Task>, exited: bool)

  /** Where the main thread is; `k` counts the queues or the threads that it has dealt with. */
  datatype Phase = Dealing | Stopping(k: nat) | JoiningQueues(k: nat) | JoiningThreads(k: nat) | Collecting | Ended

  datatype Terminal = Terminal(sequence: nat, addedCount: nat, failedCount: nat)

  /** `collected` keeps the order in which outcomes were recorded; the program itself only has the two lists. */
  datatype State = State(stream: seq<Event>, position: nat, sequence: nat, phase: Phase, aborted: bool,
                         workers: seq<Worker>,
                         outcomes: seq<Message>, collecting: Option<Outcome>, collectorDone: bool,
                         deliveryAvailable: bool, published: seq<Outcome>, collected: seq<Outcome>,
                         added: seq<Outcome>, failed: seq<Outcome>,
                         terminal: Option<Terminal>)

  const IDLE_WORKER: Worker := Worker([], None, false)

  function Initial(stream: seq<Event>, workerCount: nat): State {
    State(stream, 0, 0, Dealing, false, seq(workerCount, i => IDLE_WORKER), [], None, false, true, [], [], [], [], None)
  }

  datatype Step =
    // the main thread; the reader of the stream can fail
    | Deal | EndOfStream | ReaderFails | PutMarker | JoinQueue | JoinThread | StopCollector | Finish
    // worker i
    | Get(i: nat) | Process(i: nat, success: bool) | Exit(i: nat)
    // the collector; `ok` is whether the outcome could be published
    | Collect | Record(ok: bool) | CollectorReturns

  predicate WorkerCanGet(w: Worker) { !w.exited && w.holding.None? && w.queue != [] }

  predicate Enabled(st: State, step: Step) {
    match step
    case Deal => st.phase == Dealing && st.position < |st.stream| && st.workers != []
    case EndOfStream => st.phase == Dealing && st.position >= |st.stream|
    case ReaderFails => st.phase == Dealing
    case PutMarker => st.phase.Stopping? && st.phase.k < |st.workers|
    case JoinQueue =>
      st.phase.JoiningQueues? && st.phase.k < |st.workers|
      && st.workers[st.phase.k].queue == [] && st.workers[st.phase.k].holding.None?
    case JoinThread => st.phase.JoiningThreads? && st.phase.k < |st.workers| && st.workers[st.phase.k].exited
    case StopCollector => st.phase.JoiningThreads? && st.phase.k >= |st.workers|
    case Finish => st.phase == Collecting && st.collectorDone && st.outcomes == [] && st.collecting.None?
    case Get(i) => i < |st.workers| && WorkerCanGet(st.workers[i])
    case Process(i, _) => i < |st.workers| && st.workers[i].holding.Some? && st.workers[i].holding.value.File?
    case Exit(i) => i < |st.workers| && st.workers[i].holding == Some(TerminateWorker)
    case Collect => !st.collectorDone && st.collecting.None? && st.outcomes != [] && st.outcomes[0].Done?
    case Record(_) => st.collecting.Some?
    case CollectorReturns =>
      !st.collectorDone && st.collecting.None? && st.outcomes != [] && st.outcomes[0] == TerminateCollector
  }

  function Enqueue(w: Worker, task: Task): Worker { w.(queue := w.queue + [task]) }

  function Put(st: State, i: nat, w: Worker): State
    requires i < |st.workers|
  {
    st.(workers := st.workers[i := w])
  }

  function Apply(st: State, step: Step): State
    requires Enabled(st, step)
  {
    match step
    case Deal =>
      var event := st.stream[st.position];
      if !event.Ready? then st.(position := st.position + 1)
      else
        var i := st.sequence % |st.workers|;
        Put(st, i, Enqueue(st.workers[i], File(st.sequence + 1, event.path))).(
          position := st.position + 1, sequence := st.sequence + 1)
    case EndOfStream => st.(phase := Stopping(0))
    case ReaderFails => st.(phase := Stopping(0), aborted := true)
    case PutMarker =>
      var k := st.phase.k;
      Put(st, k, Enqueue(st.workers[k], TerminateWorker)).(
        phase := if k + 1 == |st.workers| then JoiningQueues(0) else Stopping(k + 1))
    case JoinQueue =>
      st.(phase := if st.phase.k + 1 == |st.workers| then JoiningThreads(0) else JoiningQueues(st.phase.k + 1))
    case JoinThread => st.(phase := JoiningThreads(st.phase.k + 1))
    case StopCollector => st.(phase := Collecting, outcomes := st.outcomes + [TerminateCollector])
    case Finish =>
      st.(phase := Ended,
          terminal := if st.aborted then None else Some(Terminal(st.sequence + 1, |st.added|, |st.failed|)))
    case Get(i) =>
      var w := st.workers[i];
      Put(st, i, w.(queue := w.queue[1..], holding := Some(w.queue[0])))
    case Process(i, success) =>
      var w := st.workers[i];
      Put(st, i, w.(holding := None)).(
        outcomes := st.outcomes + [Done(Outcome(w.holding.value.sequence, w.holding.value.path, success))])
    case Exit(i) => Put(st, i, st.workers[i].(holding := None, exited := true))
    case Collect => st.(outcomes := st.outcomes[1..], collecting := Some(st.outcomes[0].outcome))
    case Record(ok) =>
      var o := st.collecting.value;
      st.(collecting := None, collected := st.collected + [o],
          published := if st.deliveryAvailable && ok then st.published + [o] else st.published,
          deliveryAvailable := st.deliveryAvailable && ok,
          added := if o.added then st.added + [o] else st.added,
          failed := if o.added then st.failed else st.failed + [o])
    case CollectorReturns => st.(outcomes := st.outcomes[1..], collectorDone := true)
  }

  predicate IsRun(st: State, steps: seq<Step>)
    decreases |steps|
  {
    steps == [] || (Enabled(st, steps[0]) && IsRun(Apply(st, steps[0]), steps[1..]))
  }

  function Final(st: State, steps: seq<Step>): State
    requires IsRun(st, steps)
    decreases |steps|
  {
    if steps == [] then st else Final(Apply(st, steps[0]), steps[1..])
  }

  // ---- The specification --------------------------------------------------------------------------------------

  /** The paths of the announced files, in order. */
  function Paths(events: seq<Event>): seq<string> {
    if events == [] then []
    else
      var e := events[|events| - 1];
      Paths(events[..|events| - 1]) + if e.Ready? then [e.path] else []
  }

  /** The tasks of worker `i` of `w`: every `w`-th path, numbered from one. */
  function Assigned(paths: seq<string>, w: nat, i: nat): seq<Task>
    requires w > 0
  {
    if paths == [] then []
    else
      var n := |paths| - 1;
      Assigned(paths[..n], w, i) + if n % w == i then [File(n + 1, paths[n])] else []
  }

  function Files(queue: seq<Task>): seq<Task> {
    if queue == [] then []
    else Files(queue[..|queue| - 1]) + if queue[|queue| - 1].File? then [queue[|queue| - 1]] else []
  }

  function Held(holding: Option<Task>): seq<Task> { if holding.Some? then [holding.value] else [] }

  function OutcomesOf(messages: seq<Message>): seq<Outcome> {
    if messages == [] then []
    else
      OutcomesOf(messages[..|messages| - 1])
      + if messages[|messages| - 1].Done? then [messages[|messages| - 1].outcome] else []
  }

  /** The tasks of worker `i` of `w` that outcomes are about. */
  function Resolved(outcomes: seq<Outcome>, w: nat, i: nat): seq<Task>
    requires w > 0
  {
    if outcomes == [] then []
    else
      var o := outcomes[|outcomes| - 1];
      Resolved(outcomes[..|outcomes| - 1], w, i)
      + if (o.sequence - 1) % w == i then [File(o.sequence, o.path)] else []
  }

  function Select(outcomes: seq<Outcome>, added: bool): seq<Outcome> {
    if outcomes == [] then []
    else
      var o := outcomes[|outcomes| - 1];
      Select(outcomes[..|outcomes| - 1], added) + if o.added == added then [o] else []
  }

  /** All outcomes that workers have produced, in the order in which they did. */
  function Produced(st: State): seq<Outcome> {
    st.collected + (if st.collecting.Some? then [st.collecting.value] else []) + OutcomesOf(st.outcomes)
  }

  predicate NoMarker(queue: seq<Task>) { forall task | task in queue :: task.File? }

  /** The marker is behind all files of its queue, and the worker is gone once it took the marker. */
  predicate MarkerFits(w: Worker, marked: bool) {
    if !marked then !w.exited && w.holding != Some(TerminateWorker) && NoMarker(w.queue)
    else if w.exited then w.queue == [] && w.holding.None?
    else if w.holding == Some(TerminateWorker) then w.queue == []
    else w.queue != [] && w.queue[|w.queue| - 1] == TerminateWorker && NoMarker(w.queue[..|w.queue| - 1])
  }

  /** The paths that have been dealt out. */
  function Dealt(st: State): seq<string>
    requires st.position <= |st.stream|
  {
    Paths(st.stream[..st.position])
  }

  predicate Balanced(resolved: seq<Task>, w: Worker, due: seq<Task>) {
    resolved + Files(Held(w.holding)) + Files(w.queue) == due
  }

  /** In the worker's order, its tasks are resolved, in its hands, or in its queue. */
  ghost predicate Flows(st: State, i: nat)
    requires i < |st.workers| && st.position <= |st.stream|
  {
    Balanced(Resolved(Produced(st), |st.workers|, i), st.workers[i], Assigned(Dealt(st), |st.workers|, i))
  }

  predicate Marked(phase: Phase, i: nat) {
    match phase
    case Dealing => false
    case Stopping(k) => i < k
    case _ => true
  }

  predicate NoCollectorMarker(messages: seq<Message>) { forall m | m in messages :: m.Done? }

  predicate CollectorFits(st: State) {
    if !(st.phase == Collecting || st.phase == Ended) then !st.collectorDone && NoCollectorMarker(st.outcomes)
    else if st.collectorDone then st.outcomes == [] && st.collecting.None?
    else st.phase == Collecting && st.outcomes != [] && st.outcomes[|st.outcomes| - 1] == TerminateCollector
         && NoCollectorMarker(st.outcomes[..|st.outcomes| - 1])
  }

  predicate PhaseFits(st: State) {
    && (st.phase.Stopping? ==> st.phase.k < |st.workers|)
    && (st.phase.JoiningQueues? ==>
          st.phase.k < |st.workers| && forall i | 0 <= i < st.phase.k :: st.workers[i].exited)
    && (st.phase.JoiningThreads? ==> st.phase.k <= |st.workers|)
    && (st.phase.JoiningThreads? || st.phase == Collecting || st.phase == Ended ==>
          forall i | 0 <= i < |st.workers| :: st.workers[i].exited)
  }

  predicate Recorded(st: State) {
    && st.added == Select(st.collected, true) && st.failed == Select(st.collected, false)
    && st.published <= st.collected
    && (st.deliveryAvailable ==> st.published == st.collected)
  }

  predicate EndFits(st: State) {
    && (st.phase != Dealing && !st.aborted ==> st.position == |st.stream|)
    && (st.phase != Ended ==> st.terminal.None?)
    && (st.phase == Ended ==>
          st.terminal == if st.aborted then None else Some(Terminal(st.sequence + 1, |st.added|, |st.failed|)))
  }

  ghost predicate Inv(st: State) {
    && st.workers != [] && st.position <= |st.stream|
    && st.sequence == |Dealt(st)|
    && (forall i | 0 <= i < |st.workers| :: Flows(st, i))
    && (forall i | 0 <= i < |st.workers| :: MarkerFits(st.workers[i], Marked(st.phase, i)))
    && CollectorFits(st) && PhaseFits(st) && Recorded(st) && EndFits(st)
  }

  // ---- Every step keeps the invariant -------------------------------------------------------------------------

  lemma {:induction false} FilesConcat(a: seq<Task>, b: seq<Task>)
    ensures Files(a + b) == Files(a) + Files(b)
    decreases |b|
  {
    if b == [] {
      assert a + b == a;
    } else {
      var n := |b| - 1;
      assert (a + b)[..|a + b| - 1] == a + b[..n] && (a + b)[|a + b| - 1] == b[n];
      FilesConcat(a, b[..n]);
    }
  }

  lemma {:induction false} OutcomesConcat(a: seq<Message>, b: seq<Message>)
    ensures OutcomesOf(a + b) == OutcomesOf(a) + OutcomesOf(b)
    decreases |b|
  {
    if b == [] {
      assert a + b == a;
    } else {
      var n := |b| - 1;
      assert (a + b)[..|a + b| - 1] == a + b[..n] && (a + b)[|a + b| - 1] == b[n];
      OutcomesConcat(a, b[..n]);
    }
  }

  lemma FilesOne(task: Task)
    ensures Files([task]) == if task.File? then [task] else []
  {
    assert [task][..0] == [];
  }

  lemma OutcomesOne(m: Message)
    ensures OutcomesOf([m]) == if m.Done? then [m.outcome] else []
  {
    assert [m][..0] == [];
  }

  lemma ResolvedGrows(outcomes: seq<Outcome>, o: Outcome, w: nat, i: nat)
    requires w > 0
    ensures Resolved(outcomes + [o], w, i)
         == Resolved(outcomes, w, i) + if (o.sequence - 1) % w == i then [File(o.sequence, o.path)] else []
  {
    assert (outcomes + [o])[..|outcomes|] == outcomes;
  }

  lemma SelectGrows(outcomes: seq<Outcome>, o: Outcome, added: bool)
    ensures Select(outcomes + [o], added) == Select(outcomes, added) + if o.added == added then [o] else []
  {
    assert (outcomes + [o])[..|outcomes|] == outcomes;
  }

  lemma BalancedEnqueue(resolved: seq<Task>, w: Worker, due: seq<Task>, task: Task)
    requires Balanced(resolved, w, due)
    ensures Balanced(resolved, Enqueue(w, task), due + if task.File? then [task] else [])
  {
    FilesConcat(w.queue, [task]);
    FilesOne(task);
    var before := resolved + Files(Held(w.holding));
    assert before + (Files(w.queue) + Files([task])) == before + Files(w.queue) + Files([task]);
    assert due + [] == due;
  }

  lemma DealtGrows(st: State)
    requires st.position < |st.stream|
    ensures Paths(st.stream[..st.position + 1])
         == Paths(st.stream[..st.position])
            + if st.stream[st.position].Ready? then [st.stream[st.position].path] else []
  {
    assert st.stream[..st.position + 1][..st.position] == st.stream[..st.position];
  }

  lemma AssignedGrows(paths: seq<string>, path: string, w: nat, i: nat)
    requires w > 0
    ensures Assigned(paths + [path], w, i)
         == Assigned(paths, w, i) + if |paths| % w == i then [File(|paths| + 1, path)] else []
  {
    assert (paths + [path])[..|paths|] == paths;
  }

  lemma DealFlows(st: State, i: nat)
    requires Inv(st) && Enabled(st, Deal) && i < |st.workers|
    ensures Flows(Apply(st, Deal), i)
  {
    hide Files, Resolved, Assigned, Paths, OutcomesOf;
    var event := st.stream[st.position];
    DealtGrows(st);
    assert Flows(st, i);
    assert Dealt(st) + [] == Dealt(st);
    if event.Ready? {
      AssignedGrows(Dealt(st), event.path, |st.workers|, i);
      BalancedEnqueue(Resolved(Produced(st), |st.workers|, i), st.workers[i], Assigned(Dealt(st), |st.workers|, i),
                      File(st.sequence + 1, event.path));
    }
  }

  lemma DealKeepsInv(st: State)
    requires Inv(st) && Enabled(st, Deal)
    ensures Inv(Apply(st, Deal))
  {
    hide Files, Resolved, Assigned, Paths, OutcomesOf, Flows, Select;
    var st' := Apply(st, Deal);
    DealtGrows(st);
    forall i | 0 <= i < |st'.workers| ensures Flows(st', i) {
      DealFlows(st, i);
    }
    forall i | 0 <= i < |st'.workers| ensures MarkerFits(st'.workers[i], Marked(st'.phase, i)) {
      assert MarkerFits(st.workers[i], Marked(st.phase, i));
    }
  }

  lemma PutMarkerKeepsInv(st: State)
    requires Inv(st) && Enabled(st, PutMarker)
    ensures Inv(Apply(st, PutMarker))
  {
    hide Files, Resolved, Assigned, Paths, OutcomesOf, Select;
    var st' := Apply(st, PutMarker);
    forall i | 0 <= i < |st'.workers| ensures Flows(st', i) && MarkerFits(st'.workers[i], Marked(st'.phase, i)) {
      assert Flows(st, i) && MarkerFits(st.workers[i], Marked(st.phase, i));
      var w := st.workers[i];
      BalancedEnqueue(Resolved(Produced(st), |st.workers|, i), w, Assigned(Dealt(st), |st.workers|, i),
                      TerminateWorker);
      assert Enqueue(w, TerminateWorker).queue[..|w.queue|] == w.queue;
      assert Assigned(Dealt(st), |st.workers|, i) + [] == Assigned(Dealt(st), |st.workers|, i);
    }
  }

  lemma MainKeepsInv(st: State, step: Step)
    requires Inv(st) && Enabled(st, step)
    requires step.EndOfStream? || step.ReaderFails? || step.JoinQueue? || step.JoinThread? || step.Finish?
    ensures Inv(Apply(st, step))
  {
    hide Files, Resolved, Assigned, Paths, OutcomesOf, Select;
    var st' := Apply(st, step);
    forall i | 0 <= i < |st'.workers| ensures Flows(st', i) && MarkerFits(st'.workers[i], Marked(st'.phase, i)) {
      assert Flows(st, i) && MarkerFits(st.workers[i], Marked(st.phase, i));
    }
  }

  lemma StopCollectorKeepsInv(st: State)
    requires Inv(st) && Enabled(st, StopCollector)
    ensures Inv(Apply(st, StopCollector))
  {
    hide Files, Resolved, Assigned, Paths, OutcomesOf, Select;
    var st' := Apply(st, StopCollector);
    OutcomesConcat(st.outcomes, [TerminateCollector]);
    OutcomesOne(TerminateCollector);
    assert OutcomesOf(st.outcomes) + [] == OutcomesOf(st.outcomes);
    assert Produced(st') == Produced(st);
    assert st'.outcomes[..|st.outcomes|] == st.outcomes;
    forall i | 0 <= i < |st'.workers| ensures Flows(st', i) && MarkerFits(st'.workers[i], Marked(st'.phase, i)) {
      assert Flows(st, i) && MarkerFits(st.workers[i], Marked(st.phase, i));
    }
  }

  lemma BalancedGet(resolved: seq<Task>, w: Worker, due: seq<Task>)
    requires Balanced(resolved, w, due) && WorkerCanGet(w)
    ensures Balanced(resolved, w.(queue := w.queue[1..], holding := Some(w.queue[0])), due)
  {
    assert w.queue == [w.queue[0]] + w.queue[1..];
    FilesConcat([w.queue[0]], w.queue[1..]);
    assert resolved + [] == resolved && Files([]) == [];
    assert resolved + (Files([w.queue[0]]) + Files(w.queue[1..]))
        == resolved + Files([w.queue[0]]) + Files(w.queue[1..]);
  }

  lemma MarkerGet(w: Worker, marked: bool)
    requires MarkerFits(w, marked) && WorkerCanGet(w)
    ensures MarkerFits(w.(queue := w.queue[1..], holding := Some(w.queue[0])), marked)
  {
    var last := |w.queue| - 1;
    assert w.queue[0] in w.queue;
    if marked && last > 0 {
      assert w.queue[0] == w.queue[..last][0] && w.queue[0] in w.queue[..last];
      assert w.queue[1..][..last - 1] == w.queue[..last][1..];
    }
  }

  /** What worker `i` does with its row is seen by nobody else. */
  lemma RowKeepsInv(st: State, i: nat, w: Worker)
    requires Inv(st) && i < |st.workers|
    requires Balanced(Resolved(Produced(st), |st.workers|, i), w, Assigned(Dealt(st), |st.workers|, i))
    requires MarkerFits(w, Marked(st.phase, i)) && (st.workers[i].exited ==> w.exited)
    ensures Inv(Put(st, i, w))
  {
    hide Files, Resolved, Assigned, Paths, OutcomesOf, Select, Balanced;
    var st' := Put(st, i, w);
    assert Produced(st') == Produced(st);
    forall j | 0 <= j < |st'.workers| ensures Flows(st', j) && MarkerFits(st'.workers[j], Marked(st'.phase, j)) {
      assert Flows(st, j) && MarkerFits(st.workers[j], Marked(st.phase, j));
    }
  }

  lemma GetKeepsInv(st: State, i: nat)
    requires Inv(st) && Enabled(st, Get(i))
    ensures Inv(Apply(st, Get(i)))
  {
    assert Flows(st, i) && MarkerFits(st.workers[i], Marked(st.phase, i));
    var w := st.workers[i];
    BalancedGet(Resolved(Produced(st), |st.workers|, i), w, Assigned(Dealt(st), |st.workers|, i));
    MarkerGet(w, Marked(st.phase, i));
    RowKeepsInv(st, i, w.(queue := w.queue[1..], holding := Some(w.queue[0])));
  }

  lemma ExitKeepsInv(st: State, i: nat)
    requires Inv(st) && Enabled(st, Exit(i))
    ensures Inv(Apply(st, Exit(i)))
  {
    assert Flows(st, i) && MarkerFits(st.workers[i], Marked(st.phase, i));
    var w := st.workers[i];
    assert Held(w.holding) == [TerminateWorker] && Held(None) == [];
    FilesOne(TerminateWorker);
    RowKeepsInv(st, i, w.(holding := None, exited := true));
  }

  /** The `k`-th path is the task of worker `(k - 1) % w`, of no other, and only once. */
  lemma {:induction false} AssignedOnce(paths: seq<string>, w: nat, i: nat, k: int)
    requires w > 0
    ensures forall task | task in Assigned(paths, w, i) ::
              task.File? && 1 <= task.sequence <= |paths| && task.path == paths[task.sequence - 1]
              && (task.sequence - 1) % w == i
    ensures 1 <= k <= |paths| ==>
              multiset(Assigned(paths, w, i))[File(k, paths[k - 1])] == if (k - 1) % w == i then 1 else 0
  {
    if paths != [] {
      var n := |paths| - 1;
      AssignedOnce(paths[..n], w, i, k);
      var before, own := Assigned(paths[..n], w, i), if n % w == i then [File(n + 1, paths[n])] else [];
      assert multiset(before + own) == multiset(before) + multiset(own);
      if k == n + 1 {
        assert File(k, paths[n]) !in before;
      }
    }
  }

  lemma BalancedProcess(resolved: seq<Task>, w: Worker, due: seq<Task>)
    requires Balanced(resolved, w, due) && w.holding.Some? && w.holding.value.File?
    ensures w.holding.value in due
    ensures Balanced(resolved + [w.holding.value], w.(holding := None), due)
  {
    FilesOne(w.holding.value);
    assert Held(w.holding) == [w.holding.value];
    assert (resolved + [w.holding.value] + Files(w.queue))[|resolved|] == w.holding.value;
    assert resolved + [w.holding.value] + [] == resolved + [w.holding.value];
  }

  lemma ProcessProduces(st: State, i: nat, success: bool)
    requires Enabled(st, Process(i, success))
    ensures Produced(Apply(st, Process(i, success)))
         == Produced(st) + [Outcome(st.workers[i].holding.value.sequence, st.workers[i].holding.value.path, success)]
  {
    var task := st.workers[i].holding.value;
    var o := Outcome(task.sequence, task.path, success);
    OutcomesConcat(st.outcomes, [Done(o)]);
    OutcomesOne(Done(o));
    var before := st.collected + (if st.collecting.Some? then [st.collecting.value] else []);
    assert before + (OutcomesOf(st.outcomes) + [o]) == before + OutcomesOf(st.outcomes) + [o];
  }

  lemma ProcessFlows(st: State, i: nat, success: bool, j: nat)
    requires Inv(st) && Enabled(st, Process(i, success)) && j < |st.workers|
    ensures Flows(Apply(st, Process(i, success)), j)
    ensures MarkerFits(Apply(st, Process(i, success)).workers[j], Marked(st.phase, j))
  {
    hide Files, Resolved, Assigned, Paths, OutcomesOf, Select, Balanced, Produced, CollectorFits, Recorded, EndFits;
    var w, task := |st.workers|, st.workers[i].holding.value;
    assert Flows(st, i) && MarkerFits(st.workers[i], Marked(st.phase, i));
    assert Flows(st, j) && MarkerFits(st.workers[j], Marked(st.phase, j));
    BalancedProcess(Resolved(Produced(st), w, i), st.workers[i], Assigned(Dealt(st), w, i));
    AssignedOnce(Dealt(st), w, i, 0);
    assert (task.sequence - 1) % w == i;
    ProcessProduces(st, i, success);
    ResolvedGrows(Produced(st), Outcome(task.sequence, task.path, success), w, j);
    assert Resolved(Produced(st), w, j) + [] == Resolved(Produced(st), w, j);
  }

  lemma ProcessKeepsInv(st: State, i: nat, success: bool)
    requires Inv(st) && Enabled(st, Process(i, success))
    ensures Inv(Apply(st, Process(i, success)))
  {
    hide Resolved, Assigned, Paths, OutcomesOf, Select, Balanced, Produced, Flows, Recorded, EndFits, MarkerFits;
    var st' := Apply(st, Process(i, success));
    assert st.phase != Collecting && st.phase != Ended by {
      assert MarkerFits(st.workers[i], Marked(st.phase, i));
      HoldingIsAlive(st.workers[i], Marked(st.phase, i));
    }
    assert Recorded(st') && EndFits(st') by { SameRecords(st, st'); }
    forall j | 0 <= j < |st'.workers| ensures Flows(st', j) && MarkerFits(st'.workers[j], Marked(st'.phase, j)) {
      ProcessFlows(st, i, success, j);
    }
    assert forall j | 0 <= j < |st'.workers| :: st'.workers[j].exited == st.workers[j].exited;
  }

  lemma HoldingIsAlive(w: Worker, marked: bool)
    requires MarkerFits(w, marked) && w.holding.Some?
    ensures !w.exited
  {}

  lemma SameRecords(st: State, st': State)
    requires st' == st.(workers := st'.workers, outcomes := st'.outcomes) && Recorded(st) && EndFits(st)
    ensures Recorded(st') && EndFits(st')
  {}

  lemma CollectorKeepsRows(st: State, st': State)
    requires Inv(st) && st'.workers == st.workers && Produced(st') == Produced(st) && st'.phase == st.phase
    requires st'.stream == st.stream && st'.position == st.position
    ensures forall i | 0 <= i < |st.workers| :: Flows(st', i)
  {
    hide Files, Resolved, Assigned, Paths, OutcomesOf, Select, Balanced, Produced;
    forall i | 0 <= i < |st.workers| ensures Flows(st', i) {
      assert Flows(st, i);
    }
  }

  lemma MessagesTail(messages: seq<Message>)
    requires messages != []
    ensures OutcomesOf(messages)
         == (if messages[0].Done? then [messages[0].outcome] else []) + OutcomesOf(messages[1..])
  {
    assert messages == [messages[0]] + messages[1..];
    OutcomesConcat([messages[0]], messages[1..]);
    OutcomesOne(messages[0]);
  }

  lemma CollectKeepsInv(st: State)
    requires Inv(st) && Enabled(st, Collect)
    ensures Inv(Apply(st, Collect))
  {
    hide Files, Resolved, Assigned, Paths, OutcomesOf, Select, Balanced, Flows;
    var st' := Apply(st, Collect);
    MessagesTail(st.outcomes);
    assert st.collected + [] == st.collected;
    assert st.collected + ([st.outcomes[0].outcome] + OutcomesOf(st.outcomes[1..]))
        == st.collected + [st.outcomes[0].outcome] + OutcomesOf(st.outcomes[1..]);
    CollectorKeepsRows(st, st');
    var last := |st.outcomes| - 1;
    if st.phase == Collecting {
      assert st'.outcomes[..last - 1] == st.outcomes[..last][1..];
    }
  }

  lemma RecordKeepsInv(st: State, ok: bool)
    requires Inv(st) && Enabled(st, Record(ok))
    ensures Inv(Apply(st, Record(ok)))
  {
    hide Files, Resolved, Assigned, Paths, OutcomesOf, Select, Balanced, Flows;
    var st', o := Apply(st, Record(ok)), st.collecting.value;
    assert st.collected + [o] + [] == st.collected + [o];
    CollectorKeepsRows(st, st');
    SelectGrows(st.collected, o, true);
    SelectGrows(st.collected, o, false);
    assert st.added + [] == st.added && st.failed + [] == st.failed;
  }

  lemma CollectorReturnsKeepsInv(st: State)
    requires Inv(st) && Enabled(st, CollectorReturns)
    ensures Inv(Apply(st, CollectorReturns))
  {
    hide Files, Resolved, Assigned, Paths, OutcomesOf, Select, Balanced, Flows;
    var st' := Apply(st, CollectorReturns);
    MessagesTail(st.outcomes);
    assert [] + OutcomesOf(st.outcomes[1..]) == OutcomesOf(st.outcomes[1..]);
    CollectorKeepsRows(st, st');
    FirstIn(st.outcomes);
  }

  lemma FirstIn(messages: seq<Message>)
    requires messages != []
    ensures messages[0] in messages
    ensures |messages| > 1 ==> messages[0] in messages[..|messages| - 1]
  {
    assert |messages| > 1 ==> messages[..|messages| - 1][0] == messages[0];
  }

  lemma StepKeepsInv(st: State, step: Step)
    requires Inv(st) && Enabled(st, step)
    ensures Inv(Apply(st, step))
  {
    hide Inv, Enabled, Apply;
    match step
    case Deal => DealKeepsInv(st);
    case PutMarker => PutMarkerKeepsInv(st);
    case StopCollector => StopCollectorKeepsInv(st);
    case Get(i) => GetKeepsInv(st, i);
    case Process(i, success) => ProcessKeepsInv(st, i, success);
    case Exit(i) => ExitKeepsInv(st, i);
    case Collect => CollectKeepsInv(st);
    case Record(ok) => RecordKeepsInv(st, ok);
    case CollectorReturns => CollectorReturnsKeepsInv(st);
    case _ => MainKeepsInv(st, step);
  }

  lemma {:induction false} RunKeepsInv(st: State, steps: seq<Step>)
    requires Inv(st) && IsRun(st, steps)
    ensures Inv(Final(st, steps))
    decreases |steps|
  {
    hide Inv, Enabled, Apply;
    if steps != [] {
      StepKeepsInv(st, steps[0]);
      RunKeepsInv(Apply(st, steps[0]), steps[1..]);
    }
  }

  lemma InitialInv(stream: seq<Event>, workerCount: nat)
    requires workerCount > 0
    ensures Inv(Initial(stream, workerCount))
  {}

  // ---- The properties of whole runs ---------------------------------------------------------------------------

  /** How many outcomes are about number `k`. */
  function Times(outcomes: seq<Outcome>, k: int): nat {
    if outcomes == [] then 0
    else Times(outcomes[..|outcomes| - 1], k) + if outcomes[|outcomes| - 1].sequence == k then 1 else 0
  }

  lemma {:induction false} SelectTimes(outcomes: seq<Outcome>, k: int)
    ensures Times(outcomes, k) == Times(Select(outcomes, true), k) + Times(Select(outcomes, false), k)
    ensures |outcomes| == |Select(outcomes, true)| + |Select(outcomes, false)|
  {
    if outcomes != [] {
      var front, o := outcomes[..|outcomes| - 1], outcomes[|outcomes| - 1];
      SelectTimes(front, k);
      TimesGrows(Select(front, o.added), o, k);
      assert Select(front, !o.added) + [] == Select(front, !o.added);
    }
  }

  lemma TimesGrows(outcomes: seq<Outcome>, o: Outcome, k: int)
    ensures Times(outcomes + [o], k) == Times(outcomes, k) + if o.sequence == k then 1 else 0
  {
    assert (outcomes + [o])[..|outcomes|] == outcomes;
  }

  function CountNumber(tasks: seq<Task>, k: int): nat {
    if tasks == [] then 0
    else
      var task := tasks[|tasks| - 1];
      CountNumber(tasks[..|tasks| - 1], k) + if task.File? && task.sequence == k then 1 else 0
  }

  lemma CountGrows(tasks: seq<Task>, task: Task, k: int)
    ensures CountNumber(tasks + [task], k) == CountNumber(tasks, k) + if task.File? && task.sequence == k then 1 else 0
    ensures tasks + [] == tasks
  {
    assert (tasks + [task])[..|tasks|] == tasks;
  }

  /** Number `k` is looked for among the tasks of its own worker. */
  lemma {:induction false} ResolvedTimes(outcomes: seq<Outcome>, w: nat, i: nat, k: int)
    requires w > 0 && i == (k - 1) % w
    ensures Times(outcomes, k) == CountNumber(Resolved(outcomes, w, i), k)
  {
    hide CountNumber;
    if outcomes != [] {
      var front, o := outcomes[..|outcomes| - 1], outcomes[|outcomes| - 1];
      ResolvedTimes(front, w, i, k);
      CountGrows(Resolved(front, w, i), File(o.sequence, o.path), k);
    } else {
      CountNone(k);
    }
  }

  lemma CountNone(k: int)
    ensures CountNumber([], k) == 0
  {}

  lemma {:induction false} AssignedCount(paths: seq<string>, w: nat, i: nat, k: int)
    requires w > 0 && i == (k - 1) % w
    ensures CountNumber(Assigned(paths, w, i), k) == if 1 <= k <= |paths| then 1 else 0
  {
    hide CountNumber;
    if paths != [] {
      var n := |paths| - 1;
      AssignedCount(paths[..n], w, i, k);
      CountGrows(Assigned(paths[..n], w, i), File(n + 1, paths[n]), k);
    } else {
      CountNone(k);
    }
  }

  /** The numbers 1 to n are each resolved once, and nothing else is. */
  ghost predicate EachOnce(added: seq<Outcome>, failed: seq<Outcome>, n: nat) {
    forall k: int :: Times(added, k) + Times(failed, k) == if 1 <= k <= n then 1 else 0
  }

  /** An outcome names the file that it is about. */
  ghost predicate AboutItsFile(outcomes: seq<Outcome>, paths: seq<string>) {
    forall o | o in outcomes :: 1 <= o.sequence <= |paths| && o.path == paths[o.sequence - 1]
  }

  /** At the end all queues are empty, so what has been resolved by each worker is its list of tasks, in order. */
  lemma EndedRows(st: State, i: nat)
    requires Inv(st) && st.phase == Ended && i < |st.workers|
    ensures Resolved(st.collected, |st.workers|, i) == Assigned(Dealt(st), |st.workers|, i)
  {
    hide Resolved, Assigned, Paths;
    assert Flows(st, i) && MarkerFits(st.workers[i], Marked(st.phase, i));
    assert Held(None) == [] && Files([]) == [] && OutcomesOf([]) == [];
    assert st.collected + [] + [] == st.collected;
    var resolved := Resolved(st.collected, |st.workers|, i);
    assert resolved + [] + [] == resolved;
  }

  lemma {:induction false} ResolvedHas(outcomes: seq<Outcome>, w: nat, o: Outcome)
    requires w > 0 && o in outcomes
    ensures File(o.sequence, o.path) in Resolved(outcomes, w, (o.sequence - 1) % w)
  {
    var front, last := outcomes[..|outcomes| - 1], outcomes[|outcomes| - 1];
    if o != last {
      assert o in front;
      ResolvedHas(front, w, o);
    }
  }

  lemma {:induction false} SelectHas(outcomes: seq<Outcome>, added: bool)
    ensures forall o | o in Select(outcomes, added) :: o in outcomes && o.added == added
  {
    if outcomes != [] {
      SelectHas(outcomes[..|outcomes| - 1], added);
    }
  }

  /** When a run has ended, however its threads were scheduled and however many workers there were, every dealt file
      has exactly one outcome; each worker resolved its files in their order; what was published is the beginning of
      what was collected; and unless the reader failed, all files were dealt and the terminal record follows them. */
  lemma EndedRun(stream: seq<Event>, workerCount: nat, steps: seq<Step>)
    requires workerCount > 0 && IsRun(Initial(stream, workerCount), steps)
    requires Final(Initial(stream, workerCount), steps).phase == Ended
    ensures var st := Final(Initial(stream, workerCount), steps);
            && st.position <= |st.stream| && EachOnce(st.added, st.failed, |Dealt(st)|)
            && AboutItsFile(st.added, Dealt(st)) && AboutItsFile(st.failed, Dealt(st))
            && (forall o | o in st.added :: o.added) && (forall o | o in st.failed :: !o.added)
            && st.published <= st.collected
            && st.added == Select(st.collected, true) && st.failed == Select(st.collected, false)
            && |st.workers| == workerCount
            && (forall i | 0 <= i < workerCount ::
                  Resolved(st.collected, workerCount, i) == Assigned(Dealt(st), workerCount, i))
            && (if st.aborted then st.terminal.None?
                else Dealt(st) == Paths(stream)
                     && st.terminal == Some(Terminal(|Paths(stream)| + 1, |st.added|, |st.failed|)))
  {
    hide Inv, IsRun, Final, Resolved, Assigned, Select, Times, Apply, Enabled;
    var st := Final(Initial(stream, workerCount), steps);
    InitialInv(stream, workerCount);
    RunKeepsInv(Initial(stream, workerCount), steps);
    RunKeepsStream(Initial(stream, workerCount), steps);
    EndedFacts(st);
    forall k: int ensures Times(st.added, k) + Times(st.failed, k) == if 1 <= k <= |Dealt(st)| then 1 else 0 {
      EndedTimes(st, k);
    }
    EndedPaths(st);
    SelectHas(st.collected, true);
    SelectHas(st.collected, false);
    forall i | 0 <= i < workerCount
      ensures Resolved(st.collected, workerCount, i) == Assigned(Dealt(st), workerCount, i)
    {
      EndedRows(st, i);
    }
  }

  lemma EndedFacts(st: State)
    requires Inv(st) && st.phase == Ended
    ensures st.position <= |st.stream| && st.workers != []
    ensures Recorded(st) && EndFits(st) && st.sequence == |Dealt(st)|
    ensures !st.aborted ==> st.stream[..st.position] == st.stream
  {}

  lemma EndedTimes(st: State, k: int)
    requires Inv(st) && st.phase == Ended
    ensures Times(st.added, k) + Times(st.failed, k) == if 1 <= k <= |Dealt(st)| then 1 else 0
  {
    hide Inv, Resolved, Assigned, Times;
    EndedFacts(st);
    var w := |st.workers|;
    EndedRows(st, (k - 1) % w);
    ResolvedTimes(st.collected, w, (k - 1) % w, k);
    AssignedCount(Dealt(st), w, (k - 1) % w, k);
    SelectTimes(st.collected, k);
  }

  lemma EndedPaths(st: State)
    requires Inv(st) && st.phase == Ended
    ensures AboutItsFile(st.added, Dealt(st)) && AboutItsFile(st.failed, Dealt(st))
  {
    hide Inv, Resolved, Assigned, Select;
    EndedFacts(st);
    var w := |st.workers|;
    SelectHas(st.collected, true);
    SelectHas(st.collected, false);
    forall o | o in st.collected ensures 1 <= o.sequence <= |Dealt(st)| && o.path == Dealt(st)[o.sequence - 1] {
      EndedRows(st, (o.sequence - 1) % w);
      ResolvedHas(st.collected, w, o);
      AssignedOnce(Dealt(st), w, (o.sequence - 1) % w, 0);
    }
  }

  lemma {:induction false} RunKeepsStream(st: State, steps: seq<Step>)
    requires IsRun(st, steps)
    ensures Final(st, steps).stream == st.stream && |Final(st, steps).workers| == |st.workers|
    decreases |steps|
  {
    if steps != [] {
      var next := Apply(st, steps[0]);
      assert next.stream == st.stream && |next.workers| == |st.workers|;
      RunKeepsStream(next, steps[1..]);
    }
  }

  // ---- Every run comes to its end -----------------------------------------------------------------------------

  function Load(w: Worker): nat { 4 * |w.queue| + if w.holding.Some? then 3 else 0 }

  function TotalLoad(workers: seq<Worker>): nat {
    if workers == [] then 0 else TotalLoad(workers[..|workers| - 1]) + Load(workers[|workers| - 1])
  }

  lemma {:induction false} TotalLoadUpdate(workers: seq<Worker>, i: nat, w: Worker)
    requires i < |workers|
    ensures TotalLoad(workers[i := w]) == TotalLoad(workers) - Load(workers[i]) + Load(w)
  {
    var last := |workers| - 1;
    if i == last {
      assert workers[i := w][..last] == workers[..last];
    } else {
      TotalLoadUpdate(workers[..last], i, w);
      assert workers[i := w][..last] == workers[..last][i := w];
    }
  }

  /** What the main thread still has to do, counting the markers that it has yet to put. */
  function Ahead(phase: Phase, workerCount: nat): int {
    match phase
    case Dealing => 7 * workerCount + 6
    case Stopping(k) => 5 * (workerCount - k) + 2 * workerCount + 5
    case JoiningQueues(k) => workerCount - k + workerCount + 5
    case JoiningThreads(k) => workerCount - k + 4
    case Collecting => 1
    case Ended => 0
  }

  function Remaining(st: State): int {
    5 * (|st.stream| - st.position) + TotalLoad(st.workers) + 2 * |st.outcomes|
    + (if st.collecting.Some? then 1 else 0) + Ahead(st.phase, |st.workers|)
  }

  lemma ThreadGetsNearer(st: State, step: Step)
    requires Inv(st) && Enabled(st, step)
    requires step.Get? || step.Process? || step.Exit? || step.PutMarker?
    ensures Remaining(Apply(st, step)) < Remaining(st)
  {
    hide Flows, MarkerFits, Recorded, CollectorFits, EndFits, Dealt, TotalLoad;
    match step
    case PutMarker => TotalLoadUpdate(st.workers, st.phase.k, Enqueue(st.workers[st.phase.k], TerminateWorker));
    case Get(i) =>
      var w := st.workers[i];
      TotalLoadUpdate(st.workers, i, w.(queue := w.queue[1..], holding := Some(w.queue[0])));
    case Process(i, _) => TotalLoadUpdate(st.workers, i, st.workers[i].(holding := None));
    case Exit(i) => TotalLoadUpdate(st.workers, i, st.workers[i].(holding := None, exited := true));
  }

  lemma DealGetsNearer(st: State)
    requires Inv(st) && Enabled(st, Deal)
    ensures Remaining(Apply(st, Deal)) < Remaining(st)
  {
    hide Flows, MarkerFits, Recorded, CollectorFits, EndFits, Dealt, TotalLoad, PhaseFits;
    if st.stream[st.position].Ready? {
      var i := st.sequence % |st.workers|;
      TotalLoadUpdate(st.workers, i, Enqueue(st.workers[i], File(st.sequence + 1, st.stream[st.position].path)));
    }
  }

  lemma StepGetsNearer(st: State, step: Step)
    requires Inv(st) && Enabled(st, step)
    ensures Remaining(Apply(st, step)) < Remaining(st)
  {
    hide Flows, MarkerFits, Recorded, CollectorFits, EndFits, Dealt, TotalLoad;
    if step.Get? || step.Process? || step.Exit? || step.PutMarker? {
      ThreadGetsNearer(st, step);
    } else if step.Deal? {
      DealGetsNearer(st);
    }
  }

  lemma RemainingIsNat(st: State)
    requires Inv(st)
    ensures Remaining(st) >= 0
  {
    hide Flows, MarkerFits, Recorded, CollectorFits, EndFits, Dealt;
  }

  /** No interleaving goes on for longer than the events and the workers allow. */
  lemma {:induction false} RunsAreBounded(st: State, steps: seq<Step>)
    requires Inv(st) && IsRun(st, steps)
    ensures |steps| <= Remaining(st)
    decreases |steps|
  {
    hide Inv, Enabled, Apply, Remaining;
    RemainingIsNat(st);
    if steps != [] {
      StepGetsNearer(st, steps[0]);
      StepKeepsInv(st, steps[0]);
      RunsAreBounded(Apply(st, steps[0]), steps[1..]);
    }
  }

  /** What worker `i` can do next, unless it waits for a task or has returned. */
  function NextOf(w: Worker, i: nat): Step {
    if w.holding.None? then Get(i) else if w.holding.value.File? then Process(i, true) else Exit(i)
  }

  lemma WorkerCanMove(st: State, i: nat)
    requires Inv(st) && i < |st.workers| && Marked(st.phase, i) && !st.workers[i].exited
    ensures Enabled(st, NextOf(st.workers[i], i))
  {
    hide Flows, Recorded, CollectorFits, EndFits, Dealt;
    assert MarkerFits(st.workers[i], Marked(st.phase, i));
  }

  /** The threads never wait for one another in a circle: short of the end there is a step to take. */
  lemma NeverStuck(st: State) returns (step: Step)
    requires Inv(st) && st.phase != Ended
    ensures Enabled(st, step)
  {
    hide Flows, Recorded, EndFits, Dealt;
    match st.phase
    case Dealing => step := if st.position < |st.stream| then Deal else EndOfStream;
    case Stopping(_) => step := PutMarker;
    case JoiningQueues(k) =>
      if st.workers[k].exited {
        assert MarkerFits(st.workers[k], Marked(st.phase, k));
        step := JoinQueue;
      } else {
        WorkerCanMove(st, k);
        step := NextOf(st.workers[k], k);
      }
    case JoiningThreads(k) => step := if k == |st.workers| then StopCollector else JoinThread;
    case Collecting =>
      step := if st.collectorDone then Finish
              else if st.collecting.Some? then Record(true)
              else if st.outcomes[0].Done? then Collect
              else CollectorReturns;
  }
}
