/** The generated dispatcher that runs requests of different sessions in parallel and those of one session in order.
    Every step of the dispatcher, of a request handler, of a result writer and of a client is one transition, and any
    interleaving of them is a run. Requests are numbered in the order in which the dispatcher reads them. */
module Sessions {
  import opened Options

  /** Where a handler is. Waiting for the predecessor: Created to Draining; clearing its state: Clearing, Removing;
      publishing the result: Spawned to Ready; then Leaving, the `done` mark of the exit trap, and the end. */
  datatype Phase =
    | Created | Entering | Looping | Draining
    | Clearing | Removing
    | Executing
    | Spawned | PidWritten | Ready
    | Leaving | Marked | Exited

  datatype Writer = NotStarted | Alive | ReadByClient | Drained | Killed

  /** `dir`, `done`, `ready`, `writerPid` and `handlerPid` are the request's state directory and the files in it. */
  datatype Request = Request(session: string, previous: Option<nat>, phase: Phase, writer: Writer,
                             dir: bool, done: bool, ready: bool, writerPid: bool, handlerPid: bool)

  datatype Dispatcher =
    | Idle
    | Pruning(session: string, todo: set<string>, removing: Option<string>)
    | Creating(session: string)
    | Registered
    | Started

  datatype State = State(requests: seq<Request>, latest: map<string, nat>, counter: nat, dispatcher: Dispatcher,
                         executions: seq<nat>)

  const INITIAL: State := State([], map[], 0, Idle, [])

  const PRUNE_PERIOD: nat := 64

  datatype Step =
    // dispatcher
    | Arrive(s: string) | PruneSkip(x: string) | PruneFiles(x: string) | PruneDir | PruneEnd
    | Register | Spawn | WriteHandlerPid
    // handler of request r
    | Enter(r: nat) | Check(r: nat) | Presume(r: nat) | StartDrain(r: nat) | Drain(r: nat) | Kill(r: nat)
    | StopDrain(r: nat) | ClearFiles(r: nat) | ClearDir(r: nat) | Publish(r: nat) | WriteWriterPid(r: nat)
    | MarkReady(r: nat) | Reap(r: nat) | MarkDone(r: nat) | Exit(r: nat)
    // client of request r
    | ClientRead(r: nat)

  predicate IsWaiting(p: Phase) { p == Created || p == Entering || p == Looping || p == Draining }

  predicate IsActive(p: Phase) { p == Executing || p == Spawned || p == PidWritten || p == Ready }

  predicate HasEnded(p: Phase) { p == Marked || p == Exited }

  predicate HasFinished(p: Phase) { p == Leaving || HasEnded(p) }

  predicate HasStarted(p: Phase) { IsActive(p) || HasFinished(p) }

  predicate FinishedState(q: Request) { !q.dir || q.done }

  function Put(st: State, r: nat, q: Request): State
    requires r < |st.requests|
  {
    st.(requests := st.requests[r := q])
  }

  predicate At(st: State, r: nat, p: Phase) { r < |st.requests| && st.requests[r].phase == p }

  predicate HasPrevious(st: State, r: nat) {
    r < |st.requests| && st.requests[r].previous.Some? && st.requests[r].previous.value < |st.requests|
  }

  function Previous(st: State, r: nat): nat
    requires HasPrevious(st, r)
  {
    st.requests[r].previous.value
  }

  predicate PruneTurn(st: State, x: string) {
    st.dispatcher.Pruning? && st.dispatcher.removing.None? && x in st.dispatcher.todo
    && x in st.latest && st.latest[x] < |st.requests|
  }

  /** When a step can happen. */
  predicate Enabled(st: State, step: Step) {
    match step
    case Arrive(_) => st.dispatcher.Idle?
    case PruneSkip(x) => PruneTurn(st, x) && !FinishedState(st.requests[st.latest[x]])
    case PruneFiles(x) => PruneTurn(st, x) && FinishedState(st.requests[st.latest[x]])
    case PruneDir =>
      st.dispatcher.Pruning? && st.dispatcher.removing.Some? && st.dispatcher.removing.value in st.latest
      && st.latest[st.dispatcher.removing.value] < |st.requests|
    case PruneEnd => st.dispatcher.Pruning? && st.dispatcher.removing.None? && st.dispatcher.todo == {}
    case Register => st.dispatcher.Creating?
    case Spawn => st.dispatcher.Registered? && st.requests != [] && st.requests[|st.requests| - 1].phase == Created
    case WriteHandlerPid => st.dispatcher.Started? && st.requests != []
    case Enter(r) => At(st, r, Entering)
    case Check(r) => At(st, r, Looping) && HasPrevious(st, r) && FinishedState(st.requests[Previous(st, r)])
    case Presume(r) =>
      At(st, r, Looping) && HasPrevious(st, r)
      && (var q := st.requests[Previous(st, r)]; !FinishedState(q) && q.handlerPid && q.phase == Exited)
    case StartDrain(r) =>
      At(st, r, Looping) && HasPrevious(st, r)
      && (var q := st.requests[Previous(st, r)]; !FinishedState(q) && q.ready && q.writerPid && q.writer == Alive)
    case Drain(r) => At(st, r, Draining) && HasPrevious(st, r) && st.requests[Previous(st, r)].writer == Alive
    case Kill(r) => At(st, r, Draining) && HasPrevious(st, r) && st.requests[Previous(st, r)].writer == Alive
    case StopDrain(r) => At(st, r, Draining)
    case ClearFiles(r) => At(st, r, Clearing) && HasPrevious(st, r)
    case ClearDir(r) => At(st, r, Removing) && HasPrevious(st, r)
    case Publish(r) => At(st, r, Executing)
    case WriteWriterPid(r) => At(st, r, Spawned)
    case MarkReady(r) => At(st, r, PidWritten)
    case Reap(r) => At(st, r, Ready) && st.requests[r].writer != Alive
    case MarkDone(r) => At(st, r, Leaving)
    case Exit(r) => At(st, r, Marked)
    case ClientRead(r) => r < |st.requests| && st.requests[r].writer == Alive
  }

  function WithoutFiles(q: Request): Request {
    q.(done := false, ready := false, writerPid := false, handlerPid := false)
  }

  function Move(st: State, r: nat, p: Phase): State
    requires r < |st.requests|
  {
    Put(st, r, st.requests[r].(phase := p))
  }

  function Begin(st: State, r: nat): State
    requires r < |st.requests|
  {
    Move(st, r, Executing).(executions := st.executions + [r])
  }

  /** What a step does. */
  function Apply(st: State, step: Step): State
    requires Enabled(st, step)
  {
    match step
    case Arrive(s) =>
      var n := st.counter + 1;
      st.(counter := n,
          dispatcher := if n % PRUNE_PERIOD == 0 then Pruning(s, st.latest.Keys, None) else Creating(s))
    case PruneSkip(x) => st.(dispatcher := st.dispatcher.(todo := st.dispatcher.todo - {x}))
    case PruneFiles(x) =>
      Put(st, st.latest[x], WithoutFiles(st.requests[st.latest[x]]))
      .(dispatcher := st.dispatcher.(removing := Some(x)))
    case PruneDir =>
      var x := st.dispatcher.removing.value;
      Put(st, st.latest[x], st.requests[st.latest[x]].(dir := false))
      .(latest := st.latest - {x}, dispatcher := st.dispatcher.(todo := st.dispatcher.todo - {x}, removing := None))
    case PruneEnd => st.(dispatcher := Creating(st.dispatcher.session))
    case Register =>
      var s := st.dispatcher.session;
      var previous := if s in st.latest then Some(st.latest[s]) else None;
      st.(requests := st.requests
            + [Request(s, previous, Created, NotStarted, true, false, false, false, false)],
          latest := st.latest[s := |st.requests|], dispatcher := Registered)
    case Spawn => Move(st, |st.requests| - 1, Entering).(dispatcher := Started)
    case WriteHandlerPid =>
      var r := |st.requests| - 1;
      Put(st, r, st.requests[r].(handlerPid := st.requests[r].dir)).(dispatcher := Idle)
    case Enter(r) =>
      if HasPrevious(st, r) && st.requests[Previous(st, r)].dir then Move(st, r, Looping) else Begin(st, r)
    case Check(r) => Move(st, r, Clearing)
    case Presume(r) =>
      var p := Previous(st, r);
      Put(st, p, st.requests[p].(done := true))
    case StartDrain(r) => Move(st, r, Draining)
    case Drain(r) => Put(st, Previous(st, r), st.requests[Previous(st, r)].(writer := Drained))
    case Kill(r) => Put(st, Previous(st, r), st.requests[Previous(st, r)].(writer := Killed))
    case StopDrain(r) => Move(st, r, Looping)
    case ClearFiles(r) =>
      var p := Previous(st, r);
      Put(Move(st, r, Removing), p, WithoutFiles(Move(st, r, Removing).requests[p]))
    case ClearDir(r) =>
      var p := Previous(st, r);
      Put(Begin(st, r), p, Begin(st, r).requests[p].(dir := false))
    case Publish(r) => Put(st, r, st.requests[r].(phase := Spawned, writer := Alive))
    case WriteWriterPid(r) => Put(st, r, st.requests[r].(phase := PidWritten, writerPid := st.requests[r].dir))
    case MarkReady(r) => Put(st, r, st.requests[r].(phase := Ready, ready := st.requests[r].dir))
    case Reap(r) => Move(st, r, Leaving)
    case MarkDone(r) => Put(st, r, st.requests[r].(phase := Marked, done := st.requests[r].dir))
    case Exit(r) => Move(st, r, Exited)
    case ClientRead(r) => Put(st, r, st.requests[r].(writer := ReadByClient))
  }

  /** A run: steps taken one after the other, each when it is enabled. */
  predicate IsRun(st: State, steps: seq<Step>)
    decreases |steps|
  {
    steps == [] || (Enabled(st, steps[0]) && IsRun(Apply(st, steps[0]), steps[1..]))
  }

  function Final(st: State, steps: seq<Step>): State
    requires IsRun(st, steps)
    decreases |steps|
  {
    if steps == [] then st else Final(Apply(st, steps[0]), steps[1..])
  }

  // ---- What every step keeps --------------------------------------------------------------------------------

  /** A predecessor is the nearest earlier request of the session, and where there is none, all earlier ones ended. */
  ghost predicate Linked(rs: seq<Request>, r: nat)
    requires r < |rs|
  {
    match rs[r].previous
    case None => forall q | 0 <= q < r && rs[q].session == rs[r].session :: HasEnded(rs[q].phase)
    case Some(p) =>
      p < r && rs[p].session == rs[r].session && forall q | p < q < r :: rs[q].session != rs[r].session
  }

  ghost predicate Links(rs: seq<Request>) { forall r | 0 <= r < |rs| :: Linked(rs, r) }

  /** Only an ended request has lost its directory or carries the done mark. */
  ghost predicate Files(rs: seq<Request>) {
    forall r | 0 <= r < |rs| :: FinishedState(rs[r]) ==> HasEnded(rs[r].phase)
  }

  /** Whoever is past waiting has an ended predecessor. */
  ghost predicate Ordered(rs: seq<Request>) {
    forall r | 0 <= r < |rs| && rs[r].previous.Some? && rs[r].previous.value < |rs| ::
      !IsWaiting(rs[r].phase) ==> HasEnded(rs[rs[r].previous.value].phase)
  }

  /** While somebody waits for an ended request, its done mark or the loss of its directory shows it. */
  ghost predicate Visible(rs: seq<Request>) {
    forall r | 0 <= r < |rs| && rs[r].previous.Some? && rs[r].previous.value < |rs| ::
      IsWaiting(rs[r].phase) && HasEnded(rs[rs[r].previous.value].phase) ==> FinishedState(rs[rs[r].previous.value])
  }

  /** The table names the last request of a session; sessions it has forgotten have ended. */
  ghost predicate Table(rs: seq<Request>, latest: map<string, nat>) {
    && (forall x | x in latest ::
          latest[x] < |rs| && rs[latest[x]].session == x && forall q | latest[x] < q < |rs| :: rs[q].session != x)
    && forall r | 0 <= r < |rs| && rs[r].session !in latest :: HasEnded(rs[r].phase)
  }

  /** A handler that is publishing has written what its successor needs to drain it, and one that waits, drains or
      clears has a predecessor. */
  predicate PhaseFits(q: Request) {
    && (q.phase == PidWritten || q.phase == Ready ==> q.writerPid)
    && (q.phase == Ready ==> q.ready)
    && (q.phase == Looping || q.phase == Draining || q.phase == Clearing || q.phase == Removing ==> q.previous.Some?)
  }

  ghost predicate Publishing(rs: seq<Request>) { forall r | 0 <= r < |rs| :: PhaseFits(rs[r]) }

  /** The log holds the started requests, each once, and those of one session in arrival order. */
  ghost predicate Log(rs: seq<Request>, log: seq<nat>) {
    && (forall i | 0 <= i < |log| :: log[i] < |rs| && HasStarted(rs[log[i]].phase))
    && (forall r: nat | r < |rs| && HasStarted(rs[r].phase) :: r in log)
    && (forall i, j | 0 <= i < j < |log| && log[i] < |rs| && log[j] < |rs| ::
          log[i] != log[j] && (rs[log[i]].session == rs[log[j]].session ==> log[i] < log[j]))
  }

  ghost predicate Sound(rs: seq<Request>) {
    Links(rs) && Files(rs) && Ordered(rs) && Visible(rs) && Publishing(rs)
  }

  ghost predicate Dispatching(rs: seq<Request>, latest: map<string, nat>, d: Dispatcher) {
    && (forall r | 0 <= r < |rs| && rs[r].phase == Created :: r == |rs| - 1 && d.Registered?)
    && (d.Registered? ==> rs != [] && rs[|rs| - 1].phase == Created)
    && (d.Started? ==> rs != [])
    && (d.Pruning? ==> d.todo <= latest.Keys)
    && (d.Pruning? && d.removing.Some? ==>
          d.removing.value in latest && latest[d.removing.value] < |rs|
          && HasEnded(rs[latest[d.removing.value]].phase))
  }

  predicate Half(q: Request) { HasEnded(q.phase) && !FinishedState(q) }

  /** The end of the last request of a session shows, except while the dispatcher is removing its state. */
  ghost predicate Marks(rs: seq<Request>, latest: map<string, nat>, d: Dispatcher) {
    forall x | x in latest && latest[x] < |rs| && Half(rs[latest[x]]) :: d.Pruning? && d.removing == Some(x)
  }

  ghost predicate Inv(st: State) {
    && Sound(st.requests) && Table(st.requests, st.latest) && Log(st.requests, st.executions)
    && Dispatching(st.requests, st.latest, st.dispatcher) && Marks(st.requests, st.latest, st.dispatcher)
  }

  ghost predicate NoWaiter(rs: seq<Request>, r: nat) {
    forall n | 0 <= n < |rs| && rs[n].previous == Some(r) :: !IsWaiting(rs[n].phase)
  }

  /** One request may take the record `q` without disturbing the others. */
  ghost predicate Compatible(rs: seq<Request>, r: nat, q: Request)
    requires r < |rs|
  {
    var old_ := rs[r];
    && q.session == old_.session && q.previous == old_.previous
    && (HasEnded(old_.phase) ==> HasEnded(q.phase))
    && (FinishedState(q) ==> HasEnded(q.phase))
    && (IsWaiting(q.phase) ==> IsWaiting(old_.phase))
    && (!IsWaiting(q.phase) && q.previous.Some? && q.previous.value < |rs| ==> HasEnded(rs[q.previous.value].phase))
    && (NoWaiter(rs, r) || (HasEnded(q.phase) ==> FinishedState(q)))
    && PhaseFits(q)
  }

  lemma UpdateKeepsSound(rs: seq<Request>, r: nat, q: Request)
    requires Sound(rs) && r < |rs| && Compatible(rs, r, q)
    ensures Sound(rs[r := q])
  {
    assert Linked(rs, r);
    UpdateKeepsLinks(rs, r, q);
    UpdateKeepsOrder(rs, r, q);
    UpdateKeepsVisible(rs, r, q);
  }

  lemma UpdateKeepsLinks(rs: seq<Request>, r: nat, q: Request)
    requires Links(rs) && r < |rs| && q.session == rs[r].session && q.previous == rs[r].previous
    requires HasEnded(rs[r].phase) ==> HasEnded(q.phase)
    ensures Links(rs[r := q])
  {
    var rs' := rs[r := q];
    forall n | 0 <= n < |rs'| ensures Linked(rs', n) {
      assert Linked(rs, n);
    }
  }

  lemma UpdateKeepsOrder(rs: seq<Request>, r: nat, q: Request)
    requires Ordered(rs) && Files(rs) && Publishing(rs) && r < |rs| && Compatible(rs, r, q)
    requires rs[r].previous != Some(r)
    ensures Ordered(rs[r := q]) && Files(rs[r := q]) && Publishing(rs[r := q])
  {}

  lemma UpdateKeepsVisible(rs: seq<Request>, r: nat, q: Request)
    requires Visible(rs) && r < |rs| && Compatible(rs, r, q) && rs[r].previous != Some(r)
    ensures Visible(rs[r := q])
  {}

  lemma UpdateKeepsTable(rs: seq<Request>, latest: map<string, nat>, r: nat, q: Request)
    requires Table(rs, latest) && r < |rs| && q.session == rs[r].session
    requires HasEnded(rs[r].phase) ==> HasEnded(q.phase)
    ensures Table(rs[r := q], latest)
  {}

  lemma UpdateKeepsLog(rs: seq<Request>, log: seq<nat>, r: nat, q: Request)
    requires Log(rs, log) && r < |rs| && q.session == rs[r].session
    requires HasStarted(rs[r].phase) <==> HasStarted(q.phase)
    ensures Log(rs[r := q], log)
  {}

  lemma UpdateKeepsDispatching(rs: seq<Request>, latest: map<string, nat>, d: Dispatcher, r: nat, q: Request)
    requires Dispatching(rs, latest, d) && Marks(rs, latest, d) && r < |rs|
    requires rs[r].phase == Created <==> q.phase == Created
    requires HasEnded(rs[r].phase) ==> HasEnded(q.phase)
    requires Half(q) ==> Half(rs[r]) || r !in latest.Values
    ensures Dispatching(rs[r := q], latest, d) && Marks(rs[r := q], latest, d)
  {}

  /** A step that rewrites one request and leaves the dispatcher alone. */
  lemma UpdateKeepsInv(st: State, r: nat, q: Request)
    requires Inv(st) && r < |st.requests| && Compatible(st.requests, r, q)
    requires HasStarted(st.requests[r].phase) <==> HasStarted(q.phase)
    requires st.requests[r].phase == Created <==> q.phase == Created
    requires Half(q) ==> Half(st.requests[r]) || r !in st.latest.Values
    ensures Inv(Put(st, r, q))
  {
    hide Sound, Table, Log, NoWaiter, PhaseFits, Dispatching, Marks, Half;
    UpdateKeepsSound(st.requests, r, q);
    UpdateKeepsTable(st.requests, st.latest, r, q);
    UpdateKeepsLog(st.requests, st.executions, r, q);
    UpdateKeepsDispatching(st.requests, st.latest, st.dispatcher, r, q);
  }

  /** Everybody before a started request of the same session has ended. */
  lemma {:induction false} EarlierEnded(rs: seq<Request>, q: nat, r: nat)
    requires Sound(rs) && q < r < |rs| && rs[q].session == rs[r].session
    requires !IsWaiting(rs[r].phase)
    ensures HasEnded(rs[q].phase)
    decreases r
  {
    assert Linked(rs, r);
    if rs[r].previous.Some? {
      var p := rs[r].previous.value;
      assert HasEnded(rs[p].phase);
      if q < p {
        EarlierEnded(rs, q, p);
      }
    }
  }

  lemma LogGrows(rs: seq<Request>, log: seq<nat>, r: nat, q: Request)
    requires Log(rs, log) && r < |rs| && q.session == rs[r].session && HasStarted(q.phase)
    requires forall i | 0 <= i < |log| :: log[i] != r && (rs[log[i]].session == rs[r].session ==> log[i] < r)
    ensures Log(rs[r := q], log + [r])
  {
    var rs', log' := rs[r := q], log + [r];
    forall n: nat | n < |rs'| && HasStarted(rs'[n].phase) ensures n in log' {
      if n == r {
        assert log'[|log|] == r;
      } else {
        assert HasStarted(rs[n].phase) && n in log;
      }
    }
  }

  lemma NotLogged(rs: seq<Request>, log: seq<nat>, r: nat)
    requires Sound(rs) && Log(rs, log) && r < |rs| && !HasStarted(rs[r].phase) && !HasEnded(rs[r].phase)
    ensures forall i | 0 <= i < |log| :: log[i] != r && (rs[log[i]].session == rs[r].session ==> log[i] < r)
  {
    forall i | 0 <= i < |log| ensures log[i] != r && (rs[log[i]].session == rs[r].session ==> log[i] < r) {
      if rs[log[i]].session == rs[r].session && r < log[i] {
        EarlierEnded(rs, r, log[i]);
        assert false;
      }
    }
  }

  lemma BeginKeepsInv(st: State, r: nat)
    requires Inv(st) && r < |st.requests| && !HasStarted(st.requests[r].phase) && st.requests[r].phase != Created
    requires Compatible(st.requests, r, st.requests[r].(phase := Executing))
    ensures Inv(Begin(st, r))
  {
    var rs, log := st.requests, st.executions;
    var q := rs[r].(phase := Executing);
    NotLogged(rs, log, r);
    hide Sound, Table, Log, NoWaiter, Dispatching, Marks;
    UpdateKeepsSound(rs, r, q);
    UpdateKeepsTable(rs, st.latest, r, q);
    UpdateKeepsDispatching(rs, st.latest, st.dispatcher, r, q);
    LogGrows(rs, log, r, q);
  }

  /** The predecessor of `r` has no other successor. */
  lemma OnlySuccessor(rs: seq<Request>, p: nat, r: nat)
    requires Links(rs) && r < |rs| && rs[r].previous == Some(p)
    ensures forall n | 0 <= n < |rs| && rs[n].previous == Some(p) :: n == r
  {
    assert Linked(rs, r);
    forall n | 0 <= n < |rs| && rs[n].previous == Some(p) ensures n == r {
      assert Linked(rs, n);
    }
  }

  /** The last request of a session has no successor. */
  lemma LastHasNone(rs: seq<Request>, latest: map<string, nat>, x: string)
    requires Links(rs) && Table(rs, latest) && x in latest
    ensures NoWaiter(rs, latest[x])
  {
    forall n | 0 <= n < |rs| ensures rs[n].previous != Some(latest[x]) {
      assert Linked(rs, n);
    }
  }

  /** What the invariant says about one request and its predecessor. */
  lemma Facts(st: State, r: nat)
    requires Inv(st) && r < |st.requests|
    ensures PhaseFits(st.requests[r])
    ensures FinishedState(st.requests[r]) ==> HasEnded(st.requests[r].phase)
    ensures st.requests[r].phase == Created ==> st.dispatcher.Registered? && r == |st.requests| - 1
    ensures st.requests[r].previous.Some? ==> HasPrevious(st, r) && Previous(st, r) < r
    ensures HasPrevious(st, r) && !IsWaiting(st.requests[r].phase) ==> HasEnded(st.requests[Previous(st, r)].phase)
    ensures HasPrevious(st, r) && IsWaiting(st.requests[r].phase) && HasEnded(st.requests[Previous(st, r)].phase)
      ==> FinishedState(st.requests[Previous(st, r)])
    ensures HasPrevious(st, r) && FinishedState(st.requests[Previous(st, r)])
      ==> HasEnded(st.requests[Previous(st, r)].phase)
    ensures HasPrevious(st, r) ==> PhaseFits(st.requests[Previous(st, r)])
  {
    assert Linked(st.requests, r);
  }

  /** A predecessor is not the last request of its session. */
  lemma PreviousIsNotLast(st: State, r: nat)
    requires Inv(st) && HasPrevious(st, r)
    ensures Previous(st, r) !in st.latest.Values
  {
    assert Linked(st.requests, r);
  }

  lemma SoleWaiter(st: State, r: nat)
    requires Inv(st) && HasPrevious(st, r) && !IsWaiting(st.requests[r].phase)
    ensures NoWaiter(st.requests, Previous(st, r))
  {
    OnlySuccessor(st.requests, Previous(st, r), r);
  }

  lemma ForgetKeepsTable(rs: seq<Request>, latest: map<string, nat>, x: string)
    requires Sound(rs) && Table(rs, latest) && x in latest && HasEnded(rs[latest[x]].phase)
    ensures Table(rs, latest - {x})
  {
    forall r | 0 <= r < |rs| && rs[r].session !in latest - {x} ensures HasEnded(rs[r].phase) {
      if rs[r].session == x && r < latest[x] {
        EarlierEnded(rs, r, latest[x]);
      }
    }
  }

  lemma PruneFilesKeepsInv(st: State, x: string)
    requires Inv(st) && Enabled(st, PruneFiles(x))
    ensures Inv(Apply(st, PruneFiles(x)))
  {
    var r := st.latest[x];
    var q := WithoutFiles(st.requests[r]);
    Facts(st, r);
    LastHasNone(st.requests, st.latest, x);
    DistinctLast(st, x);
    hide Sound, Table, Log, NoWaiter, PhaseFits;
    UpdateKeepsSound(st.requests, r, q);
    UpdateKeepsTable(st.requests, st.latest, r, q);
    UpdateKeepsLog(st.requests, st.executions, r, q);
    RemovingKeepsDispatching(st, x, q);
  }

  lemma RemovingKeepsDispatching(st: State, x: string, q: Request)
    requires Inv(st) && PruneTurn(st, x) && HasEnded(st.requests[st.latest[x]].phase)
    requires q.phase == st.requests[st.latest[x]].phase
    ensures var rs', d' := st.requests[st.latest[x] := q], st.dispatcher.(removing := Some(x));
            Dispatching(rs', st.latest, d') && Marks(rs', st.latest, d')
  {
    DistinctLast(st, x);
  }

  lemma DistinctLast(st: State, x: string)
    requires Inv(st) && x in st.latest
    ensures forall y | y in st.latest && st.latest[y] == st.latest[x] :: y == x
  {}

  lemma PruneDirKeepsInv(st: State)
    requires Inv(st) && Enabled(st, PruneDir)
    ensures Inv(Apply(st, PruneDir))
  {
    var x := st.dispatcher.removing.value;
    var r := st.latest[x];
    var q := st.requests[r].(dir := false);
    Facts(st, r);
    LastHasNone(st.requests, st.latest, x);
    hide Sound, Table, Log, NoWaiter, PhaseFits;
    UpdateKeepsSound(st.requests, r, q);
    UpdateKeepsTable(st.requests, st.latest, r, q);
    UpdateKeepsLog(st.requests, st.executions, r, q);
    ForgetKeepsTable(st.requests[r := q], st.latest, x);
    ForgettingKeepsDispatching(st, q);
  }

  lemma ForgettingKeepsDispatching(st: State, q: Request)
    requires Inv(st) && Enabled(st, PruneDir)
    requires q == st.requests[st.latest[st.dispatcher.removing.value]].(dir := false)
    ensures var st' := Apply(st, PruneDir);
            Dispatching(st'.requests, st'.latest, st'.dispatcher) && Marks(st'.requests, st'.latest, st'.dispatcher)
  {
    var x := st.dispatcher.removing.value;
    DistinctLast(st, x);
  }

  lemma DispatcherStepKeepsInv(st: State, step: Step)
    requires Inv(st) && Enabled(st, step)
    requires step.Arrive? || step.PruneSkip? || step.PruneEnd? || step.PruneFiles? || step.PruneDir?
    ensures Inv(Apply(st, step))
  {
    match step
    case PruneFiles(x) => PruneFilesKeepsInv(st, x);
    case PruneDir => PruneDirKeepsInv(st);
    case _ =>
  }

  /** A new request whose predecessor is the last of its session, or who has none because the earlier ones ended. */
  lemma AppendKeepsSound(rs: seq<Request>, latest: map<string, nat>, q: Request)
    requires Sound(rs) && Table(rs, latest)
    requires q.previous == if q.session in latest then Some(latest[q.session]) else None
    requires q.phase == Created && q.dir && !q.done
    requires q.session in latest ==> !Half(rs[latest[q.session]])
    ensures Sound(rs + [q])
  {
    var rs' := rs + [q];
    forall r | 0 <= r < |rs'| ensures Linked(rs', r) {
      if r < |rs| {
        assert Linked(rs, r);
      }
    }
    AppendKeepsFiles(rs, q);
    AppendKeepsOrder(rs, q);
  }

  lemma AppendKeepsFiles(rs: seq<Request>, q: Request)
    requires Files(rs) && Publishing(rs) && q.phase == Created && q.dir && !q.done
    ensures Files(rs + [q]) && Publishing(rs + [q])
  {}

  lemma AppendKeepsOrder(rs: seq<Request>, q: Request)
    requires Links(rs) && Ordered(rs) && Visible(rs) && Files(rs) && q.phase == Created
    requires q.previous.Some? && q.previous.value < |rs| && HasEnded(rs[q.previous.value].phase)
      ==> FinishedState(rs[q.previous.value])
    ensures Ordered(rs + [q]) && Visible(rs + [q])
  {
    forall r | 0 <= r < |rs| ensures rs[r].previous.Some? ==> rs[r].previous.value < r {
      assert Linked(rs, r);
    }
  }

  lemma AppendKeepsTable(rs: seq<Request>, latest: map<string, nat>, q: Request)
    requires Table(rs, latest)
    ensures Table(rs + [q], latest[q.session := |rs|])
  {}

  lemma AppendKeepsLog(rs: seq<Request>, log: seq<nat>, q: Request)
    requires Log(rs, log) && !HasStarted(q.phase)
    ensures Log(rs + [q], log)
  {}

  lemma RegisterKeepsInv(st: State)
    requires Inv(st) && Enabled(st, Register)
    ensures Inv(Apply(st, Register))
  {
    assert forall x | x in st.latest :: !Half(st.requests[st.latest[x]]);
    hide Sound, Table, Log;
    var q := Apply(st, Register).requests[|st.requests|];
    AppendKeepsSound(st.requests, st.latest, q);
    AppendKeepsTable(st.requests, st.latest, q);
    AppendKeepsLog(st.requests, st.executions, q);
  }

  lemma SpawnKeepsInv(st: State)
    requires Inv(st) && Enabled(st, Spawn)
    ensures Inv(Apply(st, Spawn))
  {
    hide Sound, Table, Log, NoWaiter;
    var r := |st.requests| - 1;
    var q := st.requests[r].(phase := Entering);
    Facts(st, r);
    UpdateKeepsSound(st.requests, r, q);
    UpdateKeepsTable(st.requests, st.latest, r, q);
    UpdateKeepsLog(st.requests, st.executions, r, q);
  }

  lemma WriteHandlerPidKeepsInv(st: State)
    requires Inv(st) && Enabled(st, WriteHandlerPid)
    ensures Inv(Apply(st, WriteHandlerPid))
  {
    hide Inv, NoWaiter;
    var r := |st.requests| - 1;
    Facts(st, r);
    LikeIsCompatible(st, r, st.requests[r].(handlerPid := st.requests[r].dir));
    PutThenIdle(st, r, st.requests[r].(handlerPid := st.requests[r].dir));
  }

  lemma PutThenIdle(st: State, r: nat, q: Request)
    requires Inv(st) && r < |st.requests| && Compatible(st.requests, r, q) && st.dispatcher.Started?
    requires q.phase == st.requests[r].phase && FinishedState(q) == FinishedState(st.requests[r])
    ensures Inv(Put(st, r, q).(dispatcher := Idle))
  {
    hide Sound, Table, Log, Compatible;
    UpdateKeepsInv(st, r, q);
  }

  /** Entering and leaving the wait for the predecessor. */
  lemma WaitStepKeepsInv(st: State, r: nat, step: Step)
    requires Inv(st) && Enabled(st, step)
    requires step in {Enter(r), Check(r), StartDrain(r), StopDrain(r)}
    ensures Inv(Apply(st, step))
  {
    hide Inv, NoWaiter;
    Facts(st, r);
    var q := st.requests[r];
    if step == Enter(r) {
      if HasPrevious(st, r) && st.requests[Previous(st, r)].dir {
        UpdateKeepsInv(st, r, q.(phase := Looping));
      } else {
        BeginKeepsInv(st, r);
      }
    } else if step == Check(r) {
      UpdateKeepsInv(st, r, q.(phase := Clearing));
    } else if step == StartDrain(r) {
      UpdateKeepsInv(st, r, q.(phase := Draining));
    } else {
      UpdateKeepsInv(st, r, q.(phase := Looping));
    }
  }

  lemma WriterChangeKeepsInv(st: State, r: nat, w: Writer)
    requires Inv(st) && r < |st.requests| && st.requests[r].writer == Alive
    ensures Inv(Put(st, r, st.requests[r].(writer := w)))
  {
    hide Inv, NoWaiter;
    var q := st.requests[r].(writer := w);
    Facts(st, r);
    LikeIsCompatible(st, r, q);
    UpdateKeepsInv(st, r, q);
  }

  /** A record that shows the same to the others. */
  lemma LikeIsCompatible(st: State, r: nat, q: Request)
    requires Inv(st) && r < |st.requests| && PhaseFits(q)
    requires var old_ := st.requests[r];
             && q.session == old_.session && q.previous == old_.previous
             && HasEnded(q.phase) == HasEnded(old_.phase) && FinishedState(q) == FinishedState(old_)
             && IsWaiting(q.phase) == IsWaiting(old_.phase)
    ensures Compatible(st.requests, r, q)
  {
    Facts(st, r);
    forall n | 0 <= n < |st.requests| && st.requests[n].previous == Some(r)
      ensures IsWaiting(st.requests[n].phase) && HasEnded(st.requests[r].phase) ==> FinishedState(st.requests[r]) {
      Facts(st, n);
    }
  }

  /** What a waiting handler does to its predecessor. */
  lemma OnPreviousKeepsInv(st: State, r: nat, step: Step)
    requires Inv(st) && Enabled(st, step) && step in {Presume(r), Drain(r), Kill(r)}
    ensures Inv(Apply(st, step))
  {
    hide Inv, NoWaiter;
    Facts(st, r);
    var p := Previous(st, r);
    var q := st.requests[p];
    Facts(st, p);
    if step == Presume(r) {
      UpdateKeepsInv(st, p, q.(done := true));
    } else {
      WriterChangeKeepsInv(st, p, if step == Drain(r) then Drained else Killed);
    }
  }

  /** An ended predecessor may lose its files and then its directory once its only successor has stopped waiting. */
  lemma ClearPreviousKeepsInv(st: State, r: nat, q: Request)
    requires Inv(st) && HasPrevious(st, r) && !IsWaiting(st.requests[r].phase)
    requires var old_ := st.requests[Previous(st, r)];
             q == WithoutFiles(old_) || q == old_.(dir := false)
    ensures Inv(Put(st, Previous(st, r), q))
  {
    hide Inv, NoWaiter;
    var p := Previous(st, r);
    Facts(st, r);
    Facts(st, p);
    SoleWaiter(st, r);
    PreviousIsNotLast(st, r);
    UpdateKeepsInv(st, p, q);
  }

  lemma ClearStepKeepsInv(st: State, r: nat, step: Step)
    requires Inv(st) && Enabled(st, step) && step in {ClearFiles(r), ClearDir(r)}
    ensures Inv(Apply(st, step))
  {
    hide Inv, NoWaiter;
    Facts(st, r);
    if step == ClearFiles(r) {
      var q := st.requests[r].(phase := Removing);
      LikeIsCompatible(st, r, q);
      UpdateKeepsInv(st, r, q);
      ClearPreviousKeepsInv(Move(st, r, Removing), r, WithoutFiles(st.requests[Previous(st, r)]));
    } else {
      LikeIsCompatible(st, r, st.requests[r].(phase := Executing));
      BeginKeepsInv(st, r);
      ClearPreviousKeepsInv(Begin(st, r), r, st.requests[Previous(st, r)].(dir := false));
    }
  }

  lemma PublishStepKeepsInv(st: State, r: nat, step: Step)
    requires Inv(st) && Enabled(st, step)
    requires step in {Publish(r), WriteWriterPid(r), MarkReady(r), Reap(r)}
    ensures Inv(Apply(st, step))
  {
    hide Inv, NoWaiter;
    Facts(st, r);
    var q := Apply(st, step).requests[r];
    LikeIsCompatible(st, r, q);
    UpdateKeepsInv(st, r, q);
  }

  lemma EndStepKeepsInv(st: State, r: nat, step: Step)
    requires Inv(st) && Enabled(st, step) && step in {MarkDone(r), Exit(r)}
    ensures Inv(Apply(st, step))
  {
    hide Inv, NoWaiter;
    Facts(st, r);
    var q := Apply(st, step).requests[r];
    if step == MarkDone(r) {
      assert !Half(q);
    } else {
      LikeIsCompatible(st, r, q);
    }
    UpdateKeepsInv(st, r, q);
  }

  /** Whatever happens next, the invariant stays. */
  lemma StepKeepsInv(st: State, step: Step)
    requires Inv(st) && Enabled(st, step)
    ensures Inv(Apply(st, step))
  {
    hide Apply, Enabled, Inv;
    match step
    case Register => RegisterKeepsInv(st);
    case Spawn => SpawnKeepsInv(st);
    case WriteHandlerPid => WriteHandlerPidKeepsInv(st);
    case Enter(r) => WaitStepKeepsInv(st, r, step);
    case Check(r) => WaitStepKeepsInv(st, r, step);
    case StartDrain(r) => WaitStepKeepsInv(st, r, step);
    case StopDrain(r) => WaitStepKeepsInv(st, r, step);
    case Presume(r) => OnPreviousKeepsInv(st, r, step);
    case Drain(r) => OnPreviousKeepsInv(st, r, step);
    case Kill(r) => OnPreviousKeepsInv(st, r, step);
    case ClearFiles(r) => ClearStepKeepsInv(st, r, step);
    case ClearDir(r) => ClearStepKeepsInv(st, r, step);
    case ClientRead(r) => ClientReadKeepsInv(st, r);
    case Publish(r) => PublishStepKeepsInv(st, r, step);
    case WriteWriterPid(r) => PublishStepKeepsInv(st, r, step);
    case MarkReady(r) => PublishStepKeepsInv(st, r, step);
    case Reap(r) => PublishStepKeepsInv(st, r, step);
    case MarkDone(r) => EndStepKeepsInv(st, r, step);
    case Exit(r) => EndStepKeepsInv(st, r, step);
    case _ => DispatcherStepKeepsInv(st, step);
  }

  lemma ClientReadKeepsInv(st: State, r: nat)
    requires Inv(st) && Enabled(st, ClientRead(r))
    ensures Inv(Apply(st, ClientRead(r)))
  {
    WriterChangeKeepsInv(st, r, ReadByClient);
  }

  lemma {:induction false} RunKeepsInv(st: State, steps: seq<Step>)
    requires Inv(st) && IsRun(st, steps)
    ensures Inv(Final(st, steps))
    decreases |steps|
  {
    hide Apply, Enabled, Inv;
    if steps != [] {
      StepKeepsInv(st, steps[0]);
      RunKeepsInv(Apply(st, steps[0]), steps[1..]);
    }
  }

  // ---- Safety of every run ----------------------------------------------------------------------------------

  ghost predicate Reachable(st: State) {
    exists steps :: IsRun(INITIAL, steps) && Final(INITIAL, steps) == st
  }

  lemma ReachableInv(st: State)
    requires Reachable(st)
    ensures Inv(st)
  {
    var steps :| IsRun(INITIAL, steps) && Final(INITIAL, steps) == st;
    RunKeepsInv(INITIAL, steps);
  }

  /** A request starts only after every earlier request of its session has ended. */
  lemma StartsInTurn(st: State, q: nat, r: nat)
    requires Reachable(st) && q < r < |st.requests| && st.requests[q].session == st.requests[r].session
    ensures HasStarted(st.requests[r].phase) ==> HasEnded(st.requests[q].phase)
  {
    hide Reachable, Table, Log, Dispatching, Marks, Links, Ordered, Files, Visible, Publishing;
    ReachableInv(st);
    if HasStarted(st.requests[r].phase) {
      EarlierEnded(st.requests, q, r);
    }
  }

  /** At most one request of a session is executing or publishing. */
  lemma AtMostOneActive(st: State, q: nat, r: nat)
    requires Reachable(st) && q < |st.requests| && r < |st.requests|
    requires st.requests[q].session == st.requests[r].session
    requires IsActive(st.requests[q].phase) && IsActive(st.requests[r].phase)
    ensures q == r
  {
    if q < r {
      StartsInTurn(st, q, r);
    } else if r < q {
      StartsInTurn(st, r, q);
    }
  }

  /** The finished requests of a session are a prefix of its arrivals. */
  lemma FinishedIsPrefix(st: State, q: nat, r: nat)
    requires Reachable(st) && q < r < |st.requests| && st.requests[q].session == st.requests[r].session
    ensures HasFinished(st.requests[r].phase) ==> HasFinished(st.requests[q].phase)
  {
    StartsInTurn(st, q, r);
  }

  /** Every request executes at most once, and those of one session in arrival order. */
  lemma ExecutesInArrivalOrder(st: State, i: nat, j: nat)
    requires Reachable(st) && i < j < |st.executions|
    ensures st.executions[i] < |st.requests| && st.executions[j] < |st.requests|
    ensures st.executions[i] != st.executions[j]
    ensures st.requests[st.executions[i]].session == st.requests[st.executions[j]].session
      ==> st.executions[i] < st.executions[j]
  {
    ReachableInv(st);
    assert Log(st.requests, st.executions);
  }

  lemma ExecutedIffStarted(st: State, r: nat)
    requires Reachable(st) && r < |st.requests|
    ensures r in st.executions <==> HasStarted(st.requests[r].phase)
  {
    ReachableInv(st);
    assert Log(st.requests, st.executions);
  }

  /** Pruning and state removal touch ended requests only: the directory of any other request is there. */
  lemma StateOutlivesRequest(st: State, r: nat)
    requires Reachable(st) && r < |st.requests|
    ensures !HasEnded(st.requests[r].phase) ==> st.requests[r].dir && !st.requests[r].done
  {
    ReachableInv(st);
    Facts(st, r);
  }

  // ---- Discarded results ------------------------------------------------------------------------------------

  ghost predicate HasSuccessor(rs: seq<Request>, r: nat) {
    exists n | 0 <= n < |rs| :: rs[n].previous == Some(r)
  }

  predicate IsDiscarded(w: Writer) { w == Drained || w == Killed }

  ghost predicate Discards(rs: seq<Request>) {
    forall r: nat | r < |rs| && IsDiscarded(rs[r].writer) :: HasSuccessor(rs, r)
  }

  lemma UpdateKeepsDiscards(rs: seq<Request>, r: nat, q: Request)
    requires Discards(rs) && r < |rs| && q.previous == rs[r].previous
    requires IsDiscarded(q.writer) ==> HasSuccessor(rs, r)
    ensures Discards(rs[r := q])
  {
    var rs' := rs[r := q];
    forall p: nat | p < |rs'| && IsDiscarded(rs'[p].writer) ensures HasSuccessor(rs', p) {
      assert HasSuccessor(rs, p);
      var n :| 0 <= n < |rs| && rs[n].previous == Some(p);
      assert rs'[n].previous == Some(p);
    }
  }

  lemma UpdateSame(rs: seq<Request>, r: nat, q: Request)
    requires Discards(rs) && r < |rs| && q.previous == rs[r].previous
    requires IsDiscarded(q.writer) ==> IsDiscarded(rs[r].writer)
    ensures Discards(rs[r := q])
  {
    UpdateKeepsDiscards(rs, r, q);
  }

  lemma AppendKeepsDiscards(rs: seq<Request>, q: Request)
    requires Discards(rs) && !IsDiscarded(q.writer)
    ensures Discards(rs + [q])
  {
    var rs' := rs + [q];
    forall p: nat | p < |rs'| && IsDiscarded(rs'[p].writer) ensures HasSuccessor(rs', p) {
      assert HasSuccessor(rs, p);
      var n :| 0 <= n < |rs| && rs[n].previous == Some(p);
      assert rs'[n].previous == Some(p);
    }
  }

  lemma ClearKeepsDiscards(st: State, r: nat, step: Step)
    requires Discards(st.requests) && Enabled(st, step) && step in {ClearFiles(r), ClearDir(r)}
    ensures Discards(Apply(st, step).requests)
  {
    hide Discards;
    var p := Previous(st, r);
    var mid := st.requests[r := st.requests[r].(phase := if step == ClearFiles(r) then Removing else Executing)];
    UpdateSame(st.requests, r, mid[r]);
    UpdateSame(mid, p, Apply(st, step).requests[p].(phase := mid[p].phase));
    assert Apply(st, step).requests == mid[p := Apply(st, step).requests[p]];
    UpdateSame(mid, p, Apply(st, step).requests[p]);
  }

  lemma DrainKeepsDiscards(st: State, r: nat, w: Writer)
    requires Discards(st.requests) && HasPrevious(st, r)
    ensures var p := Previous(st, r); Discards(st.requests[p := st.requests[p].(writer := w)])
  {
    var p := Previous(st, r);
    assert st.requests[r].previous == Some(p);
    UpdateKeepsDiscards(st.requests, p, st.requests[p].(writer := w));
  }

  /** The request that a step rewrites when it rewrites one only and discards nothing. */
  function Rewritten(st: State, step: Step): Option<nat>
    requires Enabled(st, step)
  {
    match step
    case PruneFiles(x) => Some(st.latest[x])
    case PruneDir => Some(st.latest[st.dispatcher.removing.value])
    case Spawn => Some(|st.requests| - 1)
    case WriteHandlerPid => Some(|st.requests| - 1)
    case Enter(r) => Some(r) case Check(r) => Some(r) case StartDrain(r) => Some(r) case StopDrain(r) => Some(r)
    case Presume(r) => Some(Previous(st, r))
    case Publish(r) => Some(r) case WriteWriterPid(r) => Some(r) case MarkReady(r) => Some(r)
    case Reap(r) => Some(r) case MarkDone(r) => Some(r) case Exit(r) => Some(r) case ClientRead(r) => Some(r)
    case _ => None
  }

  lemma RewritesOne(st: State, step: Step)
    requires Enabled(st, step) && Rewritten(st, step).Some?
    ensures var r := Rewritten(st, step).value;
            var rs' := Apply(st, step).requests;
            r < |st.requests| == |rs'| && rs' == st.requests[r := rs'[r]]
            && rs'[r].previous == st.requests[r].previous
            && (IsDiscarded(rs'[r].writer) ==> IsDiscarded(st.requests[r].writer))
  {}

  lemma StepKeepsDiscards(st: State, step: Step)
    requires Discards(st.requests) && Enabled(st, step)
    ensures Discards(Apply(st, step).requests)
  {
    hide Discards;
    if Rewritten(st, step).Some? {
      RewritesOne(st, step);
      var r := Rewritten(st, step).value;
      UpdateSame(st.requests, r, Apply(st, step).requests[r]);
    } else {
      match step
      case Register => AppendKeepsDiscards(st.requests, Apply(st, step).requests[|st.requests|]);
      case ClearFiles(r) => ClearKeepsDiscards(st, r, step);
      case ClearDir(r) => ClearKeepsDiscards(st, r, step);
      case Drain(r) => DrainKeepsDiscards(st, r, Drained);
      case Kill(r) => DrainKeepsDiscards(st, r, Killed);
      case _ =>
    }
  }

  lemma {:induction false} RunKeepsDiscards(st: State, steps: seq<Step>)
    requires Discards(st.requests) && IsRun(st, steps)
    ensures Discards(Final(st, steps).requests)
    decreases |steps|
  {
    hide Apply, Enabled, Discards;
    if steps != [] {
      StepKeepsDiscards(st, steps[0]);
      RunKeepsDiscards(Apply(st, steps[0]), steps[1..]);
    }
  }

  /** A result is thrown away only for a later request of the same session. */
  lemma DiscardedForSuccessor(st: State, r: nat)
    requires Reachable(st) && r < |st.requests| && IsDiscarded(st.requests[r].writer)
    ensures exists n | r < n < |st.requests| :: st.requests[n].session == st.requests[r].session
  {
    ReachableInv(st);
    var steps :| IsRun(INITIAL, steps) && Final(INITIAL, steps) == st;
    RunKeepsDiscards(INITIAL, steps);
    var n :| 0 <= n < |st.requests| && st.requests[n].previous == Some(r);
    assert Linked(st.requests, n);
  }
}
