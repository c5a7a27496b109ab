/** Once the scanner of a directory upload has left its loop, the upload comes to its end. */
module UploadProgress {
  import opened Sequences
  import opened DirectoryUpload
  import UploadPool

  type Pool = UploadPool.Pool
  type Item = UploadPool.Item
  type Worker = UploadPool.Worker

  // ---- Markers ------------------------------------------------------------------------------------------------

  function Markers(queue: seq<Item>): nat {
    if queue == [] then 0 else Markers(queue[1..]) + One(queue[0].Marker?)
  }

  function ReturnedOnes(workers: seq<Worker>): nat {
    if workers == [] then 0 else ReturnedOnes(workers[1..]) + One(workers[0].Returned?)
  }

  function MarkersPut(st: State): nat {
    match st.scanner.phase
    case PuttingMarkers(k) => k
    case Joining => |st.pool.workers|
    case Done => |st.pool.workers|
    case _ => 0
  }

  /** Each marker that was put is in the queue or has been taken by a worker, which returned. */
  ghost predicate MarkersFit(st: State) {
    && st.pool.capacity > 0
    && Markers(st.pool.queue) + ReturnedOnes(st.pool.workers) == MarkersPut(st)
    && (st.scanner.phase.PuttingMarkers? ==>
          st.scanner.phase.k < |st.pool.workers| || (|st.pool.workers| == 0 && st.scanner.phase.k == 0))
  }

  lemma {:induction false} MarkersGrow(queue: seq<Item>, item: Item)
    ensures Markers(queue + [item]) == Markers(queue) + One(item.Marker?)
  {
    if queue == [] {
      assert (queue + [item])[1..] == [];
    } else {
      assert (queue + [item])[1..] == queue[1..] + [item] && (queue + [item])[0] == queue[0];
      MarkersGrow(queue[1..], item);
    }
  }

  lemma {:induction false} TurnReturned(workers: seq<Worker>, w: nat, state: Worker)
    requires w < |workers|
    ensures ReturnedOnes(workers[w := state]) + One(workers[w].Returned?)
         == ReturnedOnes(workers) + One(state.Returned?)
    decreases |workers|
  {
    var workers' := workers[w := state];
    if w == 0 {
      assert workers'[1..] == workers[1..];
    } else {
      TurnReturned(workers[1..], w - 1, state);
      assert workers'[1..] == workers[1..][w - 1 := state];
    }
  }

  lemma WorkKeepsMarkers(pool: Pool, step: UploadPool.WorkerStep)
    requires UploadPool.Enabled(pool, step)
    ensures var pool' := UploadPool.Apply(pool, step);
            && Markers(pool'.queue) + ReturnedOnes(pool'.workers) == Markers(pool.queue) + ReturnedOnes(pool.workers)
            && |pool'.workers| == |pool.workers| && pool'.capacity == pool.capacity
  {
    TurnReturned(pool.workers, step.w, UploadPool.Apply(pool, step).workers[step.w]);
  }

  lemma StepKeepsMarkers(st: State, step: Step)
    requires MarkersFit(st) && Enabled(st, step)
    ensures MarkersFit(Apply(st, step))
  {
    hide AllowedBytes, AllowedNames, HasRemaining, WellWalked;
    match step
    case Work(s) => WorkKeepsMarkers(st.pool, s);
    case PutMarker => MarkersGrow(st.pool.queue, UploadPool.Marker);
    case PutFile => MarkersGrow(st.pool.queue, UploadPool.File(st.scanner.phase.order[st.scanner.phase.i]));
    case _ =>
  }

  lemma {:induction false} RunKeepsMarkers(st: State, steps: seq<Step>)
    requires MarkersFit(st) && IsRun(st, steps)
    ensures MarkersFit(Final(st, steps))
    decreases |steps|
  {
    hide MarkersFit, Enabled, Apply;
    if steps != [] {
      StepKeepsMarkers(st, steps[0]);
      RunKeepsMarkers(Apply(st, steps[0]), steps[1..]);
    }
  }

  lemma {:induction false} NoneReturned(workers: seq<Worker>)
    requires forall w | w in workers :: w == UploadPool.Waiting
    ensures ReturnedOnes(workers) == 0
  {
    if workers != [] {
      assert workers[0] in workers && forall w | w in workers[1..] :: w in workers;
      NoneReturned(workers[1..]);
    }
  }

  lemma ReachableMarkers(st: State)
    requires Reachable(st)
    ensures MarkersFit(st)
  {
    hide MarkersFit, IsRun, Final, Initial;
    var limits, workers, tolerant, steps :|
      && IsRun(Initial(limits, workers, tolerant), steps)
      && st == Final(Initial(limits, workers, tolerant), steps);
    InitialMarkers(limits, workers, tolerant);
    RunKeepsMarkers(Initial(limits, workers, tolerant), steps);
  }

  lemma InitialMarkers(limits: Limits, workers: nat, tolerant: bool)
    ensures MarkersFit(Initial(limits, workers, tolerant))
  {
    NoneReturned(Initial(limits, workers, tolerant).pool.workers);
  }

  // ---- Something can always happen ----------------------------------------------------------------------------

  function NextWork(worker: Worker, w: nat): UploadPool.WorkerStep {
    match worker
    case Took(_) => UploadPool.Activate(w)
    case Uploading(_) => UploadPool.Fail(w)
    case Failing => UploadPool.Signal(w)
    case Recorded => UploadPool.Release(w)
    case Released => UploadPool.TaskDone(w)
    case _ => UploadPool.Get(w)
  }

  /** A worker that has not returned can go on unless it waits and the queue is empty. */
  lemma WorkerGoesOn(st: State, w: nat)
    requires w < |st.pool.workers| && !st.pool.workers[w].Returned?
    requires st.pool.workers[w].Waiting? ==> st.pool.queue != []
    ensures Enabled(st, Work(NextWork(st.pool.workers[w], w)))
  {}

  lemma {:induction false} FindBusy(workers: seq<Worker>) returns (w: nat)
    requires UploadPool.Busy(workers) > 0
    ensures w < |workers| && UploadPool.IsBusy(workers[w])
  {
    if UploadPool.IsBusy(workers[0]) {
      w := 0;
    } else {
      w := FindBusy(workers[1..]);
      w := w + 1;
    }
  }

  lemma {:induction false} FindUnreturned(workers: seq<Worker>) returns (w: nat)
    requires ReturnedOnes(workers) < |workers|
    ensures w < |workers| && !workers[w].Returned?
  {
    if !workers[0].Returned? {
      w := 0;
    } else {
      w := FindUnreturned(workers[1..]);
      w := w + 1;
    }
  }

  /** Once the loop has been left, something other than a signal can happen until the upload is done. There is at least
      one worker. */
  lemma NeverStuck(st: State)
    requires Reachable(st) && |st.pool.workers| > 0 && HasLeft(st.scanner.phase) && st.scanner.phase != Done
    ensures exists step: Step :: !step.Stop? && Enabled(st, step)
  {
    hide Reachable;
    ReachableInv(st);
    ReachableMarkers(st);
    match st.scanner.phase
    case Leaving =>
      if st.pool.unfinished == 0 {
        assert Enabled(st, JoinTasks);
      } else if UploadPool.Busy(st.pool.workers) > 0 {
        var w := FindBusy(st.pool.workers);
        WorkerGoesOn(st, w);
      } else {
        QueueNotEmpty(st.pool);
        var w := FindUnreturned(st.pool.workers);
        WorkerGoesOn(st, w);
      }
    case PuttingMarkers(k) =>
      if UploadPool.CanPut(st.pool) {
        assert Enabled(st, PutMarker);
      } else {
        var w := FindUnreturned(st.pool.workers);
        WorkerGoesOn(st, w);
      }
    case Joining => assert Enabled(st, JoinThreads);
  }

  lemma QueueNotEmpty(pool: Pool)
    requires UploadPool.Inv(pool) && pool.unfinished != 0 && UploadPool.Busy(pool.workers) == 0
    ensures pool.queue != []
  {}

  // ---- How much can happen ------------------------------------------------------------------------------------

  /** The steps that an item in the queue leads to. */
  function Load(queue: seq<Item>): nat {
    if queue == [] then 0 else Load(queue[1..]) + if queue[0].File? then 6 else 1
  }

  function Ahead(worker: Worker): nat {
    match worker
    case Took(_) => 5
    case Uploading(_) => 4
    case Failing => 3
    case Recorded => 2
    case Released => 1
    case _ => 0
  }

  function AllAhead(workers: seq<Worker>): nat {
    if workers == [] then 0 else AllAhead(workers[1..]) + Ahead(workers[0])
  }

  function Control(phase: Phase, workers: nat): nat {
    match phase
    case Leaving => 2 * workers + 2
    case PuttingMarkers(k) => (if k <= workers then 2 * (workers - k) else 0) + 1
    case Joining => 1
    case _ => 0
  }

  function Remaining(st: State): nat {
    Load(st.pool.queue) + AllAhead(st.pool.workers) + Control(st.scanner.phase, |st.pool.workers|)
  }

  lemma {:induction false} LoadGrows(queue: seq<Item>, item: Item)
    ensures Load(queue + [item]) == Load(queue) + if item.File? then 6 else 1
  {
    if queue == [] {
      assert (queue + [item])[1..] == [];
    } else {
      assert (queue + [item])[1..] == queue[1..] + [item] && (queue + [item])[0] == queue[0];
      LoadGrows(queue[1..], item);
    }
  }

  lemma {:induction false} TurnAhead(workers: seq<Worker>, w: nat, state: Worker)
    requires w < |workers|
    ensures AllAhead(workers[w := state]) + Ahead(workers[w]) == AllAhead(workers) + Ahead(state)
    decreases |workers|
  {
    var workers' := workers[w := state];
    if w == 0 {
      assert workers'[1..] == workers[1..];
    } else {
      TurnAhead(workers[1..], w - 1, state);
      assert workers'[1..] == workers[1..][w - 1 := state];
    }
  }

  lemma WorkGetsNearer(pool: Pool, step: UploadPool.WorkerStep)
    requires UploadPool.Enabled(pool, step)
    ensures var pool' := UploadPool.Apply(pool, step);
            Load(pool'.queue) + AllAhead(pool'.workers) < Load(pool.queue) + AllAhead(pool.workers)
            && |pool'.workers| == |pool.workers|
  {
    TurnAhead(pool.workers, step.w, UploadPool.Apply(pool, step).workers[step.w]);
  }

  lemma StepGetsNearer(st: State, step: Step)
    requires MarkersFit(st) && HasLeft(st.scanner.phase) && Enabled(st, step)
    ensures HasLeft(Apply(st, step).scanner.phase)
    ensures if step.Stop? then Remaining(Apply(st, step)) == Remaining(st)
            else Remaining(Apply(st, step)) < Remaining(st)
  {
    match step
    case Work(s) => WorkGetsNearer(st.pool, s);
    case PutMarker => LoadGrows(st.pool.queue, UploadPool.Marker);
    case _ =>
  }

  /** The steps that are no signals. */
  function Moves(steps: seq<Step>): nat
    decreases |steps|
  {
    if steps == [] then 0 else One(!steps[0].Stop?) + Moves(steps[1..])
  }

  lemma {:induction false} MovesAreBounded(st: State, steps: seq<Step>)
    requires MarkersFit(st) && HasLeft(st.scanner.phase) && IsRun(st, steps)
    ensures Moves(steps) <= Remaining(st)
    decreases |steps|
  {
    hide MarkersFit, HasLeft, Enabled, Apply, Remaining;
    if steps != [] {
      StepKeepsMarkers(st, steps[0]);
      StepGetsNearer(st, steps[0]);
      MovesAreBounded(Apply(st, steps[0]), steps[1..]);
    }
  }

  /** Once the loop has been left, no more than this can happen, in whatever order: six steps for each file in the
      queue, what the workers have begun, and two for each worker and the scanner. */
  lemma RunsAreBounded(st: State, steps: seq<Step>)
    requires Reachable(st) && HasLeft(st.scanner.phase) && IsRun(st, steps)
    ensures Moves(steps) <= Remaining(st)
  {
    hide *;
    ReachableMarkers(st);
    MovesAreBounded(st, steps);
  }
}
