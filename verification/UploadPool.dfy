/** The workers of a directory upload and what they share: the bounded task queue, its count of unfinished tasks, the
    count of active workers, and the result that they write to. */
module UploadPool {
  import opened Sequences

  datatype Item = File(path: string) | Marker

  /** A worker between tasks, with the item it took, while uploading, after it recorded a failure that it still has to
      signal, before it is no longer counted as active, before it marks its task as done, and after the marker. */
  datatype Worker =
    | Waiting
    | Took(path: string)
    | Uploading(path: string)
    | Failing
    | Recorded
    | Released
    | Returned

  datatype Copied = Copied(path: string, bytes: nat)

  /** `put` and `done` are the history: the files in the order in which they were put and completed. */
  datatype Pool = Pool(capacity: nat, tolerant: bool, queue: seq<Item>, unfinished: int, active: int,
                       workers: seq<Worker>, completed: nat, bytes: nat, failed: seq<string>, failedSet: bool,
                       put: seq<string>, done: seq<Copied>)

  datatype WorkerStep =
    | Get(w: nat) | Activate(w: nat) | Complete(w: nat, copied: nat) | Fail(w: nat) | Signal(w: nat)
    | Release(w: nat) | TaskDone(w: nat)

  predicate Is(pool: Pool, w: nat, state: Worker) { w < |pool.workers| && pool.workers[w] == state }

  predicate Enabled(pool: Pool, step: WorkerStep) {
    match step
    case Get(w) => Is(pool, w, Waiting) && pool.queue != []
    case Activate(w) => w < |pool.workers| && pool.workers[w].Took?
    case Complete(w, _) => w < |pool.workers| && pool.workers[w].Uploading?
    case Fail(w) => w < |pool.workers| && pool.workers[w].Uploading?
    case Signal(w) => Is(pool, w, Failing)
    case Release(w) => Is(pool, w, Recorded)
    case TaskDone(w) => Is(pool, w, Released)
  }

  function Turn(pool: Pool, w: nat, state: Worker): Pool
    requires w < |pool.workers|
  {
    pool.(workers := pool.workers[w := state])
  }

  function Apply(pool: Pool, step: WorkerStep): Pool
    requires Enabled(pool, step)
  {
    match step
    case Get(w) =>
      var rest := pool.(queue := pool.queue[1..]);
      if pool.queue[0] == Marker then Turn(rest, w, Returned).(unfinished := pool.unfinished - 1)
      else Turn(rest, w, Took(pool.queue[0].path))
    case Activate(w) => Turn(pool, w, Uploading(pool.workers[w].path)).(active := pool.active + 1)
    case Complete(w, copied) =>
      Turn(pool, w, Recorded).(completed := pool.completed + 1, bytes := pool.bytes + copied,
                               done := pool.done + [Copied(pool.workers[w].path, copied)])
    case Fail(w) => Turn(pool, w, Failing).(failed := pool.failed + [pool.workers[w].path])
    case Signal(w) => Turn(pool, w, Recorded).(failedSet := pool.failedSet || !pool.tolerant)
    case Release(w) => Turn(pool, w, Released).(active := pool.active - 1)
    case TaskDone(w) => Turn(pool, w, Waiting).(unfinished := pool.unfinished - 1)
  }

  predicate CanPut(pool: Pool) { |pool.queue| < pool.capacity }

  function Put(pool: Pool, item: Item): Pool {
    pool.(queue := pool.queue + [item], unfinished := pool.unfinished + 1,
          put := if item.File? then pool.put + [item.path] else pool.put)
  }

  predicate IsIdle(pool: Pool) { pool.unfinished == 0 && pool.active == 0 }

  // ---- Accounting ---------------------------------------------------------------------------------------------

  function Queued(queue: seq<Item>, path: string): nat {
    if queue == [] then 0 else Queued(queue[1..], path) + One(queue[0] == File(path))
  }

  predicate Holds(worker: Worker, path: string) { worker == Took(path) || worker == Uploading(path) }

  function Held(workers: seq<Worker>, path: string): nat {
    if workers == [] then 0 else Held(workers[1..], path) + One(Holds(workers[0], path))
  }

  predicate IsBusy(worker: Worker) { !worker.Waiting? && !worker.Returned? }

  predicate IsActive(worker: Worker) { worker.Uploading? || worker.Failing? || worker.Recorded? }

  function Busy(workers: seq<Worker>): nat {
    if workers == [] then 0 else Busy(workers[1..]) + One(IsBusy(workers[0]))
  }

  function Actives(workers: seq<Worker>): nat {
    if workers == [] then 0 else Actives(workers[1..]) + One(IsActive(workers[0]))
  }

  function Completed(done: seq<Copied>, path: string): nat {
    if done == [] then 0 else Completed(done[..|done| - 1], path) + One(done[|done| - 1].path == path)
  }

  function Times(paths: seq<string>, path: string): nat {
    if paths == [] then 0 else Times(paths[..|paths| - 1], path) + One(paths[|paths| - 1] == path)
  }

  function BytesOf(done: seq<Copied>): nat {
    if done == [] then 0 else BytesOf(done[..|done| - 1]) + done[|done| - 1].bytes
  }

  /** A file is as often in the queue, with a worker, completed or failed, together, as it was put. */
  ghost predicate Conserves(pool: Pool, path: string) {
    Times(pool.put, path)
    == Queued(pool.queue, path) + Held(pool.workers, path) + Completed(pool.done, path) + Times(pool.failed, path)
  }

  /** The counters say what they stand for. */
  ghost predicate Counts(pool: Pool) {
    && |pool.queue| <= pool.capacity
    && pool.unfinished == |pool.queue| + Busy(pool.workers)
    && pool.active == Actives(pool.workers)
    && pool.completed == |pool.done| && pool.bytes == BytesOf(pool.done)
    && (pool.failedSet ==> !pool.tolerant && pool.failed != [])
    && (forall w | 0 <= w < |pool.workers| && pool.workers[w].Failing? :: pool.failed != [])
    && |pool.put| == Files(pool.queue) + Holding(pool.workers) + |pool.done| + |pool.failed|
    && SignalsFailure(pool)
  }

  /** Without tolerance a recorded failure is signalled, or a worker is about to signal one. */
  predicate SignalsFailure(pool: Pool) {
    !pool.tolerant && pool.failed != [] ==>
      pool.failedSet || exists w :: 0 <= w < |pool.workers| && pool.workers[w].Failing?
  }

  function Files(queue: seq<Item>): nat {
    if queue == [] then 0 else Files(queue[1..]) + One(queue[0].File?)
  }

  function Holding(workers: seq<Worker>): nat {
    if workers == [] then 0 else Holding(workers[1..]) + One(workers[0].Took? || workers[0].Uploading?)
  }

  ghost predicate Inv(pool: Pool) { Counts(pool) && forall path :: Conserves(pool, path) }

  lemma {:induction false} TurnCounts(workers: seq<Worker>, w: nat, state: Worker)
    requires w < |workers|
    ensures var workers' := workers[w := state];
            && Busy(workers') + One(IsBusy(workers[w])) == Busy(workers) + One(IsBusy(state))
            && Actives(workers') + One(IsActive(workers[w])) == Actives(workers) + One(IsActive(state))
            && Holding(workers') + One(workers[w].Took? || workers[w].Uploading?)
               == Holding(workers) + One(state.Took? || state.Uploading?)
    decreases |workers|
  {
    var workers' := workers[w := state];
    if w == 0 {
      assert workers'[1..] == workers[1..];
    } else {
      TurnCounts(workers[1..], w - 1, state);
      assert workers'[1..] == workers[1..][w - 1 := state];
    }
  }

  lemma {:induction false} TurnHeld(workers: seq<Worker>, w: nat, state: Worker, path: string)
    requires w < |workers|
    ensures Held(workers[w := state], path) + One(Holds(workers[w], path))
         == Held(workers, path) + One(Holds(state, path))
    decreases |workers|
  {
    var workers' := workers[w := state];
    if w == 0 {
      assert workers'[1..] == workers[1..];
    } else {
      TurnHeld(workers[1..], w - 1, state, path);
      assert workers'[1..] == workers[1..][w - 1 := state];
    }
  }

  lemma {:induction false} QueueGrows(queue: seq<Item>, item: Item, path: string)
    ensures Queued(queue + [item], path) == Queued(queue, path) + One(item == File(path))
    ensures Files(queue + [item]) == Files(queue) + One(item.File?)
  {
    if queue == [] {
      assert (queue + [item])[1..] == [];
    } else {
      assert (queue + [item])[1..] == queue[1..] + [item] && (queue + [item])[0] == queue[0];
      QueueGrows(queue[1..], item, path);
    }
  }

  lemma TimesGrows(paths: seq<string>, last: string, path: string)
    ensures Times(paths + [last], path) == Times(paths, path) + One(last == path)
  {
    assert (paths + [last])[..|paths|] == paths;
  }

  lemma DoneGrows(done: seq<Copied>, copied: Copied, path: string)
    ensures Completed(done + [copied], path) == Completed(done, path) + One(copied.path == path)
    ensures BytesOf(done + [copied]) == BytesOf(done) + copied.bytes
  {
    assert (done + [copied])[..|done|] == done;
  }

  lemma PutKeepsInv(pool: Pool, item: Item)
    requires Inv(pool) && CanPut(pool)
    ensures Inv(Put(pool, item))
  {
    hide Queued, Files, Times;
    forall path ensures Conserves(Put(pool, item), path) {
      assert Conserves(pool, path);
      QueueGrows(pool.queue, item, path);
      if item.File? {
        TimesGrows(pool.put, item.path, path);
      }
    }
    QueueGrows(pool.queue, item, "");
  }

  lemma WorkerConserves(pool: Pool, step: WorkerStep, path: string)
    requires Conserves(pool, path) && Enabled(pool, step)
    ensures Conserves(Apply(pool, step), path)
  {
    hide Held, Completed, Times;
    TurnHeld(pool.workers, step.w, Apply(pool, step).workers[step.w], path);
    match step
    case Complete(w, copied) => DoneGrows(pool.done, Copied(pool.workers[w].path, copied), path);
    case Fail(w) => TimesGrows(pool.failed, pool.workers[w].path, path);
    case _ =>
  }

  lemma WorkerSignals(pool: Pool, step: WorkerStep)
    requires SignalsFailure(pool) && Enabled(pool, step)
    ensures SignalsFailure(Apply(pool, step))
  {
    var pool' := Apply(pool, step);
    if step.Fail? {
      assert pool'.workers[step.w].Failing?;
    } else if !step.Signal? && !pool.tolerant && pool.failed != [] && !pool.failedSet {
      var w :| 0 <= w < |pool.workers| && pool.workers[w].Failing?;
      assert pool'.workers[w].Failing?;
    }
  }

  lemma WorkerKeepsInv(pool: Pool, step: WorkerStep)
    requires Inv(pool) && Enabled(pool, step)
    ensures Inv(Apply(pool, step))
  {
    hide Queued, Held, Busy, Actives, Completed, Times, BytesOf, Holding, Conserves, SignalsFailure;
    WorkerSignals(pool, step);
    forall path ensures Conserves(Apply(pool, step), path) {
      WorkerConserves(pool, step, path);
    }
    TurnCounts(pool.workers, step.w, Apply(pool, step).workers[step.w]);
    match step
    case Complete(w, copied) => DoneGrows(pool.done, Copied(pool.workers[w].path, copied), "");
    case _ =>
  }

  lemma {:induction false} NotBusy(workers: seq<Worker>)
    ensures Busy(workers) >= Actives(workers) && Busy(workers) >= Holding(workers)
  {
    if workers != [] {
      NotBusy(workers[1..]);
    }
  }

  lemma {:induction false} NoneHeld(workers: seq<Worker>, path: string)
    ensures Busy(workers) >= Held(workers, path)
  {
    if workers != [] {
      NoneHeld(workers[1..], path);
    }
  }

  /** When no task is unfinished, every file that was put has been completed or has failed. */
  lemma AllTerminal(pool: Pool)
    requires Inv(pool) && pool.unfinished == 0
    ensures pool.queue == [] && IsIdle(pool)
    ensures forall path :: Times(pool.put, path) == Completed(pool.done, path) + Times(pool.failed, path)
    ensures pool.completed + |pool.failed| == |pool.put| && pool.bytes == BytesOf(pool.done)
  {
    hide Times, Completed;
    NotBusy(pool.workers);
    forall path ensures Times(pool.put, path) == Completed(pool.done, path) + Times(pool.failed, path) {
      assert Conserves(pool, path);
      NoneHeld(pool.workers, path);
    }
  }
}
