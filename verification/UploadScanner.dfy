/** What the scanner of a directory upload decides: which walks are admitted, what counts as activity, which files are
    queued, and when the loop is left. */
module UploadScanner {
  import opened Options
  import opened Sequences
  import opened DirectoryUpload
  import UploadPool
  import UploadProgress

  // ---- Walks --------------------------------------------------------------------------------------------------

  /** The bytes of the allowed files, file by file. */
  lemma {:induction false} BytesConcat(files: Files, a: seq<string>, b: seq<string>)
    ensures AllowedBytes(files, a + b) == AllowedBytes(files, a) + AllowedBytes(files, b)
    decreases |a|
  {
    if a == [] {
      assert a + b == b;
    } else {
      assert (a + b)[0] == a[0] && (a + b)[1..] == a[1..] + b;
      BytesConcat(files, a[1..], b);
    }
  }

  lemma BytesOfOne(files: Files, p: string)
    ensures AllowedBytes(files, []) == 0
    ensures AllowedBytes(files, [p]) == if p in files && files[p].allowed then files[p].size else 0
  {
    assert [p][1..] == [];
  }

  ghost predicate IsAdmitted(s: Scanner, walked: Walked) {
    && |s.accepted + set p | p in walked.files && walked.files[p].allowed| <= 10_000
    && |s.directoryNames + walked.admitted| <= 10_000
    && AllowedBytes(walked.files, walked.order) <= 107_374_182_400
  }

  /** A walk is admitted if and only if the names that were accepted or are allowed, the directories, and the bytes of
      the allowed files keep within their limits; otherwise the loop ends with the error that says which did not. */
  lemma AdmittedIff(st: State, walked: Walked, now: int)
    requires Enabled(st, Walk(walked, now))
    ensures var s, s' := st.scanner, Apply(st, Walk(walked, now)).scanner;
            && s'.directoryNames == s.directoryNames + walked.admitted
            && s'.unsupported == s.unsupported + walked.unsupported
            && if IsAdmitted(s, walked) then
                 && s'.phase == Enqueuing(walked.files, walked.order, 0)
                 && s'.scans == s.scans + [walked.files] && s'.error == s.error
               else
                 && s'.phase == Leaving && s'.scans == s.scans
                 && s'.error == Some(if AllowedBytes(walked.files, walked.order) > 107_374_182_400
                                        && |s.accepted + set p | p in walked.files && walked.files[p].allowed| <= 10_000
                                        && |s.directoryNames + walked.admitted| <= 10_000
                                     then BYTES_ERROR else LIMIT_ERROR)
  {
    hide AllowedBytes;
    assert AllowedNames(walked.files) == set p | p in walked.files && walked.files[p].allowed;
  }

  /** Something is as it was not at the walk before: a file, an unsupported entry, the set of directories. */
  ghost predicate HasChanged(s: Scanner, walked: Walked) {
    || (exists p | p in walked.files :: !Matches(ScanAt(s.scans, |s.scans| - 1), p, walked.files[p]))
    || (exists p | p in walked.unsupported :: p !in s.unsupported)
    || walked.directories != s.previousDirectories
  }

  /** An admitted walk is activity exactly when something has changed. */
  lemma ActivityIsNoted(st: State, walked: Walked, now: int)
    requires Reachable(st) && Enabled(st, Walk(walked, now)) && IsAdmitted(st.scanner, walked)
    ensures var s, s' := st.scanner, Apply(st, Walk(walked, now)).scanner;
            && s'.lastActivity == (if HasChanged(s, walked) then Some(now) else s.lastActivity)
            && s'.previousDirectories == walked.directories
  {
    hide Reachable, AllowedBytes;
    ReachableInv(st);
    assert AllowedNames(walked.files) == set p | p in walked.files && walked.files[p].allowed;
    NoneNew(walked.unsupported, st.scanner.unsupported);
  }

  lemma NoneNew(a: set<string>, b: set<string>)
    ensures a - b != {} <==> exists p | p in a :: p !in b
  {
    assert forall p :: p in a - b <==> p in a && p !in b;
  }

  // ---- Every stable file is queued ----------------------------------------------------------------------------

  predicate InPass(p: Phase) { p.Enqueuing? || p.Putting? }

  /** Up to scan `n` every file that was the same in two consecutive scans is queued. */
  ghost predicate StableQueued(s: Scanner, n: int) {
    forall t, p | 1 <= t < n && t < |s.scans| && p in s.scans[t]
                  && Matches(ScanAt(s.scans, t - 1), p, s.scans[t][p]) :: p in s.queued
  }

  /** In the pass over the last scan that holds for the files that the scanner has gone through. */
  ghost predicate PassQueued(s: Scanner) {
    match s.phase
    case Enqueuing(files, order, i) => GoneThrough(s, files, order, i)
    case Putting(files, order, i) =>
      GoneThrough(s, files, order, i) && (i < |order| ==> order[i] in s.queued)
    case _ => true
  }

  ghost predicate GoneThrough(s: Scanner, files: Files, order: seq<string>, i: nat) {
    forall j | 0 <= j < i && j < |order| && order[j] in files && Matches(s.snapshots, order[j], files[order[j]]) ::
      order[j] in s.queued
  }

  ghost predicate CaughtUp(st: State) {
    st.pool.failedSet || st.scanner.error.Some?
    || (StableQueued(st.scanner, |st.scanner.scans| - if InPass(st.scanner.phase) then 1 else 0)
        && PassQueued(st.scanner))
  }

  lemma CaughtUpStays(st: State, st': State)
    requires CaughtUp(st) && (st.pool.failedSet ==> st'.pool.failedSet)
    requires st'.scanner == st.scanner
             || (!InPass(st.scanner.phase) && !InPass(st'.scanner.phase) && st'.scanner.scans == st.scanner.scans
                 && st'.scanner.queued == st.scanner.queued
                 && (st.scanner.error.Some? ==> st'.scanner.error.Some?))
    ensures CaughtUp(st')
  {}

  /** What looking at one file does: nothing that was queued is forgotten, and the file is queued if it is stable. */
  lemma NextEffect(st: State, unlinked: bool)
    requires Enabled(st, Next(unlinked)) && !st.pool.failedSet
    ensures var s, s' := st.scanner, Apply(st, Next(unlinked)).scanner;
            var p, i := s.phase.order[s.phase.i], s.phase.i;
            && s.queued <= s'.queued && s'.scans == s.scans && s'.snapshots == s.snapshots
            && (s.error.Some? ==> s'.error.Some?)
            && (p in s.phase.files && Matches(s.snapshots, p, s.phase.files[p]) ==> p in s'.queued)
            && (s'.error.Some? || s'.phase == Enqueuing(s.phase.files, s.phase.order, i + 1)
                || (s'.phase == Putting(s.phase.files, s.phase.order, i) && p in s'.queued))
  {}

  lemma NextCatchesUp(st: State, unlinked: bool)
    requires Inv(st) && CaughtUp(st) && Enabled(st, Next(unlinked))
    ensures CaughtUp(Apply(st, Next(unlinked)))
  {
    hide Inv, IsDue, ToPut;
    if st.pool.failedSet {
      FlagStays(st, unlinked);
    } else {
      NextEffect(st, unlinked);
      hide Apply, Enabled;
    }
  }

  lemma FlagStays(st: State, unlinked: bool)
    requires Enabled(st, Next(unlinked)) && st.pool.failedSet
    ensures Apply(st, Next(unlinked)).pool.failedSet
  {}

  lemma PutCatchesUp(st: State)
    requires Inv(st) && CaughtUp(st) && Enabled(st, PutFile)
    ensures CaughtUp(Apply(st, PutFile))
  {
    hide UploadPool.Inv, Fits, LeftFor, AllowedNames;
  }

  /** At the end of the list every stable file of the last scan is queued. */
  lemma EndCatchesUp(st: State)
    requires Inv(st) && CaughtUp(st) && Enabled(st, EndItems)
    ensures CaughtUp(Apply(st, EndItems))
  {
    hide UploadPool.Inv, Fits, LeftFor, AllowedNames;
    var s, s' := st.scanner, Apply(st, EndItems).scanner;
    if !st.pool.failedSet && s.error.None? {
      var last := |s.scans| - 1;
      forall p | 1 <= last && p in s.scans[last] && Matches(ScanAt(s.scans, last - 1), p, s.scans[last][p])
        ensures p in s.queued
      {
        var j :| 0 <= j < |s.phase.order| && s.phase.order[j] == p;
        assert Matches(s.snapshots, s.phase.order[j], s.phase.files[s.phase.order[j]]);
      }
    }
  }

  lemma WalkCatchesUp(st: State, walked: Walked, now: int)
    requires Inv(st) && CaughtUp(st) && Enabled(st, Walk(walked, now))
    ensures CaughtUp(Apply(st, Walk(walked, now)))
  {
    hide UploadPool.Inv, Fits, LeftFor, AllowedNames, AllowedBytes;
    var s, s' := st.scanner, Apply(st, Walk(walked, now)).scanner;
    assert s'.scans == s.scans || (s'.scans == s.scans + [walked.files] && InPass(s'.phase));
    assert forall t | 0 <= t < |s.scans| :: s'.scans[t] == s.scans[t];
  }

  lemma StepCatchesUp(st: State, step: Step)
    requires Inv(st) && CaughtUp(st) && Enabled(st, step)
    ensures CaughtUp(Apply(st, step))
  {
    match step
    case Next(unlinked) => NextCatchesUp(st, unlinked);
    case PutFile => PutCatchesUp(st);
    case EndItems => EndCatchesUp(st);
    case Walk(walked, now) => WalkCatchesUp(st, walked, now);
    case Work(s) =>
      hide *;
      WorkKeepsFlag(st, s);
      CaughtUpStays(st, Apply(st, step));
    case _ =>
      hide CaughtUp, Inv;
      OthersLeaveQueue(st, step);
      CaughtUpStays(st, Apply(st, step));
  }

  lemma WorkKeepsFlag(st: State, s: UploadPool.WorkerStep)
    requires Enabled(st, Work(s))
    ensures Apply(st, Work(s)).scanner == st.scanner
    ensures st.pool.failedSet ==> Apply(st, Work(s)).pool.failedSet
  {
    WorkLeaves(st.pool, s);
  }

  lemma OthersLeaveQueue(st: State, step: Step)
    requires Enabled(st, step)
    requires step.WalkFails? || step.Leave? || step.Decide? || step.JoinTasks? || step.PutMarker? || step.JoinThreads?
             || step.Stop?
    ensures var s, s' := st.scanner, Apply(st, step).scanner;
            && (step.Stop? ==> s' == s)
            && (!step.Stop? ==> !InPass(s.phase) && !InPass(s'.phase))
            && s'.scans == s.scans && s'.queued == s.queued && (s.error.Some? ==> s'.error.Some?)
            && (st.pool.failedSet ==> Apply(st, step).pool.failedSet)
  {}

  lemma {:induction false} RunCatchesUp(st: State, steps: seq<Step>)
    requires Inv(st) && CaughtUp(st) && IsRun(st, steps)
    ensures CaughtUp(Final(st, steps))
    decreases |steps|
  {
    hide Inv, CaughtUp, Enabled, Apply;
    if steps != [] {
      StepCatchesUp(st, steps[0]);
      StepKeepsInv(st, steps[0]);
      RunCatchesUp(Apply(st, steps[0]), steps[1..]);
    }
  }

  lemma ReachableCaughtUp(st: State)
    requires Reachable(st)
    ensures CaughtUp(st)
  {
    hide Inv, CaughtUp, IsRun, Final, Initial;
    var limits, workers, tolerant, steps :|
      && IsRun(Initial(limits, workers, tolerant), steps)
      && st == Final(Initial(limits, workers, tolerant), steps);
    InitialInv(limits, workers, tolerant);
    InitialCaughtUp(limits, workers, tolerant);
    RunCatchesUp(Initial(limits, workers, tolerant), steps);
  }

  lemma InitialCaughtUp(limits: Limits, workers: nat, tolerant: bool)
    ensures CaughtUp(Initial(limits, workers, tolerant))
  {}

  /** Unless something has failed, every file that two consecutive scans found the same is queued by the end of the pass
      over the second. */
  lemma EveryStableIsQueued(st: State, t: nat, p: string)
    requires Reachable(st) && !st.pool.failedSet && st.scanner.error.None?
    requires 1 <= t < |st.scanner.scans| && p in st.scanner.scans[t]
    requires Matches(st.scanner.scans[t - 1], p, st.scanner.scans[t][p])
    requires t == |st.scanner.scans| - 1 ==> !st.scanner.phase.Enqueuing? && !st.scanner.phase.Putting?
    ensures p in st.scanner.queued
  {
    hide Reachable;
    ReachableCaughtUp(st);
    assert ScanAt(st.scanner.scans, t - 1) == st.scanner.scans[t - 1];
  }

  /** A file that has come to rest but is not allowed is removed unread and counted, or the upload ends with an
      error. */
  lemma DropOutcome(st: State, unlinked: bool)
    requires Enabled(st, Next(unlinked)) && IsDue(st) && !ToPut(st)
    ensures var s, s' := st.scanner, Apply(st, Next(unlinked)).scanner;
            var p := s.phase.order[s.phase.i];
            && s'.queued == s.queued + {p} && s'.accepted == s.accepted && s'.dropped == s.dropped + [p]
            && (if unlinked then s'.skipped == s.skipped + 1 && s'.error == s.error && s'.phase.Enqueuing?
                else s'.skipped == s.skipped && s'.error == Some(UNLINK_ERROR) && s'.phase == Leaving)
  {}

  // ---- The end of a pass --------------------------------------------------------------------------------------

  /** After a pass the loop is left with an error when nothing has ever appeared and the initial timeout is over, and
      quietly when all is idle, every file of the last scan is queued, and the update timeout has passed since the last
      activity; otherwise it goes on. */
  lemma DecideOutcome(st: State, now: int)
    requires Reachable(st) && Enabled(st, Decide(now))
    ensures var s, s' := st.scanner, Apply(st, Decide(now)).scanner;
            var quiet := s.lastActivity.Some? && st.pool.unfinished == 0 && st.pool.active == 0
                         && (forall p | p in ScanAt(s.scans, |s.scans| - 1) :: p in s.queued)
                         && now >= s.lastActivity.value + st.limits.updateTimeout;
            var expired := s.lastActivity.None? && now >= st.limits.started + st.limits.initialTimeout;
            && s'.quiet == quiet && s'.error == (if expired then Some(TIMEOUT_ERROR) else None)
            && s'.phase == if quiet || expired then Leaving else Looping
  {
    hide Reachable;
    ReachableInv(st);
  }

  /** At the head of the loop a stop signal or a failure leads out of it, without an error. */
  lemma LoopHeadIsLeft(st: State, step: Step)
    requires st.scanner.phase == Looping && Enabled(st, step) && !step.Work? && !step.Stop?
    ensures if st.stop || st.pool.failedSet then
              Apply(st, step).scanner == st.scanner.(phase := Leaving)
            else
              (Apply(st, step).scanner.phase.Enqueuing? || Apply(st, step).scanner.phase == Leaving)
              && (step.WalkFails? ==> Apply(st, step).scanner.error == Some(step.error))
  {
    hide AllowedBytes, AllowedNames;
  }

  /** A signal can come at any time, and nothing else stops the upload. */
  lemma {:induction false} StopsOnSignal(st: State, steps: seq<Step>)
    requires IsRun(st, steps)
    ensures Final(st, steps).stop <==> st.stop || exists step :: step in steps && step.Stop?
    ensures Enabled(st, Stop)
    decreases |steps|
  {
    hide Enabled, Apply;
    if steps != [] {
      StopStep(st, steps[0]);
      StopsOnSignal(Apply(st, steps[0]), steps[1..]);
      assert steps == [steps[0]] + steps[1..];
    }
    StopStep(st, Stop);
  }

  lemma StopStep(st: State, step: Step)
    ensures Enabled(st, Stop)
    ensures Enabled(st, step) ==> (Apply(st, step).stop <==> st.stop || step.Stop?)
  {
    hide AllowedBytes, AllowedNames, HasRemaining;
  }

  lemma NotStoppedAtFirst(limits: Limits, workers: nat, tolerant: bool)
    ensures !Initial(limits, workers, tolerant).stop
  {}

  // ---- The scanner goes on ------------------------------------------------------------------------------------

  /** How many steps are left of a pass. */
  function LeftOfPass(p: Phase): nat {
    match p
    case Enqueuing(_, order, i) => if i <= |order| then 2 * (|order| - i) + 2 else 2
    case Putting(_, order, i) => if i <= |order| then 2 * (|order| - i) + 1 else 1
    case Deciding => 1
    case _ => 0
  }

  /** Every step of a pass brings it nearer to its end. */
  lemma PassGetsNearer(st: State, step: Step)
    requires Enabled(st, step) && (step.Next? || step.PutFile? || step.EndItems? || step.Decide?)
    ensures LeftOfPass(Apply(st, step).scanner.phase) < LeftOfPass(st.scanner.phase)
  {}

  /** Before the loop is left something other than a signal can always happen, when there is a worker. */
  lemma LoopNeverStuck(st: State)
    requires Reachable(st) && |st.pool.workers| > 0 && !HasLeft(st.scanner.phase)
    ensures exists step: Step :: !step.Stop? && Enabled(st, step)
  {
    hide Reachable;
    ReachableInv(st);
    UploadProgress.ReachableMarkers(st);
    match st.scanner.phase
    case Looping =>
      var nothing := Walked(map[], [], {}, {}, {});
      assert WellWalked(nothing);
      assert Enabled(st, Walk(nothing, 0)) || Enabled(st, Leave);
    case Enqueuing(_, order, i) => assert Enabled(st, Next(true)) || Enabled(st, EndItems);
    case Putting(_, _, _) =>
      if UploadPool.CanPut(st.pool) {
        assert Enabled(st, PutFile);
      } else {
        var w := UploadProgress.FindUnreturned(st.pool.workers);
        UploadProgress.WorkerGoesOn(st, w);
      }
    case Deciding => assert Enabled(st, Decide(0));
  }

  // ---- The pool and the response ------------------------------------------------------------------------------

  /** The task queue has room for four tasks a worker, and for 32 at least. */
  predicate RoomFits(pool: UploadPool.Pool) {
    pool.capacity >= 32 && pool.capacity >= 4 * |pool.workers|
    && (pool.capacity == 32 || pool.capacity == 4 * |pool.workers|)
  }

  lemma StepKeepsRoom(st: State, step: Step)
    requires Enabled(st, step)
    ensures Apply(st, step).pool.capacity == st.pool.capacity
    ensures |Apply(st, step).pool.workers| == |st.pool.workers| && Apply(st, step).pool.tolerant == st.pool.tolerant
  {
    hide AfterWalk, AfterDecide, IsDue;
    if step.Work? {
      hide *;
      WorkKeepsRoom(st, step.step);
    }
  }

  lemma WorkKeepsRoom(st: State, s: UploadPool.WorkerStep)
    requires Enabled(st, Work(s))
    ensures var pool := Apply(st, Work(s)).pool;
            && pool.capacity == st.pool.capacity && |pool.workers| == |st.pool.workers|
            && pool.tolerant == st.pool.tolerant
  {}

  lemma {:induction false} RunKeepsRoom(st: State, steps: seq<Step>)
    requires IsRun(st, steps)
    ensures Final(st, steps).pool.capacity == st.pool.capacity
    ensures |Final(st, steps).pool.workers| == |st.pool.workers| && Final(st, steps).pool.tolerant == st.pool.tolerant
    decreases |steps|
  {
    hide Enabled, Apply;
    if steps != [] {
      StepKeepsRoom(st, steps[0]);
      RunKeepsRoom(Apply(st, steps[0]), steps[1..]);
    }
  }

  /** In every run there are as many workers as asked for, and the queue has this room. */
  lemma RoomIs(limits: Limits, workers: nat, tolerant: bool, steps: seq<Step>)
    requires IsRun(Initial(limits, workers, tolerant), steps)
    ensures var pool := Final(Initial(limits, workers, tolerant), steps).pool;
            && |pool.workers| == workers && pool.tolerant == tolerant && RoomFits(pool)
  {
    RunKeepsRoom(Initial(limits, workers, tolerant), steps);
  }

  /** What the response says, besides the counts. */
  lemma ResponseTells(st: State)
    ensures var s, r := st.scanner, ResponseOf(st);
            && r.failedPaths == multiset(st.pool.failed)
            && r.directoriesCompleted == (|s.directoryNames|, |s.directoryNames|)
            && r.filesSkipped == s.skipped && r.itemsSkipped == |s.unsupported|
    ensures ResponseOf(st).errorCode == if st.scanner.error.None? && st.pool.failed == [] then "0" else "1"
    ensures st.scanner.error.Some? ==> ResponseOf(st).errorDescription == st.scanner.error.value
    ensures st.scanner.error.None? && st.pool.failed == [] ==> ResponseOf(st).errorDescription == ""
    ensures st.scanner.error.None? && st.pool.failed != [] ==> ResponseOf(st).errorDescription == FILES_FAILED
  {}
}
