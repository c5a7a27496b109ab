/** The directory upload: a scanner that queues files once they have come to rest, and workers that upload them.
    Every interleaving of the scanner, the workers and a stop signal is a run. */
module DirectoryUpload {
  import opened Options
  import opened Sequences
  import opened UploadPool

  const MAX_FILES: nat := 10000
  const MAX_DIRECTORIES: nat := 10000
  const MAX_TOTAL_BYTES: nat := 107374182400

  datatype Identity = Identity(device: int, inode: int, size: nat, mtime: int, allowed: bool)

  type Files = map<string, Identity>

  /** What one walk of the staging tree finds: the regular files (a mapping and the order of its keys), the
      directories, those of them that are not excluded, and the unsupported entries outside excluded ones. */
  datatype Walked = Walked(files: Files, order: seq<string>, directories: set<string>, admitted: set<string>,
                           unsupported: set<string>)

  datatype Phase =
    | Looping
    | Enqueuing(files: Files, order: seq<string>, i: nat)
    | Putting(files: Files, order: seq<string>, i: nat)
    | Deciding
    | Leaving
    | PuttingMarkers(k: nat)
    | Joining
    | Done

  datatype Limits = Limits(started: int, initialTimeout: int, updateTimeout: int)

  /** `scans` and `dropped` are the history: the admitted walks, and the files chosen to be removed unread. */
  datatype Scanner = Scanner(phase: Phase, snapshots: Files, queued: set<string>, accepted: set<string>,
                             skipped: nat, directoryNames: set<string>, previousDirectories: set<string>,
                             unsupported: set<string>, lastActivity: Option<int>, error: Option<string>, quiet: bool,
                             scans: seq<Files>, dropped: seq<string>)

  datatype State = State(limits: Limits, stop: bool, scanner: Scanner, pool: Pool)

  datatype Step =
    | Walk(walked: Walked, now: int) | WalkFails(error: string) | Leave
    | Next(unlinked: bool) | PutFile | EndItems | Decide(now: int)
    | JoinTasks | PutMarker | JoinThreads
    | Work(step: WorkerStep) | Stop

  function Initial(limits: Limits, workers: nat, tolerant: bool): State {
    State(limits, false,
          Scanner(Looping, map[], {}, {}, 0, {}, {}, {}, None, None, false, [], []),
          Pool(if 4 * workers > 32 then 4 * workers else 32, tolerant, [], 0, 0, seq(workers, i => Waiting), 0, 0, [],
               false, [], []))
  }

  ghost predicate WellWalked(walked: Walked) {
    && (forall p :: p in walked.order <==> p in walked.files)
    && forall i, j | 0 <= i < j < |walked.order| :: walked.order[i] != walked.order[j]
  }

  function AllowedNames(files: Files): set<string> { set p | p in files && files[p].allowed }

  function AllowedBytes(files: Files, order: seq<string>): nat {
    if order == [] then 0
    else
      var p := order[0];
      AllowedBytes(files, order[1..]) + if p in files && files[p].allowed then files[p].size else 0
  }

  predicate Matches(files: Files, path: string, identity: Identity) { path in files && files[path] == identity }

  const LIMIT_ERROR := "items ingestion admission limit exceeded"
  const BYTES_ERROR := "directory ingestion byte limit exceeded"
  const UNLINK_ERROR := "the skipped file could not be removed"
  const TIMEOUT_ERROR := "no directory upload activity before initial timeout"

  ghost predicate Enabled(st: State, step: Step) {
    match step
    case Walk(walked, _) =>
      st.scanner.phase == Looping && !st.stop && !st.pool.failedSet && WellWalked(walked)
    case WalkFails(_) => st.scanner.phase == Looping && !st.stop && !st.pool.failedSet
    case Leave => st.scanner.phase == Looping && (st.stop || st.pool.failedSet)
    case Next(_) => st.scanner.phase.Enqueuing? && st.scanner.phase.i < |st.scanner.phase.order|
    case PutFile =>
      st.scanner.phase.Putting? && st.scanner.phase.i < |st.scanner.phase.order| && CanPut(st.pool)
    case EndItems => st.scanner.phase.Enqueuing? && st.scanner.phase.i >= |st.scanner.phase.order|
    case Decide(_) => st.scanner.phase == Deciding
    case JoinTasks => st.scanner.phase == Leaving && st.pool.unfinished == 0
    case PutMarker =>
      st.scanner.phase.PuttingMarkers? && st.scanner.phase.k < |st.pool.workers| && CanPut(st.pool)
    case JoinThreads => st.scanner.phase == Joining
    case Work(s) => UploadPool.Enabled(st.pool, s)
    case Stop => true
  }

  /** The next file has come to rest, is not queued yet, and nothing has failed. */
  predicate IsDue(st: State)
    requires st.scanner.phase.Enqueuing? && st.scanner.phase.i < |st.scanner.phase.order|
  {
    var s := st.scanner;
    var p := s.phase.order[s.phase.i];
    !st.pool.failedSet && p !in s.queued && p in s.phase.files && Matches(s.snapshots, p, s.phase.files[p])
  }

  /** It is allowed, so that it is put as soon as the queue has room, even if something fails in the meantime. */
  predicate ToPut(st: State) {
    st.scanner.phase.Enqueuing? && st.scanner.phase.i < |st.scanner.phase.order| && IsDue(st)
    && st.scanner.phase.files[st.scanner.phase.order[st.scanner.phase.i]].allowed
  }

  function Fails(s: Scanner, error: string): Scanner { s.(phase := Leaving, error := Some(error)) }

  /** The walk has ended: it is admitted and its activity is noted, or a limit is exceeded. */
  function AfterWalk(s: Scanner, walked: Walked, now: int): Scanner {
    var s' := s.(directoryNames := s.directoryNames + walked.admitted,
                 unsupported := s.unsupported + walked.unsupported);
    if |s.accepted + AllowedNames(walked.files)| > MAX_FILES || |s'.directoryNames| > MAX_DIRECTORIES then
      Fails(s', LIMIT_ERROR)
    else if AllowedBytes(walked.files, walked.order) > MAX_TOTAL_BYTES then Fails(s', BYTES_ERROR)
    else
      var changed :=
        || (exists p | p in walked.files :: !Matches(s.snapshots, p, walked.files[p]))
        || walked.unsupported - s.unsupported != {}
        || walked.directories != s.previousDirectories;
      s'.(phase := Enqueuing(walked.files, walked.order, 0),
          lastActivity := if changed then Some(now) else s.lastActivity,
          previousDirectories := walked.directories,
          scans := s.scans + [walked.files])
  }

  function AfterNext(st: State, unlinked: bool): State
    requires st.scanner.phase.Enqueuing? && st.scanner.phase.i < |st.scanner.phase.order|
  {
    var s := st.scanner;
    var p, next := s.phase.order[s.phase.i], Enqueuing(s.phase.files, s.phase.order, s.phase.i + 1);
    if st.pool.failedSet then st.(scanner := s.(phase := Deciding, snapshots := s.phase.files))
    else if !IsDue(st) then st.(scanner := s.(phase := next))
    else if s.phase.files[p].allowed then
      st.(scanner := s.(queued := s.queued + {p}, accepted := s.accepted + {p},
                        phase := Putting(s.phase.files, s.phase.order, s.phase.i)))
    else if !unlinked then
      st.(scanner := Fails(s.(queued := s.queued + {p}, dropped := s.dropped + [p]), UNLINK_ERROR))
    else
      st.(scanner := s.(queued := s.queued + {p}, dropped := s.dropped + [p], skipped := s.skipped + 1,
                        phase := next))
  }

  function AfterPut(st: State): State
    requires st.scanner.phase.Putting? && st.scanner.phase.i < |st.scanner.phase.order|
  {
    var phase := st.scanner.phase;
    st.(scanner := st.scanner.(phase := Enqueuing(phase.files, phase.order, phase.i + 1)),
        pool := Put(st.pool, File(phase.order[phase.i])))
  }

  predicate HasRemaining(s: Scanner) { exists p | p in s.snapshots :: p !in s.queued }

  function AfterDecide(st: State, now: int): Scanner {
    var s := st.scanner;
    if s.lastActivity.None? then
      if now - st.limits.started >= st.limits.initialTimeout then Fails(s, TIMEOUT_ERROR) else s.(phase := Looping)
    else if IsIdle(st.pool) && !HasRemaining(s) && now - s.lastActivity.value >= st.limits.updateTimeout then
      s.(phase := Leaving, quiet := true)
    else s.(phase := Looping)
  }

  ghost function Apply(st: State, step: Step): State
    requires Enabled(st, step)
  {
    match step
    case Walk(walked, now) => st.(scanner := AfterWalk(st.scanner, walked, now))
    case WalkFails(error) => st.(scanner := Fails(st.scanner, error))
    case Leave => st.(scanner := st.scanner.(phase := Leaving))
    case Next(unlinked) => AfterNext(st, unlinked)
    case PutFile => AfterPut(st)
    case EndItems => st.(scanner := st.scanner.(phase := Deciding, snapshots := st.scanner.phase.files))
    case Decide(now) => st.(scanner := AfterDecide(st, now))
    case JoinTasks => st.(scanner := st.scanner.(phase := PuttingMarkers(0)))
    case PutMarker =>
      var k := st.scanner.phase.k;
      st.(scanner := st.scanner.(phase := if k + 1 == |st.pool.workers| then Joining else PuttingMarkers(k + 1)),
          pool := Put(st.pool, Marker))
    case JoinThreads => st.(scanner := st.scanner.(phase := Done))
    case Work(s) => st.(pool := UploadPool.Apply(st.pool, s))
    case Stop => st.(stop := true)
  }

  ghost predicate IsRun(st: State, steps: seq<Step>)
    decreases |steps|
  {
    steps == [] || (Enabled(st, steps[0]) && IsRun(Apply(st, steps[0]), steps[1..]))
  }

  ghost function Final(st: State, steps: seq<Step>): State
    requires IsRun(st, steps)
    decreases |steps|
  {
    if steps == [] then st else Final(Apply(st, steps[0]), steps[1..])
  }

  // ---- The response -------------------------------------------------------------------------------------------

  datatype Response = Response(errorCode: string, errorDescription: string,
                               filesCompleted: (nat, nat), directoriesCompleted: (nat, nat), bytesCompleted: nat,
                               filesFailed: (nat, nat), failedPaths: multiset<string>, filesSkipped: nat,
                               itemsSkipped: nat)

  const FILES_FAILED := "one or more files failed"

  function BuildResponse(completed: nat, bytes: nat, failed: seq<string>, skipped: nat, unsupported: set<string>,
                         directories: set<string>, error: Option<string>): Response
  {
    var accepted := completed + |failed|;
    Response(if error.Some? || failed != [] then "1" else "0",
             if error.Some? then error.value else if failed != [] then FILES_FAILED else "",
             (completed, accepted), (|directories|, |directories|), bytes, (|failed|, accepted), multiset(failed),
             skipped, |unsupported|)
  }

  function ResponseOf(st: State): Response {
    BuildResponse(st.pool.completed, st.pool.bytes, st.pool.failed, st.scanner.skipped, st.scanner.unsupported,
                  st.scanner.directoryNames, st.scanner.error)
  }

  // ---- The invariant ------------------------------------------------------------------------------------------

  function ScanAt(scans: seq<Files>, t: int): Files { if 0 <= t < |scans| then scans[t] else map[] }

  /** The file was the same in scan `t` and in the one before it. */
  predicate StableAt(scans: seq<Files>, t: int, path: string, allowed: bool) {
    path in ScanAt(scans, t) && ScanAt(scans, t)[path].allowed == allowed
    && Matches(ScanAt(scans, t - 1), path, ScanAt(scans, t)[path])
  }

  ghost predicate WasStable(scans: seq<Files>, path: string, allowed: bool) {
    exists t :: 1 <= t < |scans| && StableAt(scans, t, path, allowed)
  }

  /** The scanner waits for room to put this path. */
  predicate InHand(s: Scanner, path: string) {
    s.phase.Putting? && s.phase.i < |s.phase.order| && s.phase.order[s.phase.i] == path
  }

  /** A path is put once when it is accepted, dropped once when it is queued otherwise, after it came to rest. */
  ghost predicate Fits(s: Scanner, put: seq<string>, path: string) {
    && Times(put, path) + One(InHand(s, path)) == One(path in s.accepted)
    && Times(s.dropped, path) == One(path in s.queued && path !in s.accepted)
    && (path in s.accepted ==> path in s.queued)
    && (path in s.queued ==> WasStable(s.scans, path, path in s.accepted))
  }

  ghost predicate PhaseFits(s: Scanner) {
    match s.phase
    case Enqueuing(files, order, i) =>
      s.scans != [] && files == ScanAt(s.scans, |s.scans| - 1) && s.snapshots == ScanAt(s.scans, |s.scans| - 2)
      && i <= |order| && (forall p :: p in order <==> p in files)
      && |s.accepted + AllowedNames(files)| <= MAX_FILES
    case Putting(files, order, i) =>
      s.scans != [] && files == ScanAt(s.scans, |s.scans| - 1) && s.snapshots == ScanAt(s.scans, |s.scans| - 2)
      && i < |order| && (forall p :: p in order <==> p in files)
      && |s.accepted + AllowedNames(files)| <= MAX_FILES
    case Looping => s.snapshots == ScanAt(s.scans, |s.scans| - 1)
    case Deciding => s.snapshots == ScanAt(s.scans, |s.scans| - 1)
    case _ => true
  }

  predicate HasLeft(p: Phase) { p == Leaving || p.PuttingMarkers? || p == Joining || p == Done }

  /** No task is left: the queue holds markers only and no worker has a file. */
  predicate FilesGone(pool: Pool) {
    && (forall item | item in pool.queue :: item == Marker)
    && (forall w | w in pool.workers :: !w.Took? && !w.Uploading?)
  }

  /** The loop was left because it was quiet, for an error, or on a signal. */
  ghost predicate LeftFor(st: State) {
    var s := st.scanner;
    && (s.error.Some? || s.quiet ==> HasLeft(s.phase))
    && (HasLeft(s.phase) ==> s.quiet || s.error.Some? || st.stop || st.pool.failedSet)
    && (s.quiet ==> s.error.None? && forall p | p in ScanAt(s.scans, |s.scans| - 1) :: p in s.queued)
    && (s.phase.PuttingMarkers? || s.phase == Joining || s.phase == Done ==> FilesGone(st.pool))
  }

  ghost predicate Inv(st: State) {
    && UploadPool.Inv(st.pool)
    && (forall path :: Fits(st.scanner, st.pool.put, path))
    && PhaseFits(st.scanner) && LeftFor(st)
    && |st.scanner.accepted| <= MAX_FILES
    && st.scanner.skipped + One(st.scanner.error == Some(UNLINK_ERROR)) >= |st.scanner.dropped| >= st.scanner.skipped
  }

  // ---- Every step keeps the invariant -------------------------------------------------------------------------

  lemma WasStableGrows(scans: seq<Files>, files: Files, path: string, allowed: bool)
    requires WasStable(scans, path, allowed)
    ensures WasStable(scans + [files], path, allowed)
  {
    var t :| 1 <= t < |scans| && StableAt(scans, t, path, allowed);
    assert StableAt(scans + [files], t, path, allowed);
  }

  /** Steps that queue nothing leave every path where it is, whether or not they add a scan. */
  lemma SameQueue(s: Scanner, s': Scanner, put: seq<string>)
    requires forall path :: Fits(s, put, path)
    requires s'.queued == s.queued && s'.accepted == s.accepted && s'.dropped == s.dropped
    requires s'.phase == s.phase || (!s'.phase.Putting? && !s.phase.Putting?)
    requires s'.scans == s.scans || (s'.scans != [] && s'.scans[..|s'.scans| - 1] == s.scans)
    ensures forall path :: Fits(s', put, path)
  {
    hide Times, WasStable;
    forall path ensures Fits(s', put, path) {
      assert Fits(s, put, path);
      if path in s.queued && s'.scans != s.scans {
        assert s'.scans == s.scans + [s'.scans[|s'.scans| - 1]];
        WasStableGrows(s.scans, s'.scans[|s'.scans| - 1], path, path in s.accepted);
      }
    }
  }

  lemma WalkEffect(s: Scanner, walked: Walked, now: int)
    requires PhaseFits(s) && s.phase == Looping && WellWalked(walked)
    ensures var s' := AfterWalk(s, walked, now);
            && PhaseFits(s') && s'.queued == s.queued && s'.accepted == s.accepted && s'.dropped == s.dropped
            && s'.skipped == s.skipped && s'.quiet == s.quiet
            && (if s'.phase.Enqueuing? then s'.error == s.error && s'.scans == s.scans + [walked.files]
                else s'.phase == Leaving && s'.error.Some? && s'.scans == s.scans)
  {
    hide AllowedBytes, AllowedNames;
  }

  lemma WalkKeepsInv(st: State, walked: Walked, now: int)
    requires Inv(st) && Enabled(st, Walk(walked, now))
    ensures Inv(Apply(st, Walk(walked, now)))
  {
    hide UploadPool.Inv, Fits, FilesGone, AfterWalk, PhaseFits;
    WalkEffect(st.scanner, walked, now);
    SameQueue(st.scanner, AfterWalk(st.scanner, walked, now), st.pool.put);
  }

  lemma DueWasStable(st: State)
    requires Inv(st) && Enabled(st, Next(true)) && IsDue(st)
    ensures var p := st.scanner.phase.order[st.scanner.phase.i];
            WasStable(st.scanner.scans, p, st.scanner.phase.files[p].allowed)
  {
    var s := st.scanner;
    var p := s.phase.order[s.phase.i];
    assert StableAt(s.scans, |s.scans| - 1, p, s.phase.files[p].allowed);
  }

  lemma TakeFits(st: State)
    requires Inv(st) && Enabled(st, Next(true)) && ToPut(st)
    ensures forall path :: Fits(Apply(st, Next(true)).scanner, st.pool.put, path)
  {
    hide UploadPool.Inv, Times, WasStable, PhaseFits, LeftFor;
    var st', s := Apply(st, Next(true)), st.scanner;
    DueWasStable(st);
    forall path ensures Fits(st'.scanner, st.pool.put, path) {
      assert Fits(s, st.pool.put, path);
    }
  }

  lemma TakeStep(st: State)
    requires Inv(st) && Enabled(st, Next(true)) && ToPut(st)
    ensures Inv(Apply(st, Next(true)))
  {
    hide UploadPool.Inv, Fits, FilesGone, WasStable, ScanAt;
    var s := st.scanner;
    var p, files := s.phase.order[s.phase.i], s.phase.files;
    TakeFits(st);
    assert s.accepted + {p} + AllowedNames(files) == s.accepted + AllowedNames(files);
    SubsetSize(s.accepted + {p}, s.accepted + AllowedNames(files));
  }

  lemma PutFileKeepsInv(st: State)
    requires Inv(st) && Enabled(st, PutFile)
    ensures Inv(Apply(st, PutFile))
  {
    hide UploadPool.Inv, Times, WasStable, FilesGone, AllowedNames;
    var st', p := Apply(st, PutFile), st.scanner.phase.order[st.scanner.phase.i];
    PutKeepsInv(st.pool, File(p));
    forall path ensures Fits(st'.scanner, st'.pool.put, path) {
      assert Fits(st.scanner, st.pool.put, path);
      TimesGrows(st.pool.put, p, path);
    }
  }

  lemma {:induction false} SubsetSize(a: set<string>, b: set<string>)
    requires a <= b
    ensures |a| <= |b|
  {
    assert b == a + (b - a);
  }

  lemma DropFits(st: State, unlinked: bool)
    requires Inv(st) && Enabled(st, Next(unlinked)) && IsDue(st) && !ToPut(st)
    ensures forall path :: Fits(Apply(st, Next(unlinked)).scanner, st.pool.put, path)
  {
    hide UploadPool.Inv, Times, WasStable, PhaseFits, LeftFor;
    var st', s := Apply(st, Next(unlinked)), st.scanner;
    var p := s.phase.order[s.phase.i];
    DueWasStable(st);
    forall path ensures Fits(st'.scanner, st.pool.put, path) {
      assert Fits(s, st.pool.put, path) && Fits(s, st.pool.put, p);
      TimesGrows(s.dropped, p, path);
    }
  }

  lemma DropStep(st: State, unlinked: bool)
    requires Inv(st) && Enabled(st, Next(unlinked)) && IsDue(st) && !ToPut(st)
    ensures Inv(Apply(st, Next(unlinked)))
  {
    hide UploadPool.Inv, Fits, FilesGone, AllowedNames;
    DropFits(st, unlinked);
  }

  lemma PassStep(st: State, unlinked: bool)
    requires Inv(st) && Enabled(st, Next(unlinked)) && !IsDue(st)
    ensures Inv(Apply(st, Next(unlinked)))
  {
    hide UploadPool.Inv, Fits, FilesGone, IsDue, AllowedNames, WellWalked;
    SameQueue(st.scanner, Apply(st, Next(unlinked)).scanner, st.pool.put);
  }

  /** A file that is to be put is not unlinked. */
  lemma Unlinks(st: State, unlinked: bool)
    requires Enabled(st, Next(unlinked))
    ensures Enabled(st, Next(true)) && (ToPut(st) ==> Apply(st, Next(unlinked)) == Apply(st, Next(true)))
  {}

  lemma NextKeepsInv(st: State, unlinked: bool)
    requires Inv(st) && Enabled(st, Next(unlinked))
    ensures Inv(Apply(st, Next(unlinked)))
  {
    hide Inv, Apply;
    Unlinks(st, unlinked);
    if ToPut(st) {
      TakeStep(st);
    } else if IsDue(st) {
      DropStep(st, unlinked);
    } else {
      PassStep(st, unlinked);
    }
  }

  /** When nothing is unfinished, the queue is empty and no worker has a file. */
  lemma UnfinishedNone(pool: Pool)
    requires UploadPool.Inv(pool) && pool.unfinished == 0
    ensures FilesGone(pool)
  {
    AllTerminal(pool);
    forall i | 0 <= i < |pool.workers| ensures !pool.workers[i].Took? && !pool.workers[i].Uploading? {
      if Holds(pool.workers[i], "") || pool.workers[i].Took? || pool.workers[i].Uploading? {
        HoldingCounts(pool.workers, i);
        NotBusy(pool.workers);
      }
    }
  }

  lemma {:induction false} HoldingCounts(workers: seq<Worker>, i: nat)
    requires i < |workers|
    ensures workers[i].Took? || workers[i].Uploading? ==> Holding(workers) > 0
    decreases |workers|
  {
    if i > 0 {
      HoldingCounts(workers[1..], i - 1);
    }
  }

  lemma DecideKeepsInv(st: State, now: int)
    requires Inv(st) && Enabled(st, Decide(now))
    ensures Inv(Apply(st, Decide(now)))
  {
    hide UploadPool.Inv, Fits, FilesGone, AllowedNames;
    SameQueue(st.scanner, AfterDecide(st, now), st.pool.put);
  }

  lemma ControlKeepsInv(st: State, step: Step)
    requires Inv(st) && Enabled(st, step)
    requires step.WalkFails? || step.Leave? || step.EndItems? || step.JoinTasks? || step.JoinThreads? || step.Stop?
    ensures Inv(Apply(st, step))
  {
    hide UploadPool.Inv, Fits, FilesGone, AllowedNames, WellWalked;
    if step.JoinTasks? {
      UnfinishedNone(st.pool);
    }
    SameQueue(st.scanner, Apply(st, step).scanner, st.pool.put);
  }

  lemma PutMarkerKeepsInv(st: State)
    requires Inv(st) && Enabled(st, PutMarker)
    ensures Inv(Apply(st, PutMarker))
  {
    hide UploadPool.Inv, Times, WasStable;
    var st' := Apply(st, PutMarker);
    PutKeepsInv(st.pool, Marker);
    forall path ensures Fits(st'.scanner, st'.pool.put, path) {
      assert Fits(st.scanner, st.pool.put, path);
    }
  }

  lemma WorkLeaves(pool: Pool, step: WorkerStep)
    requires UploadPool.Enabled(pool, step)
    ensures UploadPool.Apply(pool, step).put == pool.put
    ensures pool.failedSet ==> UploadPool.Apply(pool, step).failedSet
    ensures FilesGone(pool) ==> FilesGone(UploadPool.Apply(pool, step))
  {
    if FilesGone(pool) {
      var pool' := UploadPool.Apply(pool, step);
      assert pool.workers[step.w] in pool.workers;
      assert forall item | item in pool'.queue :: item in pool.queue;
      if step.Get? {
        assert pool.queue[0] in pool.queue;
      }
      forall w | w in pool'.workers ensures !w.Took? && !w.Uploading? {
        var i :| 0 <= i < |pool'.workers| && pool'.workers[i] == w;
        if i != step.w {
          assert pool.workers[i] in pool.workers;
        }
      }
    }
  }

  lemma WorkKeepsInv(st: State, step: WorkerStep)
    requires Inv(st) && Enabled(st, Work(step))
    ensures Inv(Apply(st, Work(step)))
  {
    hide UploadPool.Inv, UploadPool.Apply, UploadPool.Enabled, Times, WasStable, FilesGone;
    var st' := Apply(st, Work(step));
    WorkerKeepsInv(st.pool, step);
    WorkLeaves(st.pool, step);
    forall path ensures Fits(st'.scanner, st'.pool.put, path) {
      assert Fits(st.scanner, st.pool.put, path);
    }
  }

  lemma StepKeepsInv(st: State, step: Step)
    requires Inv(st) && Enabled(st, step)
    ensures Inv(Apply(st, step))
  {
    hide Inv, Enabled, Apply;
    match step
    case Walk(walked, now) => WalkKeepsInv(st, walked, now);
    case Next(unlinked) => NextKeepsInv(st, unlinked);
    case PutFile => PutFileKeepsInv(st);
    case Decide(now) => DecideKeepsInv(st, now);
    case PutMarker => PutMarkerKeepsInv(st);
    case Work(s) => WorkKeepsInv(st, s);
    case _ => ControlKeepsInv(st, step);
  }

  lemma {:induction false} RunKeepsInv(st: State, steps: seq<Step>)
    requires Inv(st) && IsRun(st, steps)
    ensures Inv(Final(st, steps))
    decreases |steps|
  {
    hide Inv, Enabled, Apply;
    if steps != [] {
      StepKeepsInv(st, steps[0]);
      RunKeepsInv(Apply(st, steps[0]), steps[1..]);
    }
  }

  lemma {:induction false} AllWaiting(workers: seq<Worker>)
    requires forall w | w in workers :: w == Waiting
    ensures Busy(workers) == 0 && Actives(workers) == 0 && Holding(workers) == 0
    ensures forall path :: Held(workers, path) == 0
  {
    if workers != [] {
      assert forall w | w in workers[1..] :: w in workers;
      AllWaiting(workers[1..]);
      assert workers[0] in workers;
    }
  }

  lemma InitialInv(limits: Limits, workers: nat, tolerant: bool)
    ensures Inv(Initial(limits, workers, tolerant))
  {
    var pool := Initial(limits, workers, tolerant).pool;
    AllWaiting(pool.workers);
    assert forall path :: Conserves(pool, path);
  }

  // ---- The properties of whole runs ---------------------------------------------------------------------------

  ghost predicate Reachable(st: State) {
    exists limits, workers, tolerant, steps ::
      && IsRun(Initial(limits, workers, tolerant), steps)
      && st == Final(Initial(limits, workers, tolerant), steps)
  }

  lemma ReachableInv(st: State)
    requires Reachable(st)
    ensures Inv(st)
  {
    hide Inv, IsRun, Final, Initial;
    var limits, workers, tolerant, steps :|
      && IsRun(Initial(limits, workers, tolerant), steps)
      && st == Final(Initial(limits, workers, tolerant), steps);
    InitialInv(limits, workers, tolerant);
    RunKeepsInv(Initial(limits, workers, tolerant), steps);
  }

  /** At all times: a path is put at most once or dropped at most once and not both, only after two consecutive scans
      saw the same identity, which says which of the two; and no more than the limit is put. A queued path is put or
      dropped already, unless the scanner waits for room to put it. */
  lemma QueuedOnceAndStable(st: State, path: string)
    requires Reachable(st)
    ensures Times(st.pool.put, path) + Times(st.scanner.dropped, path) + One(InHand(st.scanner, path))
         == One(path in st.scanner.queued)
    ensures Times(st.pool.put, path) > 0 ==> WasStable(st.scanner.scans, path, true)
    ensures Times(st.scanner.dropped, path) > 0 ==> WasStable(st.scanner.scans, path, false)
    ensures |st.scanner.accepted| <= MAX_FILES
    ensures Times(st.pool.put, path) + One(InHand(st.scanner, path)) == One(path in st.scanner.accepted)
  {
    hide WasStable, Times, PhaseFits, LeftFor, UploadPool.Inv;
    ReachableInv(st);
    assert Fits(st.scanner, st.pool.put, path);
  }

  /** The task queue is bounded, and nobody is counted as active or unfinished who is not. */
  lemma QueueIsBounded(st: State)
    requires Reachable(st)
    ensures |st.pool.queue| <= st.pool.capacity
    ensures st.pool.active == Actives(st.pool.workers)
    ensures st.pool.unfinished == |st.pool.queue| + Busy(st.pool.workers)
  {
    hide Reachable;
    ReachableInv(st);
  }

  /** The quiet exit is taken only when every file that was put has been completed or has failed, and every file of the
      last scan was queued; nothing is put after it. */
  lemma QuietExit(st: State, now: int)
    requires Reachable(st) && Enabled(st, Decide(now)) && Apply(st, Decide(now)).scanner.quiet
    ensures forall path :: Times(st.pool.put, path) == Completed(st.pool.done, path) + Times(st.pool.failed, path)
    ensures forall path | path in ScanAt(st.scanner.scans, |st.scanner.scans| - 1) :: path in st.scanner.queued
  {
    hide UploadPool.Inv, Fits, Times, Completed;
    ReachableInv(st);
    assert !st.scanner.quiet;
    AllTerminal(st.pool);
  }

  lemma {:induction false} DoneFor(pool: Pool, path: string)
    requires UploadPool.Inv(pool) && FilesGone(pool)
    ensures Times(pool.put, path) == Completed(pool.done, path) + Times(pool.failed, path)
    ensures |pool.put| == pool.completed + |pool.failed|
  {
    hide Times, Completed;
    assert Conserves(pool, path);
    NoFiles(pool.queue, path);
    NoHolders(pool.workers, path);
  }

  lemma {:induction false} NoFiles(queue: seq<Item>, path: string)
    requires forall item | item in queue :: item == Marker
    ensures Queued(queue, path) == 0 && UploadPool.Files(queue) == 0
  {
    if queue != [] {
      assert queue[0] in queue && forall item | item in queue[1..] :: item in queue;
      NoFiles(queue[1..], path);
    }
  }

  lemma {:induction false} NoHolders(workers: seq<Worker>, path: string)
    requires forall w | w in workers :: !w.Took? && !w.Uploading?
    ensures Held(workers, path) == 0 && Holding(workers) == 0
  {
    if workers != [] {
      assert workers[0] in workers && forall w | w in workers[1..] :: w in workers;
      NoHolders(workers[1..], path);
    }
  }

  /** When the upload is done, each accepted file was completed once or failed once; the response counts them so; it
      says that all went well exactly when nothing failed; and when the loop was left because it was quiet, there is
      no other error and no file of the last scan was left out. */
  lemma UploadEnds(st: State)
    requires Reachable(st) && st.scanner.phase == Done
    ensures forall path ::
              Completed(st.pool.done, path) + Times(st.pool.failed, path) == One(path in st.scanner.accepted)
    ensures var r := ResponseOf(st);
            && r.filesCompleted == (|st.pool.done|, |st.pool.put|)
            && r.filesFailed == (|st.pool.failed|, |st.pool.put|)
            && r.filesCompleted.0 + r.filesFailed.0 == |st.pool.put|
            && r.bytesCompleted == BytesOf(st.pool.done)
            && (r.errorCode == "0" <==> st.scanner.error.None? && |st.pool.done| == |st.pool.put|)
    ensures st.scanner.quiet ==>
              && st.scanner.error.None?
              && forall path | path in ScanAt(st.scanner.scans, |st.scanner.scans| - 1) :: path in st.scanner.queued
    ensures !st.scanner.quiet ==> st.scanner.error.Some? || st.stop || (!st.pool.tolerant && st.pool.failed != [])
  {
    hide Times, Completed, PhaseFits;
    ReachableInv(st);
    DoneFor(st.pool, "");
    forall path
      ensures Completed(st.pool.done, path) + Times(st.pool.failed, path) == One(path in st.scanner.accepted)
    {
      DoneFor(st.pool, path);
      assert Fits(st.scanner, st.pool.put, path);
    }
  }

  // ---- After a failure ----------------------------------------------------------------------------------------

  /** Without tolerance a failed file is signalled as soon as no worker is between recording and signalling; with
      tolerance none ever is. */
  lemma FailureIsSignalled(st: State)
    requires Reachable(st)
    ensures !st.pool.tolerant && st.pool.failed != [] ==>
              st.pool.failedSet || exists w :: 0 <= w < |st.pool.workers| && st.pool.workers[w].Failing?
    ensures st.pool.failedSet ==> !st.pool.tolerant && st.pool.failed != []
  {
    hide Reachable;
    ReachableInv(st);
  }

  /** The files that were put by the end of the list at `more`, beyond those of `less`. */
  predicate PutsNoMoreThan(less: State, more: State) {
    more.pool.put == less.pool.put
    || (less.scanner.phase.Putting? && less.scanner.phase.i < |less.scanner.phase.order|
        && more.pool.put == less.pool.put + [less.scanner.phase.order[less.scanner.phase.i]])
  }

  /** The put that was in hand, if there was one, is over. */
  predicate InHandStill(less: State, more: State) {
    more.pool.put == less.pool.put && more.scanner.phase == less.scanner.phase
  }

  lemma SignalledStep(less: State, st: State, step: Step)
    requires st.pool.failedSet && Enabled(st, step) && PutsNoMoreThan(less, st)
    requires st.scanner.phase.Putting? ==> InHandStill(less, st)
    requires st.scanner.queued == less.scanner.queued && st.scanner.dropped == less.scanner.dropped
    ensures var st' := Apply(st, step);
            && st'.pool.failedSet && PutsNoMoreThan(less, st')
            && (st'.scanner.phase.Putting? ==> InHandStill(less, st'))
            && st'.scanner.queued == less.scanner.queued && st'.scanner.dropped == less.scanner.dropped
  {
    hide AllowedBytes, AllowedNames, HasRemaining, WellWalked;
    if step.Work? {
      WorkLeaves(st.pool, step.step);
    }
  }

  lemma {:induction false} SignalledRun(less: State, st: State, steps: seq<Step>)
    requires st.pool.failedSet && IsRun(st, steps) && PutsNoMoreThan(less, st)
    requires st.scanner.phase.Putting? ==> InHandStill(less, st)
    requires st.scanner.queued == less.scanner.queued && st.scanner.dropped == less.scanner.dropped
    ensures var st' := Final(st, steps);
            && st'.pool.failedSet && PutsNoMoreThan(less, st')
            && st'.scanner.queued == less.scanner.queued && st'.scanner.dropped == less.scanner.dropped
    decreases |steps|
  {
    hide Enabled, Apply, PutsNoMoreThan, InHandStill;
    if steps != [] {
      SignalledStep(less, st, steps[0]);
      SignalledRun(less, Apply(st, steps[0]), steps[1..]);
    }
  }

  /** Once a failure has been signalled, nothing more is queued, whatever happens: no file is accepted or dropped, and
      none is put but the one that the scanner had in hand. */
  lemma NothingAfterFailure(st: State, steps: seq<Step>)
    requires st.pool.failedSet && IsRun(st, steps)
    ensures var st' := Final(st, steps);
            && st'.pool.failedSet && st'.scanner.queued == st.scanner.queued
            && st'.scanner.dropped == st.scanner.dropped
            && (st'.pool.put == st.pool.put
                || (st.scanner.phase.Putting? && st.scanner.phase.i < |st.scanner.phase.order|
                    && st'.pool.put == st.pool.put + [st.scanner.phase.order[st.scanner.phase.i]]))
  {
    hide IsRun, Final;
    SignalledRun(st, st, steps);
  }

  /** After a stop signal or a failure no further walk is admitted. */
  lemma {:induction false} NoWalkAfterStop(st: State, steps: seq<Step>)
    requires (st.stop || st.pool.failedSet) && IsRun(st, steps)
    ensures Final(st, steps).scanner.scans == st.scanner.scans
    decreases |steps|
  {
    hide Enabled, Apply;
    if steps != [] {
      StoppedStep(st, steps[0]);
      NoWalkAfterStop(Apply(st, steps[0]), steps[1..]);
    }
  }

  lemma StoppedStep(st: State, step: Step)
    requires (st.stop || st.pool.failedSet) && Enabled(st, step)
    ensures Apply(st, step).scanner.scans == st.scanner.scans
    ensures Apply(st, step).stop || Apply(st, step).pool.failedSet
  {
    hide AllowedBytes, AllowedNames, HasRemaining, WellWalked;
    if step.Work? {
      WorkLeaves(st.pool, step.step);
    }
  }
}
