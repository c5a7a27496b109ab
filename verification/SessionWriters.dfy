/** The result writers and the state directories of the parallel sessions: whose writer can be alive when, and what is
    left of a request on disk. */
module SessionWriters {
  import opened Options
  import opened Sessions

  predicate IsPublishing(p: Phase) { p == Spawned || p == PidWritten || p == Ready }

  predicate IsReady(p: Phase) { p == Ready || HasFinished(p) }

  predicate HasNoFiles(q: Request) { !q.done && !q.ready && !q.writerPid && !q.handlerPid }

  predicate IsRemoved(q: Request) { HasNoFiles(q) && !q.dir }

  /** The result of a request is offered while it publishes, and what shows that to its successor is written then. A new
      request has an empty directory. */
  predicate WriterFits(q: Request) {
    && (q.phase == Created ==> q.dir && HasNoFiles(q))
    && (q.writer == NotStarted <==> !IsPublishing(q.phase) && !HasFinished(q.phase))
    && (q.writer == Alive ==> IsPublishing(q.phase))
    && (q.writerPid ==> q.phase == PidWritten || IsReady(q.phase))
    && (q.ready || IsDiscarded(q.writer) ==> IsReady(q.phase))
  }

  /** What a request has done to its predecessor `p`. */
  predicate PreviousFits(q: Request, p: Request) {
    && (q.phase == Draining ==> IsReady(p.phase))
    && (q.phase == Removing ==> HasNoFiles(p))
    && (IsWaiting(q.phase) || q.phase == Clearing ==> p.dir)
    && (HasStarted(q.phase) ==> IsRemoved(p))
  }

  /** The process of a handler is known as soon as it can have a successor. */
  predicate HandlerFits(q: Request, isLast: bool, d: Dispatcher) {
    HasEnded(q.phase) || q.handlerPid || (isLast && (d.Registered? || d.Started?))
  }

  ghost predicate Writers(rs: seq<Request>) { forall r: nat | r < |rs| :: WriterFits(rs[r]) }

  ghost predicate Previouses(rs: seq<Request>) {
    forall r: nat | r < |rs| && rs[r].previous.Some? && rs[r].previous.value < |rs| ::
      PreviousFits(rs[r], rs[rs[r].previous.value])
  }

  ghost predicate Handlers(rs: seq<Request>, d: Dispatcher) {
    forall r: nat | r < |rs| :: HandlerFits(rs[r], r == |rs| - 1, d)
  }

  /** The table names requests whose directories are there; of a request that it does not name and that has no successor
      nothing is left. */
  ghost predicate Directories(rs: seq<Request>, latest: map<string, nat>, d: Dispatcher) {
    && (forall x | x in latest && latest[x] < |rs| :: rs[latest[x]].dir)
    && (forall x | x in latest && latest[x] < |rs| && d.Pruning? && d.removing == Some(x) :: HasNoFiles(rs[latest[x]]))
    && (forall r: nat | r < |rs| && r !in latest.Values && !HasSuccessor(rs, r) :: IsRemoved(rs[r]))
  }

  ghost predicate WritersFit(st: State) {
    && Writers(st.requests) && Previouses(st.requests) && Handlers(st.requests, st.dispatcher)
    && Directories(st.requests, st.latest, st.dispatcher)
  }

  // ---- Steps that rewrite one request -------------------------------------------------------------------------

  /** Nobody who has dealt with the old record is disturbed by the new one. */
  ghost predicate Presents(rs: seq<Request>, r: nat, q: Request)
    requires r < |rs|
  {
    && q.session == rs[r].session && q.previous == rs[r].previous && q.previous != Some(r)
    && WriterFits(q)
    && (q.previous.Some? && q.previous.value < |rs| ==> PreviousFits(q, rs[q.previous.value]))
    && (forall n: nat | n < |rs| && rs[n].previous == Some(r) :: PreviousFits(rs[n], q))
  }

  lemma UpdateKeepsPreviouses(rs: seq<Request>, r: nat, q: Request)
    requires Writers(rs) && Previouses(rs) && r < |rs| && Presents(rs, r, q)
    ensures Writers(rs[r := q]) && Previouses(rs[r := q])
  {
    hide PreviousFits, WriterFits;
  }

  /** The directories and files of a request on which the dispatcher has a claim. */
  ghost predicate Respects(st: State, r: nat, q: Request)
    requires r < |st.requests|
  {
    var old_ := st.requests[r];
    && (r in st.latest.Values ==> q.dir == old_.dir && (HasEnded(old_.phase) && HasNoFiles(old_) ==> HasNoFiles(q)))
    && (IsRemoved(old_) ==> IsRemoved(q))
    && (HandlerFits(old_, r == |st.requests| - 1, st.dispatcher)
        ==> HandlerFits(q, r == |st.requests| - 1, st.dispatcher))
  }

  /** A step that rewrites one request and leaves the dispatcher alone. */
  lemma UpdateFits(st: State, r: nat, q: Request)
    requires Inv(st) && WritersFit(st) && r < |st.requests| && Presents(st.requests, r, q) && Respects(st, r, q)
    ensures WritersFit(Put(st, r, q))
  {
    hide PreviousFits, WriterFits, HandlerFits, Sound, Log, Marks;
    UpdateKeepsPreviouses(st.requests, r, q);
    UpdateKeepsHandlers(st.requests, st.dispatcher, r, q);
    UpdateKeepsDirectories(st, r, q);
  }

  lemma UpdateKeepsHandlers(rs: seq<Request>, d: Dispatcher, r: nat, q: Request)
    requires Handlers(rs, d) && r < |rs|
    requires HandlerFits(rs[r], r == |rs| - 1, d) ==> HandlerFits(q, r == |rs| - 1, d)
    ensures Handlers(rs[r := q], d)
  {
    hide HandlerFits;
  }

  lemma UpdateKeepsDirectories(st: State, r: nat, q: Request)
    requires Inv(st) && r < |st.requests| && Directories(st.requests, st.latest, st.dispatcher)
    requires q.session == st.requests[r].session && q.previous == st.requests[r].previous && Respects(st, r, q)
    ensures Directories(st.requests[r := q], st.latest, st.dispatcher)
  {
    hide Sound, Log, Marks, HandlerFits, HasSuccessor;
    forall n: nat | n < |st.requests| && HasSuccessor(st.requests, n) ensures HasSuccessor(st.requests[r := q], n) {
      StillSucceeded(st.requests, r, q, n);
    }
  }

  lemma StillSucceeded(rs: seq<Request>, r: nat, q: Request, n: nat)
    requires r < |rs| && q.previous == rs[r].previous && HasSuccessor(rs, n)
    ensures HasSuccessor(rs[r := q], n)
  {
    var m :| 0 <= m < |rs| && rs[m].previous == Some(n);
    assert rs[r := q][m].previous == Some(n);
  }

  /** What the invariants say about a request that has not ended. */
  lemma OpenFacts(st: State, r: nat)
    requires Inv(st) && WritersFit(st) && r < |st.requests|
    ensures WriterFits(st.requests[r]) && st.requests[r].previous != Some(r)
    ensures !HasEnded(st.requests[r].phase) ==> st.requests[r].session in st.latest
    ensures HasPrevious(st, r) ==> PreviousFits(st.requests[r], st.requests[Previous(st, r)])
                                   && WriterFits(st.requests[Previous(st, r)])
    ensures HasPrevious(st, r) ==> Previous(st, r) !in st.latest.Values
                                   && st.requests[Previous(st, r)].session == st.requests[r].session
    ensures forall n: nat | n < |st.requests| && st.requests[n].previous == Some(r) ::
              PreviousFits(st.requests[n], st.requests[r])
              && (!IsWaiting(st.requests[n].phase) ==> HasEnded(st.requests[r].phase))
  {
    hide WriterFits, PreviousFits, Log, Marks, HandlerFits;
    Facts(st, r);
    if HasPrevious(st, r) {
      PreviousIsNotLast(st, r);
      assert Linked(st.requests, r);
    }
    forall n: nat | n < |st.requests| && st.requests[n].previous == Some(r)
      ensures PreviousFits(st.requests[n], st.requests[r])
      ensures !IsWaiting(st.requests[n].phase) ==> HasEnded(st.requests[r].phase)
    {
      Facts(st, n);
    }
  }

  // ---- Every step keeps it ------------------------------------------------------------------------------------

  /** The files of an ended request stay, and what is ready or has ended remains so. */
  predicate Follows(old_: Request, q: Request) {
    && q.session == old_.session && q.previous == old_.previous && q.dir == old_.dir && q.handlerPid == old_.handlerPid
    && (HasEnded(old_.phase) ==>
          HasEnded(q.phase) && q.done == old_.done && q.ready == old_.ready && q.writerPid == old_.writerPid)
    && (IsReady(old_.phase) ==> IsReady(q.phase))
  }

  lemma OwnUpdateFits(st: State, r: nat, q: Request)
    requires Inv(st) && WritersFit(st) && r < |st.requests| && Follows(st.requests[r], q) && WriterFits(q)
    requires HasPrevious(st, r) ==> PreviousFits(q, st.requests[Previous(st, r)])
    ensures WritersFit(Put(st, r, q))
  {
    hide Inv, WritersFit, WriterFits;
    OpenFacts(st, r);
    forall n: nat | n < |st.requests| && st.requests[n].previous == Some(r)
      ensures PreviousFits(st.requests[n], q)
    {
      Facts(st, n);
    }
    Facts(st, r);
    UpdateFits(st, r, q);
  }

  lemma OwnStepFits(st: State, r: nat, step: Step)
    requires Inv(st) && WritersFit(st) && Enabled(st, step)
    requires step in {Check(r), StopDrain(r), StartDrain(r), Publish(r), WriteWriterPid(r), MarkReady(r), Reap(r),
                      MarkDone(r), Exit(r), ClientRead(r)}
    ensures WritersFit(Apply(st, step))
  {
    hide Inv, WritersFit;
    OpenFacts(st, r);
    Facts(st, r);
    OwnStepFollows(st, r, step);
    hide *;
    OwnUpdateFits(st, r, Apply(st, step).requests[r]);
  }

  lemma OwnStepFollows(st: State, r: nat, step: Step)
    requires Enabled(st, step) && r < |st.requests| && WriterFits(st.requests[r])
    requires step in {Check(r), StopDrain(r), StartDrain(r), Publish(r), WriteWriterPid(r), MarkReady(r), Reap(r),
                      MarkDone(r), Exit(r), ClientRead(r)}
    requires HasPrevious(st, r) ==> PreviousFits(st.requests[r], st.requests[Previous(st, r)])
    requires HasPrevious(st, r) ==> WriterFits(st.requests[Previous(st, r)])
    ensures var q := Apply(st, step).requests[r];
            && Apply(st, step) == Put(st, r, q) && Follows(st.requests[r], q) && WriterFits(q)
            && (HasPrevious(st, r) ==> PreviousFits(q, st.requests[Previous(st, r)]))
  {
    if step in {Check(r), StopDrain(r), StartDrain(r)} {
      WaitingFollows(st, r, step);
    } else {
      PublishingFollows(st, r, step);
    }
  }

  lemma WaitingFollows(st: State, r: nat, step: Step)
    requires Enabled(st, step) && r < |st.requests| && WriterFits(st.requests[r])
    requires step in {Check(r), StopDrain(r), StartDrain(r)}
    requires HasPrevious(st, r) ==> PreviousFits(st.requests[r], st.requests[Previous(st, r)])
    requires HasPrevious(st, r) ==> WriterFits(st.requests[Previous(st, r)])
    ensures var q := Apply(st, step).requests[r];
            && Apply(st, step) == Put(st, r, q) && Follows(st.requests[r], q) && WriterFits(q)
            && (HasPrevious(st, r) ==> PreviousFits(q, st.requests[Previous(st, r)]))
  {}

  lemma PublishingFollows(st: State, r: nat, step: Step)
    requires Enabled(st, step) && r < |st.requests| && WriterFits(st.requests[r])
    requires step in {Publish(r), WriteWriterPid(r), MarkReady(r), Reap(r), MarkDone(r), Exit(r), ClientRead(r)}
    ensures var q := Apply(st, step).requests[r];
            && Apply(st, step) == Put(st, r, q) && Follows(st.requests[r], q) && WriterFits(q)
            && forall p :: PreviousFits(st.requests[r], p) ==> PreviousFits(q, p)
  {
    hide PreviousFits, WriterFits;
    var q := Apply(st, step).requests[r];
    PublishingMoves(st, r, step);
    forall p | PreviousFits(st.requests[r], p) ensures PreviousFits(q, p) {
      LaterFits(st.requests[r], q, p);
    }
  }

  lemma LaterFits(old_: Request, q: Request, p: Request)
    requires PreviousFits(old_, p) && (q.phase == old_.phase || (HasStarted(old_.phase) && HasStarted(q.phase)))
    ensures PreviousFits(q, p)
  {}

  lemma PublishingMoves(st: State, r: nat, step: Step)
    requires Enabled(st, step) && r < |st.requests| && WriterFits(st.requests[r])
    requires step in {Publish(r), WriteWriterPid(r), MarkReady(r), Reap(r), MarkDone(r), Exit(r), ClientRead(r)}
    ensures var q := Apply(st, step).requests[r];
            && Apply(st, step) == Put(st, r, q) && Follows(st.requests[r], q) && WriterFits(q)
            && (q.phase == st.requests[r].phase || (HasStarted(st.requests[r].phase) && HasStarted(q.phase)))
  {}

  /** What a handler does to the record of its predecessor. */
  lemma PreviousUpdateFits(st: State, r: nat, q: Request)
    requires Inv(st) && WritersFit(st) && HasPrevious(st, r) && !HasEnded(st.requests[r].phase)
    requires var old_ := st.requests[Previous(st, r)];
             && q.session == old_.session && q.previous == old_.previous && q.phase == old_.phase && WriterFits(q)
             && (HasNoFiles(old_) ==> HasNoFiles(q)) && (!old_.dir ==> !q.dir)
             && (HandlerFits(old_, false, st.dispatcher) ==> HandlerFits(q, false, st.dispatcher))
    requires PreviousFits(st.requests[r], q)
    ensures WritersFit(Put(st, Previous(st, r), q))
  {
    hide Inv, WritersFit, WriterFits, HandlerFits;
    var p := Previous(st, r);
    OpenFacts(st, r);
    OpenFacts(st, p);
    OnlyOneAfter(st, r);
    PreviousOfPrevious(st, p, q);
    forall n: nat | n < |st.requests| && st.requests[n].previous == Some(p)
      ensures PreviousFits(st.requests[n], q)
    {
      assert n == r;
    }
    Facts(st, r);
    UpdateFits(st, p, q);
  }

  lemma PreviousOfPrevious(st: State, p: nat, q: Request)
    requires Inv(st) && WritersFit(st) && p < |st.requests| && q.phase == st.requests[p].phase
    ensures HasPrevious(st, p) ==> PreviousFits(q, st.requests[Previous(st, p)])
  {
    hide Inv, WritersFit, WriterFits;
    OpenFacts(st, p);
  }

  lemma OnlyOneAfter(st: State, r: nat)
    requires Inv(st) && HasPrevious(st, r)
    ensures forall n: nat | n < |st.requests| && st.requests[n].previous == Some(Previous(st, r)) :: n == r
    ensures Previous(st, r) < |st.requests| - 1
  {
    OnlySuccessor(st.requests, Previous(st, r), r);
    Facts(st, r);
  }

  lemma EnterFits(st: State, r: nat)
    requires Inv(st) && WritersFit(st) && Enabled(st, Enter(r))
    ensures WritersFit(Apply(st, Enter(r)))
  {
    hide Inv, WritersFit;
    OpenFacts(st, r);
    var waits := HasPrevious(st, r);
    OwnUpdateFits(st, r, st.requests[r].(phase := if waits then Looping else Executing));
    SameRequests(Put(st, r, st.requests[r].(phase := if waits then Looping else Executing)), Apply(st, Enter(r)));
  }

  lemma SameRequests(st: State, st': State)
    requires st'.requests == st.requests && st'.latest == st.latest && st'.dispatcher == st.dispatcher
    requires WritersFit(st)
    ensures WritersFit(st')
  {}

  lemma OnPreviousFits(st: State, r: nat, step: Step)
    requires Inv(st) && WritersFit(st) && Enabled(st, step) && step in {Presume(r), Drain(r), Kill(r)}
    ensures WritersFit(Apply(st, step))
  {
    hide Inv, WritersFit;
    OpenFacts(st, r);
    Facts(st, r);
    PreviousUpdateFits(st, r, Apply(st, step).requests[Previous(st, r)]);
  }

  lemma ClearFilesFits(st: State, r: nat)
    requires Inv(st) && WritersFit(st) && Enabled(st, ClearFiles(r))
    ensures WritersFit(Apply(st, ClearFiles(r)))
  {
    hide Inv, WritersFit, WriterFits;
    var p := Previous(st, r);
    OpenFacts(st, r);
    Facts(st, r);
    var q := WithoutFiles(st.requests[p]);
    EmptiedFits(st.requests[p]);
    WaitsOn(st.requests[r]);
    PreviousUpdateFits(st, r, q);
    ClearPreviousKeepsInv(st, r, q);
    OwnUpdateFits(Put(st, p, q), r, st.requests[r].(phase := Removing));
    SameRequests(Put(Put(st, p, q), r, st.requests[r].(phase := Removing)), Apply(st, ClearFiles(r)));
  }

  lemma WaitsOn(q: Request)
    requires WriterFits(q)
    ensures q.phase == Clearing ==> WriterFits(q.(phase := Removing))
    ensures q.phase == Removing ==> WriterFits(q.(phase := Executing))
  {}

  lemma ClearDirFits(st: State, r: nat)
    requires Inv(st) && WritersFit(st) && Enabled(st, ClearDir(r))
    ensures WritersFit(Apply(st, ClearDir(r)))
  {
    hide Inv, WritersFit, WriterFits;
    var p := Previous(st, r);
    OpenFacts(st, r);
    Facts(st, r);
    var q := st.requests[p].(dir := false);
    EmptiedFits(st.requests[p]);
    WaitsOn(st.requests[r]);
    PreviousUpdateFits(st, r, q);
    ClearPreviousKeepsInv(st, r, q);
    OwnUpdateFits(Put(st, p, q), r, st.requests[r].(phase := Executing));
    SameRequests(Put(Put(st, p, q), r, st.requests[r].(phase := Executing)), Apply(st, ClearDir(r)));
  }

  lemma RegisterFits(st: State)
    requires Inv(st) && WritersFit(st) && Enabled(st, Register)
    ensures WritersFit(Apply(st, Register))
  {
    hide Log, Marks, Sound, PreviousFits, WriterFits, HasSuccessor, IsRemoved, Table;
    var st' := Apply(st, Register);
    var q := st'.requests[|st.requests|];
    NewFits(st, q);
    AppendKeepsPreviouses(st.requests, q);
    AppendKeepsDirectories(st, q);
  }

  lemma NewFits(st: State, q: Request)
    requires Inv(st) && WritersFit(st) && Enabled(st, Register)
    requires q == Apply(st, Register).requests[|st.requests|]
    ensures WriterFits(q) && q.phase == Created && q.session == st.dispatcher.session
    ensures q.previous.Some? && q.previous.value < |st.requests| ==> PreviousFits(q, st.requests[q.previous.value])
    ensures q.previous == if q.session in st.latest then Some(st.latest[q.session]) else None
    ensures forall n: nat | n < |st.requests| && st.requests[n].previous.Some? :: st.requests[n].previous.value < n
    ensures forall x | x in st.latest :: st.latest[x] < |st.requests| && st.requests[st.latest[x]].session == x
    ensures q.dir
  {
    hide Log, Marks;
    forall n: nat | n < |st.requests| && st.requests[n].previous.Some? ensures st.requests[n].previous.value < n {
      assert Linked(st.requests, n);
    }
  }

  lemma AppendKeepsPreviouses(rs: seq<Request>, q: Request)
    requires Writers(rs) && Previouses(rs) && WriterFits(q)
    requires q.previous.Some? && q.previous.value < |rs| ==> PreviousFits(q, rs[q.previous.value])
    requires q.previous.Some? ==> q.previous.value < |rs|
    requires forall n: nat | n < |rs| && rs[n].previous.Some? :: rs[n].previous.value < n
    ensures Writers(rs + [q]) && Previouses(rs + [q])
  {
    hide PreviousFits, WriterFits;
  }

  lemma AppendKeepsDirectories(st: State, q: Request)
    requires Directories(st.requests, st.latest, st.dispatcher) && q.dir && !st.dispatcher.Pruning?
    requires q.previous == if q.session in st.latest then Some(st.latest[q.session]) else None
    requires forall x | x in st.latest :: st.latest[x] < |st.requests| && st.requests[st.latest[x]].session == x
    ensures Directories(st.requests + [q], st.latest[q.session := |st.requests|], Registered)
  {
    hide HasSuccessor, IsRemoved;
    var rs, latest := st.requests + [q], st.latest[q.session := |st.requests|];
    forall r: nat | r < |rs| && r !in latest.Values && !HasSuccessor(rs, r) ensures IsRemoved(rs[r]) {
      NamedStill(st.latest, q.session, |st.requests|);
      if HasSuccessor(st.requests, r) {
        SucceededBefore(st.requests, q, r);
      }
      if q.session in st.latest && st.latest[q.session] == r {
        NewSucceeds(st.requests, q, r);
      }
    }
  }

  lemma NamedStill(latest: map<string, nat>, s: string, r: nat)
    ensures r in latest[s := r].Values
    ensures forall x | x in latest && x != s :: latest[x] in latest[s := r].Values
    ensures forall n | n in latest.Values :: n in latest[s := r].Values || (s in latest && latest[s] == n)
  {
    assert latest[s := r][s] == r;
    forall x | x in latest && x != s ensures latest[x] in latest[s := r].Values {
      assert latest[s := r][x] == latest[x];
    }
  }

  lemma SucceededBefore(rs: seq<Request>, q: Request, r: nat)
    requires HasSuccessor(rs, r)
    ensures HasSuccessor(rs + [q], r)
  {
    var m :| 0 <= m < |rs| && rs[m].previous == Some(r);
    assert (rs + [q])[m].previous == Some(r);
  }

  lemma NewSucceeds(rs: seq<Request>, q: Request, r: nat)
    requires q.previous == Some(r)
    ensures HasSuccessor(rs + [q], r)
  {
    assert (rs + [q])[|rs|].previous == Some(r);
  }

  lemma SpawnFits(st: State)
    requires Inv(st) && WritersFit(st) && Enabled(st, Spawn)
    ensures WritersFit(Apply(st, Spawn))
  {
    hide Log, Marks, Sound, Inv, WritersFit;
    var r := |st.requests| - 1;
    var q := st.requests[r].(phase := Entering);
    OpenFacts(st, r);
    NothingAfterLast(st);
    Facts(st, r);
    UpdateFits(st, r, q);
    Turns(Put(st, r, q), Started);
  }

  /** The dispatcher turns from one task to another that is not pruning. */
  lemma Turns(st: State, d: Dispatcher)
    requires WritersFit(st) && !d.Pruning?
    requires st.dispatcher.Registered? || st.dispatcher.Started? ==> d.Registered? || d.Started?
    ensures WritersFit(st.(dispatcher := d))
  {
    hide WriterFits, PreviousFits, IsRemoved;
  }

  lemma NothingAfterLast(st: State)
    requires Inv(st) && st.requests != []
    ensures forall n: nat | n < |st.requests| :: st.requests[n].previous != Some(|st.requests| - 1)
  {
    forall n: nat | n < |st.requests| ensures st.requests[n].previous != Some(|st.requests| - 1) {
      assert Linked(st.requests, n);
    }
  }

  /** The last request is the one that the table names for its session, or has ended. */
  lemma LastIsThere(st: State)
    requires Inv(st) && WritersFit(st) && st.requests != []
    ensures var q := st.requests[|st.requests| - 1]; HasEnded(q.phase) || q.dir
    ensures |st.requests| - 1 in st.latest.Values || HasEnded(st.requests[|st.requests| - 1].phase)
  {
    var q := st.requests[|st.requests| - 1];
    if q.session in st.latest {
      assert st.latest[q.session] == |st.requests| - 1;
    }
  }

  lemma WriteHandlerPidFits(st: State)
    requires Inv(st) && WritersFit(st) && Enabled(st, WriteHandlerPid)
    ensures WritersFit(Apply(st, WriteHandlerPid))
  {
    hide Log, Marks, Sound, Inv, WritersFit, WriterFits;
    var r := |st.requests| - 1;
    var q := st.requests[r].(handlerPid := st.requests[r].dir);
    OpenFacts(st, r);
    NothingAfterLast(st);
    LastIsThere(st);
    NotRemoving(st);
    Facts(st, r);
    SameWriter(st.requests[r], q);
    LastUpdateFits(st, r, q);
  }

  lemma SameWriter(old_: Request, q: Request)
    requires q == old_.(handlerPid := q.handlerPid) && WriterFits(old_) && q.phase != Created
    ensures WriterFits(q)
  {}

  lemma NotRemoving(st: State)
    requires st.dispatcher.Started?
    ensures !st.dispatcher.Pruning?
  {}

  lemma LastUpdateFits(st: State, r: nat, q: Request)
    requires Inv(st) && WritersFit(st) && st.dispatcher.Started? && r == |st.requests| - 1
    requires q == st.requests[r].(handlerPid := st.requests[r].dir) && Presents(st.requests, r, q)
    requires HasEnded(q.phase) || q.dir
    ensures WritersFit(Put(st, r, q).(dispatcher := Idle))
  {
    hide Log, Marks, Sound, PreviousFits, WriterFits, HasSuccessor;
    UpdateKeepsPreviouses(st.requests, r, q);
    forall n: nat | n < |st.requests| && HasSuccessor(st.requests, n) ensures HasSuccessor(st.requests[r := q], n) {
      StillSucceeded(st.requests, r, q, n);
    }
  }

  lemma PruneFilesFits(st: State, x: string)
    requires Inv(st) && WritersFit(st) && Enabled(st, PruneFiles(x))
    ensures WritersFit(Apply(st, PruneFiles(x)))
  {
    hide Inv, PreviousFits, WriterFits, HasSuccessor, Directories, IsRemoved;
    var r := st.latest[x];
    var q := WithoutFiles(st.requests[r]);
    EndedLast(st, x);
    EmptiedFits(st.requests[r]);
    UpdateKeepsPreviouses(st.requests, r, q);
    EmptyingKeepsDirectories(st, x, q);
  }

  lemma EmptyingKeepsDirectories(st: State, x: string, q: Request)
    requires Inv(st) && x in st.latest && st.latest[x] < |st.requests| && q == WithoutFiles(st.requests[st.latest[x]])
    requires Directories(st.requests, st.latest, st.dispatcher) && st.dispatcher.Pruning?
    ensures Directories(st.requests[st.latest[x] := q], st.latest, st.dispatcher.(removing := Some(x)))
  {
    hide Log, Marks, Sound, HasSuccessor;
    var r := st.latest[x];
    DistinctLast(st, x);
    forall n: nat | n < |st.requests| && HasSuccessor(st.requests, n) ensures HasSuccessor(st.requests[r := q], n) {
      StillSucceeded(st.requests, r, q, n);
    }
  }

  lemma EmptiedFits(q: Request)
    requires WriterFits(q) && q.phase != Created
    ensures WriterFits(WithoutFiles(q)) && WriterFits(q.(dir := false))
    ensures forall p :: PreviousFits(q, p) ==> PreviousFits(WithoutFiles(q), p) && PreviousFits(q.(dir := false), p)
  {}

  /** The request that is pruned has ended and has no successor. */
  lemma EndedLast(st: State, x: string)
    requires Inv(st) && WritersFit(st) && x in st.latest && st.latest[x] < |st.requests|
    ensures FinishedState(st.requests[st.latest[x]]) ==> HasEnded(st.requests[st.latest[x]].phase)
    ensures forall n: nat | n < |st.requests| :: st.requests[n].previous != Some(st.latest[x])
    ensures var r := st.latest[x];
            WriterFits(st.requests[r])
            && (HasPrevious(st, r) ==> PreviousFits(st.requests[r], st.requests[Previous(st, r)]))
  {
    hide Log, Marks, PreviousFits, WriterFits;
    Facts(st, st.latest[x]);
    forall n: nat | n < |st.requests| ensures st.requests[n].previous != Some(st.latest[x]) {
      assert Linked(st.requests, n);
    }
  }

  lemma PruneDirFits(st: State)
    requires Inv(st) && WritersFit(st) && Enabled(st, PruneDir)
    ensures WritersFit(Apply(st, PruneDir))
  {
    hide Log, Marks, Sound, PreviousFits, WriterFits, HasSuccessor, Directories, IsRemoved;
    var x := st.dispatcher.removing.value;
    var r := st.latest[x];
    var q := st.requests[r].(dir := false);
    EndedLast(st, x);
    EmptiedFits(st.requests[r]);
    UpdateKeepsPreviouses(st.requests, r, q);
    PruningKeepsDirectories(st, x, q);
  }

  lemma PruningKeepsDirectories(st: State, x: string, q: Request)
    requires Inv(st) && x in st.latest && st.latest[x] < |st.requests| && q == st.requests[st.latest[x]].(dir := false)
    requires Directories(st.requests, st.latest, st.dispatcher)
    requires st.dispatcher.Pruning? && st.dispatcher.removing == Some(x)
    ensures Directories(st.requests[st.latest[x] := q], st.latest - {x}, Apply(st, PruneDir).dispatcher)
  {
    hide Log, Marks, Sound, HasSuccessor;
    var rs, r := st.requests[st.latest[x] := q], st.latest[x];
    DistinctLast(st, x);
    forall n: nat | n < |rs| && n !in (st.latest - {x}).Values && !HasSuccessor(rs, n) ensures IsRemoved(rs[n]) {
      if HasSuccessor(st.requests, n) {
        StillSucceeded(st.requests, r, q, n);
      }
      OthersNamed(st.latest, x);
    }
  }

  lemma OthersNamed(latest: map<string, nat>, x: string)
    ensures forall n | n in latest.Values :: n in (latest - {x}).Values || (x in latest && latest[x] == n)
  {
    forall y | y in latest && y != x ensures latest[y] in (latest - {x}).Values {
      assert (latest - {x})[y] == latest[y];
    }
  }

  lemma DispatcherStepFits(st: State, step: Step)
    requires Inv(st) && WritersFit(st) && Enabled(st, step)
    requires step.Arrive? || step.PruneSkip? || step.PruneEnd?
    ensures WritersFit(Apply(st, step))
  {
    hide Log, Marks, Sound, PreviousFits, WriterFits, HasSuccessor, IsRemoved;
  }

  lemma StepFits(st: State, step: Step)
    requires Inv(st) && WritersFit(st) && Enabled(st, step)
    ensures WritersFit(Apply(st, step))
  {
    hide Apply, Enabled, Inv, WritersFit;
    match step
    case Enter(r) => EnterFits(st, r);
    case Presume(r) => OnPreviousFits(st, r, step);
    case Drain(r) => OnPreviousFits(st, r, step);
    case Kill(r) => OnPreviousFits(st, r, step);
    case ClearFiles(r) => ClearFilesFits(st, r);
    case ClearDir(r) => ClearDirFits(st, r);
    case Register => RegisterFits(st);
    case Spawn => SpawnFits(st);
    case WriteHandlerPid => WriteHandlerPidFits(st);
    case PruneFiles(x) => PruneFilesFits(st, x);
    case PruneDir => PruneDirFits(st);
    case Check(r) => OwnStepFits(st, r, step);
    case StartDrain(r) => OwnStepFits(st, r, step);
    case StopDrain(r) => OwnStepFits(st, r, step);
    case Publish(r) => OwnStepFits(st, r, step);
    case WriteWriterPid(r) => OwnStepFits(st, r, step);
    case MarkReady(r) => OwnStepFits(st, r, step);
    case Reap(r) => OwnStepFits(st, r, step);
    case MarkDone(r) => OwnStepFits(st, r, step);
    case Exit(r) => OwnStepFits(st, r, step);
    case ClientRead(r) => OwnStepFits(st, r, step);
    case _ => DispatcherStepFits(st, step);
  }

  lemma {:induction false} RunFits(st: State, steps: seq<Step>)
    requires Inv(st) && WritersFit(st) && IsRun(st, steps)
    ensures WritersFit(Final(st, steps))
    decreases |steps|
  {
    hide Apply, Enabled, Inv, WritersFit;
    if steps != [] {
      StepFits(st, steps[0]);
      StepKeepsInv(st, steps[0]);
      RunFits(Apply(st, steps[0]), steps[1..]);
    }
  }

  lemma ReachableFits(st: State)
    requires Reachable(st)
    ensures Inv(st) && WritersFit(st)
  {
    hide Apply, Enabled, Inv, WritersFit, IsRun, Final;
    ReachableInv(st);
    var steps :| IsRun(INITIAL, steps) && Final(INITIAL, steps) == st;
    InitialFits();
    RunFits(INITIAL, steps);
  }

  lemma InitialFits()
    ensures Inv(INITIAL) && WritersFit(INITIAL)
  {}

  // ---- Results and state in every run -------------------------------------------------------------------------

  /** A result writer is alive only while its own request publishes: the handler does not leave before. */
  lemma WriterIsPublishing(st: State, r: nat)
    requires Reachable(st) && r < |st.requests|
    ensures st.requests[r].writer == Alive ==>
              st.requests[r].phase == Spawned || st.requests[r].phase == PidWritten || st.requests[r].phase == Ready
    ensures st.requests[r].writer == NotStarted <==>
              !HasFinished(st.requests[r].phase) && st.requests[r].phase != Spawned
              && st.requests[r].phase != PidWritten && st.requests[r].phase != Ready
  {
    hide Reachable, Inv;
    ReachableFits(st);
  }

  /** Hence at most one result of a session is in the FIFO. */
  lemma AtMostOneWriter(st: State, q: nat, r: nat)
    requires Reachable(st) && q < |st.requests| && r < |st.requests|
    requires st.requests[q].session == st.requests[r].session
    requires st.requests[q].writer == Alive && st.requests[r].writer == Alive
    ensures q == r
  {
    hide Reachable;
    WriterIsPublishing(st, q);
    WriterIsPublishing(st, r);
    AtMostOneActive(st, q, r);
  }

  /** And while a request executes or publishes, no writer of an earlier request of the session is alive: its result has
      been read, drained or killed, and nothing is left of its state. */
  lemma EarlierAreOver(st: State, q: nat, r: nat)
    requires Reachable(st) && q < r < |st.requests| && st.requests[q].session == st.requests[r].session
    requires HasStarted(st.requests[r].phase)
    ensures st.requests[q].writer == ReadByClient || IsDiscarded(st.requests[q].writer)
    ensures !st.requests[q].dir && HasNoFiles(st.requests[q])
  {
    hide Reachable;
    StartsInTurn(st, q, r);
    WriterIsPublishing(st, q);
    ReachableFits(st);
    EarlierRemoved(st, q, r);
  }

  lemma EarlierRemoved(st: State, q: nat, r: nat)
    requires Inv(st) && WritersFit(st) && q < r < |st.requests|
    requires st.requests[q].session == st.requests[r].session && HasStarted(st.requests[r].phase)
    ensures IsRemoved(st.requests[q])
  {
    hide Inv, WritersFit, IsRemoved, Directories;
    NotNamed(st, q, r);
    if HasSuccessor(st.requests, q) {
      var n :| 0 <= n < |st.requests| && st.requests[n].previous == Some(q);
      SuccessorFacts(st, n, q);
      if n < r {
        StartedEarlier(st, n, r);
      }
    } else {
      UnnamedIsRemoved(st, q);
    }
  }

  lemma SuccessorFacts(st: State, n: nat, q: nat)
    requires Inv(st) && WritersFit(st) && n < |st.requests| && st.requests[n].previous == Some(q)
    ensures q < n && st.requests[n].session == st.requests[q].session
    ensures forall m | q < m < n :: st.requests[m].session != st.requests[q].session
    ensures HasStarted(st.requests[n].phase) ==> IsRemoved(st.requests[q])
  {
    hide Log, Marks, WriterFits, IsRemoved, Directories, Table;
    assert Linked(st.requests, n);
  }

  lemma StartedEarlier(st: State, n: nat, r: nat)
    requires Inv(st) && n < r < |st.requests| && st.requests[n].session == st.requests[r].session
    requires HasStarted(st.requests[r].phase)
    ensures HasStarted(st.requests[n].phase)
  {
    hide Log, Marks, Table, Sound;
    EarlierEnded(st.requests, n, r);
  }

  lemma UnnamedIsRemoved(st: State, q: nat)
    requires WritersFit(st) && q < |st.requests| && q !in st.latest.Values && !HasSuccessor(st.requests, q)
    ensures IsRemoved(st.requests[q])
  {}

  lemma NotNamed(st: State, q: nat, r: nat)
    requires Inv(st) && q < r < |st.requests| && st.requests[q].session == st.requests[r].session
    ensures q !in st.latest.Values
  {
    hide Log, Marks, Sound;
  }

  /** The shortcut for a handler that has died is never taken when handlers run to their end: a predecessor that has
      exited shows that it is done, as long as somebody waits for it. */
  lemma NobodyIsPresumed(st: State, r: nat)
    requires Reachable(st)
    ensures !Enabled(st, Presume(r))
  {
    hide Reachable;
    ReachableFits(st);
    if r < |st.requests| {
      Facts(st, r);
    }
  }

  /** If it were taken, it would be for a handler that is on record, has gone, and shows nothing; and it would show that
      its request is done. */
  lemma PresumedIsDone(st: State, r: nat)
    requires Enabled(st, Presume(r))
    ensures var p := Previous(st, r);
            && st.requests[p].handlerPid && st.requests[p].phase == Exited
            && st.requests[p].dir && !st.requests[p].done
            && Apply(st, Presume(r)) == st.(requests := st.requests[p := st.requests[p].(done := true)])
  {}

  /** A result is drained or its writer killed only after it was announced as ready. */
  lemma DiscardedWasReady(st: State, r: nat)
    requires Reachable(st) && r < |st.requests| && IsDiscarded(st.requests[r].writer)
    ensures st.requests[r].phase == Ready || HasFinished(st.requests[r].phase)
  {
    hide Reachable, Inv;
    ReachableFits(st);
  }

  /** Of a session that the table has forgotten no state is left. */
  lemma ForgottenIsRemoved(st: State, r: nat)
    requires Reachable(st) && r < |st.requests| && st.requests[r].session !in st.latest
    ensures !st.requests[r].dir && HasNoFiles(st.requests[r])
  {
    hide Reachable, Log, Marks, WriterFits;
    ReachableFits(st);
    if HasSuccessor(st.requests, r) {
      var n :| 0 <= n < |st.requests| && st.requests[n].previous == Some(r);
      assert Linked(st.requests, n);
    }
  }

  /** The process of a handler is on record until it has ended, from the moment its successor can be read. */
  lemma HandlerIsKnown(st: State, r: nat)
    requires Reachable(st) && r < |st.requests| && !HasEnded(st.requests[r].phase)
    ensures st.requests[r].handlerPid
            || (r == |st.requests| - 1 && (st.dispatcher == Registered || st.dispatcher == Started))
  {
    hide Reachable, Inv;
    ReachableFits(st);
  }
}
