/** A result that nobody reads does not block its session: the handlers alone bring every waiting request to its
    turn. */
module SessionProgress {
  import opened Options
  import opened Sessions

  /** The steps that request handlers take; neither the dispatcher nor any client is involved. */
  predicate IsHandlerStep(step: Step) {
    step.Enter? || step.Check? || step.StartDrain? || step.Kill? || step.StopDrain? || step.ClearFiles?
    || step.ClearDir? || step.Publish? || step.WriteWriterPid? || step.MarkReady? || step.Reap? || step.MarkDone?
  }

  function Rank(p: Phase): nat {
    match p
    case Created => 15 case Entering => 14 case Draining => 13 case Looping => 12 case Clearing => 11
    case Removing => 10 case Executing => 9 case Spawned => 7 case PidWritten => 6 case Ready => 5
    case Leaving => 3 case Marked => 2 case Exited => 1
  }

  function Weight(q: Request): nat { Rank(q.phase) + if q.writer == Alive then 1 else 0 }

  function Total(rs: seq<Request>): nat {
    if rs == [] then 0 else Weight(rs[0]) + Total(rs[1..])
  }

  lemma {:induction false} TotalUpdate(rs: seq<Request>, i: nat, q: Request)
    requires i < |rs|
    ensures Total(rs[i := q]) + Weight(rs[i]) == Total(rs) + Weight(q)
    decreases |rs|
  {
    if i == 0 {
      assert rs[i := q][1..] == rs[1..];
    } else {
      TotalUpdate(rs[1..], i - 1, q);
      assert rs[i := q][1..] == rs[1..][i - 1 := q];
    }
  }

  lemma {:induction false} RunConcat(st: State, a: seq<Step>, b: seq<Step>)
    requires IsRun(st, a) && IsRun(Final(st, a), b)
    ensures IsRun(st, a + b) && Final(st, a + b) == Final(Final(st, a), b)
    decreases |a|
  {
    if a == [] {
      assert a + b == b;
    } else {
      assert (a + b)[0] == a[0] && (a + b)[1..] == a[1..] + b;
      RunConcat(Apply(st, a[0]), a[1..], b);
    }
  }

  lemma RunOne(st: State, step: Step)
    requires Enabled(st, step)
    ensures IsRun(st, [step]) && Final(st, [step]) == Apply(st, step)
  {
    assert [step][1..] == [];
  }

  /** The first request of the session of `r` that has not ended. */
  lemma {:induction false} FirstOpen(rs: seq<Request>, r: nat, from: nat) returns (e: nat)
    requires from <= r < |rs| && !HasEnded(rs[r].phase)
    requires forall q | 0 <= q < from && rs[q].session == rs[r].session :: HasEnded(rs[q].phase)
    ensures e <= r && rs[e].session == rs[r].session && !HasEnded(rs[e].phase)
    ensures forall q | 0 <= q < e && rs[q].session == rs[r].session :: HasEnded(rs[q].phase)
    decreases r - from
  {
    if rs[from].session == rs[r].session && !HasEnded(rs[from].phase) {
      e := from;
    } else {
      e := FirstOpen(rs, r, from + 1);
    }
  }

  /** The successor of an open request that somebody later waits behind. */
  lemma {:induction false} SuccessorOf(rs: seq<Request>, e: nat, r: nat) returns (n: nat)
    requires Sound(rs) && e < r < |rs| && rs[e].session == rs[r].session && !HasEnded(rs[e].phase)
    ensures e < n <= r && rs[n].previous == Some(e) && IsWaiting(rs[n].phase)
    decreases r
  {
    assert Linked(rs, r);
    assert rs[r].previous.Some?;
    var p := rs[r].previous.value;
    if p == e {
      n := r;
    } else {
      n := SuccessorOf(rs, e, p);
    }
  }

  /** Dispatched means past the dispatcher's own spawning step. */
  predicate Dispatched(st: State, r: nat) { r < |st.requests| && st.requests[r].phase != Created }

  /** Some handlers' steps that bring the session of `r` nearer to the turn of `r`. */
  ghost predicate Nearer(st: State, r: nat, steps: seq<Step>) {
    && IsRun(st, steps)
    && (forall s | s in steps :: IsHandlerStep(s))
    && Total(Final(st, steps).requests) < Total(st.requests)
    && Dispatched(Final(st, steps), r)
  }

  lemma OneStepNearer(st: State, r: nat, step: Step, i: nat)
    requires Enabled(st, step) && IsHandlerStep(step) && i < |st.requests| && Dispatched(st, r)
    requires |Apply(st, step).requests| == |st.requests| && Apply(st, step).requests[r].phase != Created
    requires Apply(st, step).requests == st.requests[i := Apply(st, step).requests[i]]
    requires Weight(Apply(st, step).requests[i]) < Weight(st.requests[i])
    ensures Nearer(st, r, [step])
  {
    RunOne(st, step);
    TotalUpdate(st.requests, i, Apply(st, step).requests[i]);
  }

  /** Clearing moves the handler on and touches the files of its predecessor only. */
  lemma ClearEffect(st: State, e: nat, step: Step)
    requires step in {ClearFiles(e), ClearDir(e)} && Enabled(st, step)
    requires HasPrevious(st, e) && Previous(st, e) != e
    ensures var p, rs, rs' := Previous(st, e), st.requests, Apply(st, step).requests;
            && |rs'| == |rs| && rs' == rs[e := rs'[e]][p := rs'[p]]
            && rs'[p].phase == rs[p].phase && rs'[p].writer == rs[p].writer
            && rs'[e].writer == rs[e].writer
            && rs'[e].phase == (if step == ClearFiles(e) then Removing else Executing)
            && rs[e].phase == (if step == ClearFiles(e) then Clearing else Removing)
  {}

  lemma ClearPrevious(st: State, e: nat, step: Step)
    requires Inv(st) && step in {ClearFiles(e), ClearDir(e)} && Enabled(st, step)
    ensures HasPrevious(st, e) && Previous(st, e) != e
  {
    hide Inv;
    Facts(st, e);
  }

  lemma ClearNearer(st: State, e: nat, r: nat, step: Step)
    requires Inv(st) && step in {ClearFiles(e), ClearDir(e)} && Enabled(st, step) && Dispatched(st, r)
    ensures Nearer(st, r, [step])
  {
    hide Inv, Apply, Enabled, IsRun, Final, Total;
    ClearPrevious(st, e, step);
    RunOne(st, step);
    ClearEffect(st, e, step);
    var p := Previous(st, e);
    var rs' := Apply(st, step).requests;
    var mid := st.requests[e := rs'[e]];
    TotalUpdate(st.requests, e, rs'[e]);
    TotalUpdate(mid, p, rs'[p]);
  }

  lemma WaitingStep(st: State, e: nat, r: nat) returns (step: Step)
    requires Inv(st) && Dispatched(st, e) && Dispatched(st, r)
    requires st.requests[e].phase in {Entering, Looping, Draining, Clearing, Removing}
    requires HasPrevious(st, e) ==> HasEnded(st.requests[Previous(st, e)].phase)
    ensures Nearer(st, r, [step])
  {
    hide Inv, Nearer;
    Facts(st, e);
    match st.requests[e].phase
    case Entering => step := Enter(e); OneStepNearer(st, r, step, e);
    case Draining => step := StopDrain(e); OneStepNearer(st, r, step, e);
    case Looping => step := Check(e); OneStepNearer(st, r, step, e);
    case Clearing => step := ClearFiles(e); ClearNearer(st, e, r, step);
    case Removing => step := ClearDir(e); ClearNearer(st, e, r, step);
  }

  /** The step with which an active or leaving request goes on. */
  function PublishingStepOf(p: Phase, e: nat): Step {
    match p
    case Executing => Publish(e)
    case Spawned => WriteWriterPid(e)
    case PidWritten => MarkReady(e)
    case Ready => Reap(e)
    case _ => MarkDone(e)
  }

  lemma PublishingEffect(st: State, e: nat)
    requires e < |st.requests| && (IsActive(st.requests[e].phase) || st.requests[e].phase == Leaving)
    requires st.requests[e].phase == Ready ==> st.requests[e].writer != Alive
    ensures var step := PublishingStepOf(st.requests[e].phase, e);
            && Enabled(st, step) && IsHandlerStep(step)
            && var rs' := Apply(st, step).requests;
               && |rs'| == |st.requests| && rs'[e].phase != Created && rs' == st.requests[e := rs'[e]]
               && Weight(rs'[e]) < Weight(st.requests[e])
  {
    PublishingEnabled(st, e);
    hide Enabled;
  }

  lemma PublishingEnabled(st: State, e: nat)
    requires e < |st.requests| && (IsActive(st.requests[e].phase) || st.requests[e].phase == Leaving)
    requires st.requests[e].phase == Ready ==> st.requests[e].writer != Alive
    ensures var step := PublishingStepOf(st.requests[e].phase, e); Enabled(st, step) && IsHandlerStep(step)
  {}

  lemma PublishingStep(st: State, e: nat, r: nat) returns (step: Step)
    requires Dispatched(st, e) && Dispatched(st, r)
    requires IsActive(st.requests[e].phase) || st.requests[e].phase == Leaving
    requires st.requests[e].phase == Ready ==> st.requests[e].writer != Alive
    ensures Nearer(st, r, [step])
  {
    hide Nearer, Enabled, Apply, PublishingStepOf, Weight, IsHandlerStep;
    step := PublishingStepOf(st.requests[e].phase, e);
    PublishingEffect(st, e);
    OneStepNearer(st, r, step, e);
  }

  /** The first open request moves by itself, except that an unread result needs the successor. */
  lemma OwnStep(st: State, e: nat, r: nat) returns (step: Step)
    requires Inv(st) && Dispatched(st, e) && Dispatched(st, r) && !HasEnded(st.requests[e].phase)
    requires forall q | 0 <= q < e && st.requests[q].session == st.requests[e].session :: HasEnded(st.requests[q].phase)
    requires st.requests[e].phase == Ready ==> st.requests[e].writer != Alive
    ensures Nearer(st, r, [step])
  {
    if HasPrevious(st, e) {
      PreviousEnded(st, e);
    }
    hide Inv, Nearer, Enabled, Apply;
    if IsActive(st.requests[e].phase) || st.requests[e].phase == Leaving {
      step := PublishingStep(st, e, r);
    } else {
      step := WaitingStep(st, e, r);
    }
  }

  lemma PreviousEnded(st: State, e: nat)
    requires Inv(st) && e < |st.requests| && HasPrevious(st, e)
    requires forall q | 0 <= q < e && st.requests[q].session == st.requests[e].session :: HasEnded(st.requests[q].phase)
    ensures HasEnded(st.requests[Previous(st, e)].phase)
  {
    assert Linked(st.requests, e);
  }

  /** The successor enters, or drains: it starts a drain, kills the writer and looks again. */
  lemma SuccessorSteps(st: State, e: nat, n: nat, r: nat) returns (steps: seq<Step>)
    requires Inv(st) && Dispatched(st, n) && Dispatched(st, r)
    requires st.requests[n].previous == Some(e) && e < |st.requests|
    requires IsWaiting(st.requests[n].phase) && st.requests[e].phase == Ready && st.requests[e].writer == Alive
    ensures Nearer(st, r, steps)
  {
    hide Inv, Nearer;
    Facts(st, n);
    Facts(st, e);
    assert Previous(st, n) == e;
    if st.requests[n].phase == Entering {
      steps := [Enter(n)];
      OneStepNearer(st, r, Enter(n), n);
    } else if st.requests[n].phase == Draining {
      steps := [Kill(n)];
      OneStepNearer(st, r, Kill(n), e);
    } else {
      steps := DrainRound(st, e, n, r);
    }
  }

  lemma DrainRoundRuns(st: State, n: nat) returns (steps: seq<Step>)
    requires At(st, n, Looping) && HasPrevious(st, n) && Previous(st, n) < n
    requires var q := st.requests[Previous(st, n)]; q.dir && !q.done && q.ready && q.writerPid && q.writer == Alive
    ensures IsRun(st, steps) && steps == [StartDrain(n), Kill(n), StopDrain(n)]
    ensures Final(st, steps)
         == Put(st, Previous(st, n), st.requests[Previous(st, n)].(writer := Killed))
  {
    DrainEffect(st, n);
    hide Enabled, Apply;
    var st1 := Apply(st, StartDrain(n));
    var st2 := Apply(st1, Kill(n));
    RunOne(st, StartDrain(n));
    RunOne(st1, Kill(n));
    RunOne(st2, StopDrain(n));
    hide IsRun, Final;
    RunConcat(st1, [Kill(n)], [StopDrain(n)]);
    RunConcat(st, [StartDrain(n)], [Kill(n)] + [StopDrain(n)]);
    steps := [StartDrain(n)] + ([Kill(n)] + [StopDrain(n)]);
  }

  lemma DrainEffect(st: State, n: nat)
    requires At(st, n, Looping) && HasPrevious(st, n) && Previous(st, n) < n
    requires var q := st.requests[Previous(st, n)]; q.dir && !q.done && q.ready && q.writerPid && q.writer == Alive
    ensures Enabled(st, StartDrain(n)) && Enabled(Apply(st, StartDrain(n)), Kill(n))
    ensures var st2 := Apply(Apply(st, StartDrain(n)), Kill(n));
            && Enabled(st2, StopDrain(n))
            && Apply(st2, StopDrain(n)) == Put(st, Previous(st, n), st.requests[Previous(st, n)].(writer := Killed))
  {
    var e := Previous(st, n);
    var st2 := Apply(Apply(st, StartDrain(n)), Kill(n));
    assert Apply(st2, StopDrain(n)).requests == st.requests[e := st.requests[e].(writer := Killed)];
  }

  lemma DrainRound(st: State, e: nat, n: nat, r: nat) returns (steps: seq<Step>)
    requires Dispatched(st, r) && At(st, n, Looping) && HasPrevious(st, n) && Previous(st, n) == e && e < n
    requires var q := st.requests[e]; q.dir && !q.done && q.ready && q.writerPid && q.writer == Alive
    ensures Nearer(st, r, steps)
  {
    hide IsRun, Final, Apply, Enabled;
    steps := DrainRoundRuns(st, n);
    TotalUpdate(st.requests, e, st.requests[e].(writer := Killed));
  }

  lemma Progress(st: State, r: nat) returns (steps: seq<Step>)
    requires Inv(st) && Dispatched(st, r) && !HasStarted(st.requests[r].phase)
    ensures Nearer(st, r, steps)
  {
    hide Nearer, Apply, Enabled, Table, Log, Dispatching, Marks, Links, Ordered, Visible, Files, Publishing;
    var e := FirstOpen(st.requests, r, 0);
    Facts(st, r);
    Facts(st, e);
    if st.requests[e].phase == Ready && st.requests[e].writer == Alive {
      var n := SuccessorOf(st.requests, e, r);
      Facts(st, n);
      steps := SuccessorSteps(st, e, n, r);
    } else {
      var step := OwnStep(st, e, r);
      steps := [step];
    }
  }

  lemma {:induction false} Unblocked(st: State, r: nat) returns (steps: seq<Step>)
    requires Inv(st) && Dispatched(st, r)
    ensures IsRun(st, steps) && (forall s | s in steps :: IsHandlerStep(s))
    ensures r < |Final(st, steps).requests| && HasStarted(Final(st, steps).requests[r].phase)
    decreases Total(st.requests)
  {
    hide Inv, Apply, Enabled;
    if HasStarted(st.requests[r].phase) {
      steps := [];
    } else {
      var first := Progress(st, r);
      RunKeepsInv(st, first);
      var rest := Unblocked(Final(st, first), r);
      RunConcat(st, first, rest);
      steps := first + rest;
    }
  }

  /** From every reachable state, with no client ever reading, the handlers can bring any dispatched request to its
      turn. */
  lemma UnreadResultsDoNotBlock(st: State, r: nat)
    requires Reachable(st) && Dispatched(st, r)
    ensures exists steps ::
      IsRun(st, steps) && (forall s | s in steps :: IsHandlerStep(s))
      && r < |Final(st, steps).requests| && HasStarted(Final(st, steps).requests[r].phase)
  {
    ReachableInv(st);
    var steps := Unblocked(st, r);
  }

  lemma ReachableStep(st: State, step: Step)
    requires Reachable(st) && Enabled(st, step)
    ensures Reachable(Apply(st, step))
  {
    var steps :| IsRun(INITIAL, steps) && Final(INITIAL, steps) == st;
    RunOne(st, step);
    RunConcat(INITIAL, steps, [step]);
  }

  /** The first request of a session is dispatched and starts at once. */
  lemma StartNewSession(st: State, s: string) returns (st': State)
    requires Reachable(st) && st.dispatcher == Idle && (st.counter + 1) % PRUNE_PERIOD != 0 && s !in st.latest
    ensures Reachable(st') && st'.dispatcher == Idle && st'.counter == st.counter + 1
    ensures st'.latest == st.latest[s := |st.requests|]
    ensures st'.requests
      == st.requests + [Request(s, None, Executing, NotStarted, true, false, false, false, true)]
  {
    hide Reachable;
    var st1 := Apply(st, Arrive(s));
    ReachableStep(st, Arrive(s));
    var st2 := Apply(st1, Register);
    ReachableStep(st1, Register);
    st' := SpawnAndEnter(st2);
  }

  lemma SpawnAndEnter(st: State) returns (st': State)
    requires Reachable(st) && Enabled(st, Spawn)
    requires var q := st.requests[|st.requests| - 1]; q.previous == None && q.dir
    ensures Reachable(st')
    ensures var n := |st.requests| - 1;
            st' == st.(requests := st.requests[n := st.requests[n].(phase := Executing, handlerPid := true)],
                       dispatcher := Idle, executions := st.executions + [n])
  {
    hide Reachable;
    var r := |st.requests| - 1;
    var st1 := Apply(st, Spawn);
    ReachableStep(st, Spawn);
    var st2 := Apply(st1, WriteHandlerPid);
    ReachableStep(st1, WriteHandlerPid);
    st' := Apply(st2, Enter(r));
    ReachableStep(st2, Enter(r));
  }

  /** Requests of different sessions may run at the same time. */
  lemma SessionsOverlap()
    ensures exists st ::
      Reachable(st) && |st.requests| == 2 && st.requests[0].session != st.requests[1].session
      && IsActive(st.requests[0].phase) && IsActive(st.requests[1].phase)
  {
    assert IsRun(INITIAL, []) && Final(INITIAL, []) == INITIAL;
    assert Reachable(INITIAL);
    var one := StartNewSession(INITIAL, "a");
    assert "b" !in one.latest by {
      assert "a"[0] != "b"[0];
    }
    var two := StartNewSession(one, "b");
    assert "a"[0] != "b"[0];
    assert two.requests[0].session == "a" && two.requests[1].session == "b";
  }
}
