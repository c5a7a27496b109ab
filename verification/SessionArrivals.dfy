/** Which requests the dispatcher makes of what it reads, and when it prunes. */
module SessionArrivals {
  import opened Options
  import opened Sessions

  /** The sessions of the commands that were read, in order. */
  function Arrivals(steps: seq<Step>): seq<string>
    decreases |steps|
  {
    if steps == [] then [] else (if steps[0].Arrive? then [steps[0].s] else []) + Arrivals(steps[1..])
  }

  function SessionsOf(rs: seq<Request>): seq<string> { seq(|rs|, i requires 0 <= i < |rs| => rs[i].session) }

  /** The command that was read and has no request yet. */
  function InHand(d: Dispatcher): seq<string> {
    match d
    case Pruning(s, _, _) => [s]
    case Creating(s) => [s]
    case _ => []
  }

  function Known(st: State): seq<string> { SessionsOf(st.requests) + InHand(st.dispatcher) }

  lemma SameSessions(rs: seq<Request>, rs': seq<Request>)
    requires |rs| == |rs'| && forall i | 0 <= i < |rs| :: rs'[i].session == rs[i].session
    ensures SessionsOf(rs') == SessionsOf(rs)
  {}

  lemma StepKnows(st: State, step: Step)
    requires Enabled(st, step)
    ensures Known(Apply(st, step)) == Known(st) + if step.Arrive? then [step.s] else []
    ensures Apply(st, step).counter == st.counter + if step.Arrive? then 1 else 0
  {
    hide Known;
    var st' := Apply(st, step);
    if step.Register? {
      RegisterKnows(st);
    } else {
      KeepsSessions(st, step);
      SameSessions(st.requests, st'.requests);
      KnownIs(st);
      KnownIs(st');
      HandKnows(st, step);
    }
  }

  lemma KnownIs(st: State)
    ensures Known(st) == SessionsOf(st.requests) + InHand(st.dispatcher)
  {}

  lemma KeepsSessions(st: State, step: Step)
    requires Enabled(st, step) && !step.Register?
    ensures var rs := Apply(st, step).requests;
            |rs| == |st.requests| && forall i | 0 <= i < |rs| :: rs[i].session == st.requests[i].session
  {
    if Rewritten(st, step).Some? {
      OneKeepsSessions(st, step);
    }
  }

  lemma OneKeepsSessions(st: State, step: Step)
    requires Enabled(st, step) && Rewritten(st, step).Some?
    ensures var rs := Apply(st, step).requests;
            |rs| == |st.requests| && forall i | 0 <= i < |rs| :: rs[i].session == st.requests[i].session
  {}

  lemma HandKnows(st: State, step: Step)
    requires Enabled(st, step) && !step.Register?
    ensures InHand(Apply(st, step).dispatcher) == InHand(st.dispatcher) + if step.Arrive? then [step.s] else []
    ensures Apply(st, step).counter == st.counter + if step.Arrive? then 1 else 0
  {}

  lemma RegisterKnows(st: State)
    requires Enabled(st, Register)
    ensures Known(Apply(st, Register)) == Known(st) && Apply(st, Register).counter == st.counter
  {
    var st' := Apply(st, Register);
    assert SessionsOf(st'.requests) == SessionsOf(st.requests) + [st.dispatcher.session];
  }

  lemma {:induction false} RunKnows(st: State, steps: seq<Step>)
    requires IsRun(st, steps)
    ensures Known(Final(st, steps)) == Known(st) + Arrivals(steps)
    ensures Final(st, steps).counter == st.counter + |Arrivals(steps)|
    decreases |steps|
  {
    hide Enabled, Apply, Known;
    if steps != [] {
      StepKnows(st, steps[0]);
      RunKnows(Apply(st, steps[0]), steps[1..]);
    }
  }

  /** Every command that was read has one request, of its session and in its place; the last may still be in the hand of
      the dispatcher. */
  lemma RequestsAreArrivals(steps: seq<Step>)
    requires IsRun(INITIAL, steps)
    ensures var st := Final(INITIAL, steps);
            && |st.requests| <= |Arrivals(steps)| <= |st.requests| + 1
            && (forall r | 0 <= r < |st.requests| :: st.requests[r].session == Arrivals(steps)[r])
            && (st.dispatcher.Idle? || st.dispatcher.Registered? || st.dispatcher.Started? ==>
                  |st.requests| == |Arrivals(steps)|)
  {
    hide IsRun, Final;
    RunKnows(INITIAL, steps);
    var st := Final(INITIAL, steps);
    assert Known(INITIAL) == [];
    assert Known(st) == Arrivals(steps);
    forall r | 0 <= r < |st.requests| ensures st.requests[r].session == Arrivals(steps)[r] {
      assert SessionsOf(st.requests)[r] == Known(st)[r];
    }
  }

  /** With every 64th command, and with no other, the whole table is looked through. */
  lemma PrunesEvery64(steps: seq<Step>, s: string)
    requires IsRun(INITIAL, steps) && Enabled(Final(INITIAL, steps), Arrive(s))
    ensures var st := Final(INITIAL, steps);
            var d := Apply(st, Arrive(s)).dispatcher;
            if (|Arrivals(steps)| + 1) % 64 == 0 then d == Pruning(s, st.latest.Keys, None) else d == Creating(s)
  {
    hide IsRun, Final;
    RunKnows(INITIAL, steps);
  }

  /** A session leaves the list of those to look at either with its state, or because its last request is not over. */
  lemma PruningDecides(st: State, step: Step, x: string)
    requires Enabled(st, step) && st.dispatcher.Pruning? && x in st.dispatcher.todo && x in st.latest
    requires st.latest[x] < |st.requests| && Apply(st, step).dispatcher.Pruning?
    requires x !in Apply(st, step).dispatcher.todo
    ensures if x in Apply(st, step).latest then st.requests[st.latest[x]].dir && !st.requests[st.latest[x]].done
            else !Apply(st, step).requests[st.latest[x]].dir
  {}

  /** Pruning begins with the state of a session on the list only, and ends when the list is empty. */
  lemma PruningFollowsList(st: State, step: Step)
    requires Enabled(st, step) && st.dispatcher.Pruning?
    ensures var d := Apply(st, step).dispatcher;
            if d.Pruning? then
              && (d.removing.Some? && st.dispatcher.removing.None? ==>
                    d.removing.value in st.dispatcher.todo && d.todo == st.dispatcher.todo)
              && d.todo <= st.dispatcher.todo && d.session == st.dispatcher.session
            else st.dispatcher.todo == {} && st.dispatcher.removing.None? && d == Creating(st.dispatcher.session)
  {}

  // ---- The dispatcher comes back for the next command ---------------------------------------------------------

  predicate IsDispatcherStep(step: Step) {
    step.PruneSkip? || step.PruneFiles? || step.PruneDir? || step.PruneEnd? || step.Register? || step.Spawn?
    || step.WriteHandlerPid?
  }

  /** How many steps the dispatcher needs at most. */
  function Ahead(d: Dispatcher): nat {
    match d
    case Idle => 0
    case Started => 1
    case Registered => 2
    case Creating(_) => 3
    case Pruning(_, todo, removing) => 4 + 2 * |todo| - if removing.Some? && todo != {} then 1 else 0
  }

  /** The dispatcher is never stuck with a command in hand, whatever the handlers do. */
  lemma DispatcherGoesOn(st: State)
    requires Reachable(st) && !st.dispatcher.Idle?
    ensures exists step :: IsDispatcherStep(step) && Enabled(st, step)
  {
    hide Reachable, Sound, Log, Marks;
    ReachableInv(st);
    match st.dispatcher
    case Pruning(s, todo, removing) =>
      if removing.Some? {
        assert Enabled(st, PruneDir);
      } else if todo == {} {
        assert Enabled(st, PruneEnd);
      } else {
        var x :| x in todo;
        assert Enabled(st, PruneSkip(x)) || Enabled(st, PruneFiles(x));
      }
    case Creating(_) => assert Enabled(st, Register);
    case Registered => assert Enabled(st, Spawn);
    case Started => assert Enabled(st, WriteHandlerPid);
  }

  /** And each of its steps brings it nearer to the next command. */
  lemma DispatcherGetsNearer(st: State, step: Step)
    requires Reachable(st) && Enabled(st, step)
    ensures if IsDispatcherStep(step) then Ahead(Apply(st, step).dispatcher) < Ahead(st.dispatcher)
            else !step.Arrive? ==> Apply(st, step).dispatcher == st.dispatcher
  {
    hide Reachable, Inv, Apply, Ahead, Enabled;
    RemovingIsListed(st);
    if IsDispatcherStep(step) {
      TaskGetsShorter(st, step);
    } else if !step.Arrive? {
      HandlersLeaveDispatcher(st, step);
    }
  }

  lemma TaskGetsShorter(st: State, step: Step)
    requires Enabled(st, step) && IsDispatcherStep(step) && IsListed(st.dispatcher)
    ensures Ahead(Apply(st, step).dispatcher) < Ahead(st.dispatcher)
  {
    if step.PruneDir? || step.PruneSkip? {
      var x := if step.PruneDir? then st.dispatcher.removing.value else step.x;
      assert st.dispatcher.todo == (st.dispatcher.todo - {x}) + {x};
    }
  }

  lemma HandlersLeaveDispatcher(st: State, step: Step)
    requires Enabled(st, step) && !IsDispatcherStep(step) && !step.Arrive?
    ensures Apply(st, step).dispatcher == st.dispatcher
  {}

  /** The session whose state is being removed is still on the list. */
  predicate IsListed(d: Dispatcher) { d.Pruning? && d.removing.Some? ==> d.removing.value in d.todo }

  lemma StepLists(st: State, step: Step)
    requires IsListed(st.dispatcher) && Enabled(st, step)
    ensures IsListed(Apply(st, step).dispatcher)
  {}

  lemma {:induction false} RunLists(st: State, steps: seq<Step>)
    requires IsListed(st.dispatcher) && IsRun(st, steps)
    ensures IsListed(Final(st, steps).dispatcher)
    decreases |steps|
  {
    hide Enabled, Apply, IsListed;
    if steps != [] {
      StepLists(st, steps[0]);
      RunLists(Apply(st, steps[0]), steps[1..]);
    }
  }

  lemma RemovingIsListed(st: State)
    requires Reachable(st)
    ensures IsListed(st.dispatcher)
  {
    hide IsRun, Final;
    var steps :| IsRun(INITIAL, steps) && Final(INITIAL, steps) == st;
    RunLists(INITIAL, steps);
  }
}
