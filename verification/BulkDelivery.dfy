/** Which outcomes of adding many files are published, and when a run is aborted. */
module BulkDelivery {
  import opened Options
  import opened BulkAdd
  import EventProtocol

  /** How many outcomes are recorded and published before the first that could not be. */
  function PublishedFirst(steps: seq<Step>): nat
    decreases |steps|
  {
    if steps == [] then 0
    else if steps[0].Record? then if steps[0].ok then 1 + PublishedFirst(steps[1..]) else 0
    else PublishedFirst(steps[1..])
  }

  predicate SomeFails(steps: seq<Step>) { exists step :: step in steps && step.Record? && !step.ok }

  predicate Aborts(steps: seq<Step>) { exists step :: step in steps && step.ReaderFails? }

  lemma Tail(steps: seq<Step>)
    requires steps != []
    ensures SomeFails(steps) <==> (steps[0].Record? && !steps[0].ok) || SomeFails(steps[1..])
    ensures Aborts(steps) <==> steps[0].ReaderFails? || Aborts(steps[1..])
  {
    assert forall step :: step in steps <==> step == steps[0] || step in steps[1..];
  }

  /** What a step does to what is published. */
  lemma StepPublishes(st: State, step: Step)
    requires Enabled(st, step)
    ensures var st' := Apply(st, step);
            && (if step.Record? then
                  && st'.collected == st.collected + [st.collecting.value]
                  && st'.deliveryAvailable == (st.deliveryAvailable && step.ok)
                  && st'.published == if st.deliveryAvailable && step.ok then st.published + [st.collecting.value]
                                      else st.published
                else
                  && st'.collected == st.collected && st'.published == st.published
                  && st'.deliveryAvailable == st.deliveryAvailable)
            && st'.aborted == (st.aborted || step.ReaderFails?)
  {}

  lemma {:induction false} RunPublishes(st: State, steps: seq<Step>)
    requires IsRun(st, steps) && (st.deliveryAvailable ==> st.published == st.collected)
    ensures var st' := Final(st, steps);
            && st.collected <= st'.collected
            && (if st.deliveryAvailable then
                  && |st.collected| + PublishedFirst(steps) <= |st'.collected|
                  && st'.published == st'.collected[..|st.collected| + PublishedFirst(steps)]
                  && st'.deliveryAvailable == !SomeFails(steps)
                else st'.published == st.published && !st'.deliveryAvailable)
            && st'.aborted == (st.aborted || Aborts(steps))
    decreases |steps|
  {
    hide Enabled, Apply, SomeFails, Aborts;
    if steps == [] {
      assert st.collected[..|st.collected|] == st.collected;
      NoSteps();
    } else {
      var next := Apply(st, steps[0]);
      StepPublishes(st, steps[0]);
      Tail(steps);
      RunPublishes(next, steps[1..]);
      var end := Final(st, steps).collected;
      if st.deliveryAvailable && !next.deliveryAvailable {
        assert end[..|st.collected|] == next.collected[..|st.collected|] == st.collected;
      }
    }
  }

  lemma NoSteps()
    ensures !SomeFails([]) && !Aborts([])
  {}

  /** The published outcomes are the recorded ones up to the first that could not be published, after which nobody
      tries again. */
  lemma PublishedUpToFailure(stream: seq<EventProtocol.Event>, workerCount: nat, steps: seq<Step>)
    requires IsRun(Initial(stream, workerCount), steps)
    ensures var end := Final(Initial(stream, workerCount), steps);
            && PublishedFirst(steps) <= |end.collected|
            && end.published == end.collected[..PublishedFirst(steps)]
            && end.deliveryAvailable == !SomeFails(steps)
  {
    hide IsRun, Final;
    RunPublishes(Initial(stream, workerCount), steps);
  }

  /** A run is aborted if and only if the reader of the stream failed; the terminal record is missing exactly then. */
  lemma AbortedIff(stream: seq<EventProtocol.Event>, workerCount: nat, steps: seq<Step>)
    requires workerCount > 0 && IsRun(Initial(stream, workerCount), steps)
    ensures var end := Final(Initial(stream, workerCount), steps);
            && end.aborted == Aborts(steps)
            && (end.phase == Ended ==> (end.terminal == None <==> Aborts(steps)))
  {
    hide IsRun, Final, Apply, Enabled;
    RunPublishes(Initial(stream, workerCount), steps);
    InitialInv(stream, workerCount);
    RunKeepsInv(Initial(stream, workerCount), steps);
  }

  /** A queue that has been joined is empty and its worker has gone, and so for all of them once threads are joined. */
  lemma JoinedAreDone(stream: seq<EventProtocol.Event>, workerCount: nat, steps: seq<Step>, i: nat)
    requires workerCount > 0 && IsRun(Initial(stream, workerCount), steps)
    requires i < |Final(Initial(stream, workerCount), steps).workers|
    ensures var end := Final(Initial(stream, workerCount), steps);
            (end.phase.JoiningQueues? && i < end.phase.k) || end.phase.JoiningThreads? || end.phase == Collecting
            || end.phase == Ended
            ==> end.workers[i].exited && end.workers[i].queue == [] && end.workers[i].holding == None
  {
    hide IsRun, Final, Apply, Enabled;
    InitialInv(stream, workerCount);
    RunKeepsInv(Initial(stream, workerCount), steps);
  }
}
