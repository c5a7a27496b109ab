/** The publisher that keeps events while the broker is away: records wait, are handed to the producer, and come back
    when their delivery fails. */
module Publisher {
  import opened Options
  import opened Sequences
  import opened CaptureEvents

  /** Where the events are. `delivered` and `published` are the history; `sent` has the records that were handed to the
      producer and did not come back to `pending`, in the order of the calls. */
  datatype Queues = Queues(pending: seq<Event>, failures: seq<Event>, inFlight: seq<Event>, delivered: seq<Event>,
                           sent: seq<Event>, published: seq<Event>)

  const EMPTY: Queues := Queues([], [], [], [], [], [])

  /** A delivery report about the `index`-th message in flight; one about no such message is ignored. */
  datatype Report = Report(index: nat, success: bool)

  function Published(q: Queues, event: Event): Queues {
    q.(pending := q.pending + [event], published := q.published + [event])
  }

  function Reported(q: Queues, report: Report): Queues {
    if report.index >= |q.inFlight| then q
    else
      var event := q.inFlight[report.index];
      var rest := q.inFlight[..report.index] + q.inFlight[report.index + 1..];
      if report.success then q.(inFlight := rest, delivered := q.delivered + [event])
      else q.(inFlight := rest, failures := q.failures + [event])
  }

  function ReportedAll(q: Queues, reports: seq<Report>): Queues
    decreases |reports|
  {
    if reports == [] then q else Reported(ReportedAll(q, reports[..|reports| - 1]), reports[|reports| - 1])
  }

  /** Failed records go in front of what is pending, in the order in which their failures were reported. */
  function Requeued(q: Queues): Queues {
    q.(pending := q.failures + q.pending, failures := [], sent := Without(q.sent, q.failures))
  }

  /** The first pending record, if there is one, is handed to the producer. */
  function Produced(q: Queues): Queues {
    if q.pending == [] then q
    else q.(pending := q.pending[1..], inFlight := q.inFlight + [q.pending[0]], sent := q.sent + [q.pending[0]])
  }

  /** What happens to the queues, one thing after the other. */
  datatype Step = Publish(event: Event) | Poll(reports: seq<Report>) | Requeue | Produce

  function Apply(q: Queues, step: Step): Queues {
    match step
    case Publish(event) => Published(q, event)
    case Poll(reports) => ReportedAll(q, reports)
    case Requeue => Requeued(q)
    case Produce => Produced(q)
  }

  function After(q: Queues, steps: seq<Step>): Queues
    decreases |steps|
  {
    if steps == [] then q else Apply(After(q, steps[..|steps| - 1]), steps[|steps| - 1])
  }

  lemma AfterOne(q: Queues, step: Step)
    ensures After(q, [step]) == Apply(q, step)
  {
    assert [step][..0] == [];
  }

  lemma {:induction false} AfterConcat(q: Queues, a: seq<Step>, b: seq<Step>)
    ensures After(q, a + b) == After(After(q, a), b)
    decreases |b|
  {
    if b == [] {
      assert a + b == a;
    } else {
      var last := |b| - 1;
      assert (a + b)[..|a + b| - 1] == a + b[..last] && (a + b)[|a + b| - 1] == b[last];
      AfterConcat(q, a, b[..last]);
    }
  }

  // ---- Conservation -----------------------------------------------------------------------------------------

  /** Every published event is in exactly one place. */
  ghost predicate Conserves(q: Queues) {
    multiset(q.published) == multiset(q.pending) + multiset(q.failures) + multiset(q.inFlight) + multiset(q.delivered)
  }

  lemma ReportedKeeps(q: Queues, report: Report)
    ensures Conserves(q) ==> Conserves(Reported(q, report))
  {
    if report.index < |q.inFlight| {
      var a, b := q.inFlight[..report.index], q.inFlight[report.index + 1..];
      assert q.inFlight == a + [q.inFlight[report.index]] + b;
      assert multiset(q.inFlight) == multiset(a) + multiset{q.inFlight[report.index]} + multiset(b);
      assert multiset(a + b) == multiset(a) + multiset(b);
    }
  }

  lemma {:induction false} ReportedAllKeeps(q: Queues, reports: seq<Report>)
    ensures Conserves(q) ==> Conserves(ReportedAll(q, reports))
    ensures var q' := ReportedAll(q, reports);
            q'.pending == q.pending && q'.sent == q.sent && q'.published == q.published
    decreases |reports|
  {
    hide Conserves;
    if reports != [] {
      ReportedAllKeeps(q, reports[..|reports| - 1]);
      ReportedKeeps(ReportedAll(q, reports[..|reports| - 1]), reports[|reports| - 1]);
    }
  }

  lemma RequeuedKeeps(q: Queues)
    ensures Conserves(q) ==> Conserves(Requeued(q))
  {
    assert multiset(q.failures + q.pending) == multiset(q.failures) + multiset(q.pending);
  }

  lemma ProducedKeeps(q: Queues)
    ensures Conserves(q) ==> Conserves(Produced(q))
    ensures Produced(q).sent + Produced(q).pending == q.sent + q.pending
  {
    if q.pending != [] {
      assert q.pending == [q.pending[0]] + q.pending[1..];
      assert q.sent + ([q.pending[0]] + q.pending[1..]) == q.sent + [q.pending[0]] + q.pending[1..];
    }
  }

  lemma ApplyKeeps(q: Queues, step: Step)
    ensures Conserves(q) ==> Conserves(Apply(q, step))
  {
    match step
    case Publish(event) =>
    case Poll(reports) => ReportedAllKeeps(q, reports);
    case Requeue => RequeuedKeeps(q);
    case Produce => ProducedKeeps(q);
  }

  /** Through every sequence of publications, polls, requeues and calls of the producer no event is lost or added. */
  lemma {:induction false} AfterKeeps(q: Queues, steps: seq<Step>)
    ensures Conserves(q) ==> Conserves(After(q, steps))
    decreases |steps|
  {
    hide Conserves, Apply;
    if steps != [] {
      AfterKeeps(q, steps[..|steps| - 1]);
      ApplyKeeps(After(q, steps[..|steps| - 1]), steps[|steps| - 1]);
    }
  }

  // ---- Order ------------------------------------------------------------------------------------------------

  /** The records that the producer has, followed by those that wait, are the events in the order of publication. */
  ghost predicate InOrder(q: Queues) { q.sent + q.pending == q.published }

  /** Whatever was handed over behind a failed record has failed too, and the failures were reported in the order in
      which the records were handed over. */
  predicate FailsInTurn(q: Queues) { GoneLast(q.sent, q.failures) && InTurn(q.sent, q.failures) }

  /** From a state in order, the requeue keeps the order if and only if the failures are the last records and were
      reported in turn. */
  lemma RequeueOrderIff(q: Queues)
    requires Conserves(q) && InOrder(q) && NoRepeats(q.published)
    ensures InOrder(Requeued(q)) <==> FailsInTurn(q)
  {
    var kept := Without(q.sent, q.failures);
    FailuresWereSent(q);
    BehindIff(q.sent, q.failures);
    assert kept + (q.failures + q.pending) == (kept + q.failures) + q.pending;
    SameTail(kept + q.failures, q.sent, q.pending);
  }

  lemma SameTail(a: seq<Event>, b: seq<Event>, tail: seq<Event>)
    ensures a + tail == b + tail <==> a == b
  {
    if a + tail == b + tail {
      assert |a| == |b|;
      assert a == (a + tail)[..|a|] && b == (b + tail)[..|b|];
    }
  }

  lemma FailuresWereSent(q: Queues)
    requires Conserves(q) && InOrder(q) && NoRepeats(q.published)
    ensures NoRepeats(q.sent) && Selects(q.sent, q.failures)
  {
    var f, others := q.failures, multiset(q.inFlight) + multiset(q.delivered);
    assert multiset(q.sent + q.pending) == multiset(q.sent) + multiset(q.pending);
    Cancel(multiset(q.sent), multiset(f) + others, multiset(q.pending));
    assert forall i | 0 <= i < |q.sent| :: q.sent[i] == q.published[i];
    OnceEach(q.sent);
    forall e | e in f ensures e in q.sent {
      assert e in multiset(f) && e in multiset(q.sent);
    }
    forall i, j | 0 <= i < j < |f| ensures f[i] != f[j] {
      Twice(f, i, j);
      assert multiset(f)[f[i]] <= multiset(q.sent)[f[i]];
    }
  }

  /** Only a requeue touches the order. */
  lemma ApplyKeepsOrder(q: Queues, step: Step)
    ensures InOrder(q) && !step.Requeue? ==> InOrder(Apply(q, step))
    ensures q.published <= Apply(q, step).published
  {
    match step
    case Publish(event) => assert q.sent + (q.pending + [event]) == (q.sent + q.pending) + [event];
    case Poll(reports) => ReportedAllKeeps(q, reports);
    case Requeue =>
    case Produce => ProducedKeeps(q);
  }

  ghost predicate AlwaysInOrder(q: Queues, steps: seq<Step>) {
    forall n: nat | n <= |steps| :: InOrder(After(q, steps[..n]))
  }

  predicate AlwaysFailsInTurn(q: Queues, steps: seq<Step>) {
    forall n: nat | n < |steps| && steps[n].Requeue? :: FailsInTurn(After(q, steps[..n]))
  }

  /** For every sequence of publications, polls, requeues and calls of the producer: the order of publication holds all
      the time if and only if at every requeue the failures are the last records and were reported in turn. */
  lemma {:induction false} OrderIff(q: Queues, steps: seq<Step>)
    requires Conserves(q) && InOrder(q) && NoRepeats(After(q, steps).published)
    ensures AlwaysInOrder(q, steps) <==> AlwaysFailsInTurn(q, steps)
    decreases |steps|
  {
    hide Conserves, InOrder, FailsInTurn, NoRepeats, Published, Produced, ReportedAll, Requeued;
    if steps == [] {
      assert steps[..0] == [];
    } else {
      var last := |steps| - 1;
      var front, step := steps[..last], steps[last];
      var q' := After(q, front);
      ApplyKeepsOrder(q', step);
      FrontNoRepeats(q'.published, After(q, steps).published);
      OrderIff(q, front);
      AfterKeeps(q, front);
      if InOrder(q') && step.Requeue? {
        RequeueOrderIff(q');
      }
      LastStep(q, steps);
    }
  }

  lemma FrontNoRepeats(a: seq<Event>, b: seq<Event>)
    requires a <= b && NoRepeats(b)
    ensures NoRepeats(a)
  {}

  lemma LastStep(q: Queues, steps: seq<Step>)
    requires steps != []
    ensures var front := steps[..|steps| - 1];
            && (AlwaysInOrder(q, steps) <==> AlwaysInOrder(q, front) && InOrder(After(q, steps)))
            && (AlwaysInOrder(q, front) ==> InOrder(After(q, front)))
            && (AlwaysFailsInTurn(q, steps) <==>
                  AlwaysFailsInTurn(q, front) && (steps[|steps| - 1].Requeue? ==> FailsInTurn(After(q, front))))
  {
    hide InOrder, FailsInTurn, After;
    var last := |steps| - 1;
    var front := steps[..last];
    assert forall n: nat | n <= last :: front[..n] == steps[..n];
    assert steps[..last + 1] == steps && front[..last] == front;
  }

  predicate HandsOver(steps: seq<Step>) { forall step | step in steps :: step.Poll? || step.Produce? }

  /** Handing records over keeps them in their order. */
  lemma {:induction false} HandingKeepsOrder(q: Queues, steps: seq<Step>)
    requires HandsOver(steps)
    ensures var q' := After(q, steps); q'.sent + q'.pending == q.sent + q.pending && q'.published == q.published
    decreases |steps|
  {
    if steps != [] {
      var last := |steps| - 1;
      HandingKeepsOrder(q, steps[..last]);
      assert steps[last] in steps;
      var q' := After(q, steps[..last]);
      match steps[last]
      case Poll(reports) => ReportedAllKeeps(q', reports);
      case Produce => ProducedKeeps(q');
    }
  }

  /** One drain: the reports that have come in, the requeue, and what is handed over. */
  function Drained(q: Queues, reports: seq<Report>, handed: seq<Step>): Queues {
    After(Requeued(ReportedAll(q, reports)), handed)
  }

  /** A drain keeps the order if and only if the failures that it finds are the last records and were reported in
      turn. */
  lemma DrainOrderIff(q: Queues, reports: seq<Report>, handed: seq<Step>)
    requires HandsOver(handed)
    ensures Conserves(q) ==> Conserves(Drained(q, reports, handed))
    ensures Drained(q, reports, handed).published == q.published
    ensures Conserves(q) && InOrder(q) && NoRepeats(q.published) ==>
              (InOrder(Drained(q, reports, handed)) <==> FailsInTurn(ReportedAll(q, reports)))
  {
    hide Conserves, NoRepeats, FailsInTurn;
    var met := ReportedAll(q, reports);
    ReportedAllKeeps(q, reports);
    RequeuedKeeps(met);
    AfterKeeps(Requeued(met), handed);
    HandingKeepsOrder(Requeued(met), handed);
    if Conserves(q) && InOrder(q) && NoRepeats(q.published) {
      RequeueOrderIff(met);
    }
  }

  function DrainSteps(reports: seq<Report>, handed: seq<Step>): seq<Step> { [Poll(reports), Requeue] + handed }

  lemma DrainIsSteps(q: Queues, reports: seq<Report>, handed: seq<Step>)
    ensures After(q, DrainSteps(reports, handed)) == Drained(q, reports, handed)
  {
    AfterConcat(q, [Poll(reports)], [Requeue]);
    AfterOne(q, Poll(reports));
    AfterOne(ReportedAll(q, reports), Requeue);
    assert [Poll(reports)] + [Requeue] == [Poll(reports), Requeue];
    AfterConcat(q, [Poll(reports), Requeue], handed);
  }

  function PublishSteps(event: Event, reports: seq<Report>, handed: seq<Step>): seq<Step> {
    [Publish(event)] + DrainSteps(reports, handed)
  }

  lemma PublishIsSteps(q: Queues, event: Event, reports: seq<Report>, handed: seq<Step>)
    ensures After(q, PublishSteps(event, reports, handed)) == Drained(Published(q, event), reports, handed)
  {
    AfterConcat(q, [Publish(event)], DrainSteps(reports, handed));
    AfterOne(q, Publish(event));
    DrainIsSteps(Published(q, event), reports, handed);
  }

  /** What a call of the producer meets: the reports that it runs callbacks for, and whether its queue has room. */
  datatype Answer = Answer(reports: seq<Report>, hasRoom: bool)

  const SILENCE: Answer := Answer([], false)

  function Rest(answers: seq<Answer>, k: nat): seq<Answer> { if k <= |answers| then answers[k..] else [] }

  function FirstReports(answers: seq<Answer>): seq<Report> { if answers == [] then [] else answers[0].reports }

  /** How many of `n` records can be handed over: every call of the producer takes an answer, and the poll behind it
      another; without an answer there is no room. */
  function Room(answers: seq<Answer>, n: nat): (k: nat)
    ensures k <= n
    decreases n
  {
    if n == 0 || answers == [] || !answers[0].hasRoom then 0 else 1 + Room(Rest(answers, 2), n - 1)
  }

  /** The `k`-th call of the producer finds room. */
  predicate HasRoomFor(answers: seq<Answer>, k: nat) { 2 * k < |answers| && answers[2 * k].hasRoom }

  /** All records can be handed over if and only if every call finds room. */
  lemma {:induction false} RoomForAllIff(answers: seq<Answer>, n: nat)
    ensures Room(answers, n) == n <==> forall k: nat | k < n :: HasRoomFor(answers, k)
    decreases n
  {
    if n > 0 {
      RoomForAllIff(Rest(answers, 2), n - 1);
      if HasRoomFor(answers, 0) {
        forall k: nat | k < n - 1 ensures HasRoomFor(Rest(answers, 2), k) <==> HasRoomFor(answers, k + 1) {}
        forall k: nat | 0 < k < n ensures HasRoomFor(answers, k) <==> HasRoomFor(Rest(answers, 2), k - 1) {}
      }
    }
  }

  class BufferedEventPublisher {
    var pending: seq<Event>
    var deliveryFailures: seq<Event>

    // The producer: its queue, and what the coming calls of it will meet.
    var inFlight: seq<Event>
    var answers: seq<Answer>

    ghost var delivered: seq<Event>
    ghost var sent: seq<Event>
    ghost var published: seq<Event>

    ghost function State(): Queues
      reads this
    {
      Queues(pending, deliveryFailures, inFlight, delivered, sent, published)
    }

    constructor (answers: seq<Answer>)
      ensures State() == EMPTY && Conserves(State()) && InOrder(State())
    {
      this.answers := answers;
      pending, deliveryFailures, inFlight, delivered, sent, published := [], [], [], [], [], [];
    }

    method Next() returns (answer: Answer)
      modifies this`answers
      ensures answers == Rest(old(answers), 1)
      ensures answer == if old(answers) == [] then SILENCE else old(answers)[0]
    {
      if answers == [] {
        return SILENCE;
      }
      answer, answers := answers[0], answers[1..];
    }

    /** Runs the callbacks of reports. */
    method RunCallbacks(reports: seq<Report>)
      modifies this`inFlight, this`deliveryFailures, this`delivered
      ensures State() == ReportedAll(old(State()), reports)
    {
      ghost var before := State();
      for i := 0 to |reports|
        invariant State() == ReportedAll(before, reports[..i])
      {
        assert reports[..i + 1][..i] == reports[..i];
        var index := reports[i].index;
        if index < |inFlight| {
          var event := inFlight[index];
          inFlight := inFlight[..index] + inFlight[index + 1..];
          if reports[i].success {
            delivered := delivered + [event];
          } else {
            deliveryFailures := deliveryFailures + [event];
          }
        }
      }
      assert reports[..|reports|] == reports;
    }

    method Poll() returns (ghost reports: seq<Report>)
      modifies this`answers, this`inFlight, this`deliveryFailures, this`delivered
      ensures State() == ReportedAll(old(State()), reports)
      ensures answers == Rest(old(answers), 1) && reports == FirstReports(old(answers))
    {
      hide ReportedAll;
      var answer := Next();
      reports := answer.reports;
      RunCallbacks(answer.reports);
    }

    /** Takes the last failure first and puts each in front. */
    method Requeue()
      modifies this`pending, this`deliveryFailures, this`sent
      ensures State() == Requeued(old(State()))
    {
      ghost var q := State();
      sent := Without(sent, deliveryFailures);
      while deliveryFailures != []
        invariant State() == q.(pending := pending, failures := deliveryFailures, sent := sent)
        invariant deliveryFailures + pending == q.failures + q.pending && sent == Without(q.sent, q.failures)
        decreases |deliveryFailures|
      {
        var last := |deliveryFailures| - 1;
        var record := deliveryFailures[last];
        assert deliveryFailures == deliveryFailures[..last] + [record];
        assert deliveryFailures[..last] + [record] + pending == deliveryFailures[..last] + ([record] + pending);
        deliveryFailures, pending := deliveryFailures[..last], [record] + pending;
      }
      assert [] + pending == pending;
    }

    /** Moves records to the producer until its queue is full; what failed goes first. */
    method DrainAvailable() returns (drained: bool, ghost reports: seq<Report>, ghost handed: seq<Step>)
      modifies this
      ensures State() == Drained(old(State()), reports, handed) && HandsOver(handed)
      ensures drained <==> pending == []
      ensures reports == FirstReports(old(answers))
      ensures var waiting := Requeued(ReportedAll(old(State()), reports)).pending;
              pending == waiting[Room(Rest(old(answers), 1), |waiting|)..]
      ensures old(Conserves(State())) ==> Conserves(State())
      ensures published == old(published)
      ensures old(Conserves(State()) && InOrder(State())) && NoRepeats(published) ==>
                (InOrder(State()) <==> FailsInTurn(ReportedAll(old(State()), reports)))
    {
      hide ReportedAll, Requeued, Conserves, InOrder, NoRepeats, FailsInTurn, HandsOver;
      ghost var q := State();
      reports := Poll();
      Requeue();
      drained, handed := Produce();
      DrainOrderIff(q, reports, handed);
    }

    /** The loop that hands over what is pending. */
    method Produce() returns (drained: bool, ghost steps: seq<Step>)
      modifies this
      ensures State() == After(old(State()), steps) && HandsOver(steps)
      ensures drained <==> pending == []
      ensures pending == old(pending)[Room(old(answers), |old(pending)|)..]
    {
      hide ReportedAll, After;
      ghost var q, k := State(), 0;
      steps := [];
      NoStep(q);
      while pending != []
        invariant State() == After(q, steps) && HandsOver(steps)
        invariant 0 <= k <= |q.pending| && pending == q.pending[k..]
        invariant Room(old(answers), |q.pending|) == k + Room(answers, |pending|)
        decreases |pending|
      {
        ghost var given := answers;
        var answer := Next();
        if !answer.hasRoom {
          ghost var reports := this.Poll();
          ReportsLeavePending(After(q, steps), reports);
          OneMore(q, steps, Step.Poll(reports));
          steps := steps + [Step.Poll(reports)];
          return false, steps;
        }
        var record := pending[0];
        OneMore(q, steps, Step.Produce);
        inFlight, sent, pending := inFlight + [record], sent + [record], pending[1..];
        steps := steps + [Step.Produce];
        k := k + 1;
        ReportsLeavePending(State(), FirstReports(answers));
        ghost var reports := this.Poll();
        assert answers == Rest(given, 2);
        OneMore(q, steps, Step.Poll(reports));
        steps := steps + [Step.Poll(reports)];
      }
      drained := true;
    }

    method Publish(event: Event) returns (ghost reports: seq<Report>, ghost handed: seq<Step>)
      modifies this
      ensures State() == After(old(State()), PublishSteps(event, reports, handed)) && HandsOver(handed)
      ensures old(Conserves(State())) ==> Conserves(State())
      ensures published == old(published) + [event]
      ensures old(Conserves(State()) && InOrder(State())) && NoRepeats(published) ==>
                (InOrder(State()) <==> FailsInTurn(ReportedAll(Published(old(State()), event), reports)))
    {
      hide Conserves, InOrder, NoRepeats, FailsInTurn, HandsOver, Drained, ReportedAll;
      ApplyKeeps(State(), Step.Publish(event));
      ApplyKeepsOrder(State(), Step.Publish(event));
      pending, published := pending + [event], published + [event];
      assert State() == Published(old(State()), event);
      var drained;
      drained, reports, handed := DrainAvailable();
      PublishIsSteps(old(State()), event, reports, handed);
    }

    /** Drains both buffers; `ticks` is how many turns the deadline allows. It gives up only when all turns are used up,
        and something was left to do in each of them (`marks` are the moments). */
    method DrainAll(ticks: nat) returns (ok: bool, ghost steps: seq<Step>, ghost marks: seq<nat>)
      modifies this
      ensures State() == After(old(State()), steps) && forall step | step in steps :: !step.Publish?
      ensures old(Conserves(State())) ==> Conserves(State())
      ensures published == old(published)
      ensures Unsettled(old(State()), steps, marks) && (!ok ==> |marks| == ticks)
      ensures ok && old(Conserves(State())) ==>
                pending == [] && inFlight == [] && deliveryFailures == [] && multiset(delivered) == multiset(published)
      ensures ok && old(Conserves(State()) && InOrder(State())) && NoRepeats(published) ==>
                (AlwaysFailsInTurn(old(State()), steps) ==> sent == published)
    {
      hide ReportedAll, Drained, DrainSteps, Apply, After, InOrder, Conserves, NoRepeats;
      hide AlwaysFailsInTurn, AlwaysInOrder;
      hide Unsettled, FirstReports;
      ghost var q := State();
      var left := ticks;
      steps, marks := [], [];
      NoStep(q);
      NoMark(q);
      while true
        invariant State() == After(q, steps) && NoPublication(steps)
        invariant Unsettled(q, steps, marks) && |marks| + left == ticks
        decreases left
      {
        var _, reports, handed := DrainAvailable();
        DrainIsSteps(After(q, steps), reports, handed);
        OnePart(q, steps, DrainSteps(reports, handed));
        DrainPublishesNothing(steps, reports, handed);
        MarksStay(q, steps, DrainSteps(reports, handed), marks);
        steps := steps + DrainSteps(reports, handed);
        if left == 0 {
          DrainedAll(q, steps);
          return false, steps, marks;
        }
        left := left - 1;
        reports := Poll();
        OneMorePoll(q, steps, reports);
        MarksStay(q, steps, [Step.Poll(reports)], marks);
        MarksBefore(q, steps, [Step.Poll(reports)], marks);
        steps := steps + [Step.Poll(reports)];
        if !Settled(State()) {
          OneMoreMark(q, steps, marks);
          marks := marks + [|steps|];
        }
        if pending != [] {
          continue;
        }
        var undelivered := |inFlight|;
        ghost var q' := State();
        reports := Poll();
        OneMorePoll(q, steps, reports);
        MarksStay(q, steps, [Step.Poll(reports)], marks);
        steps := steps + [Step.Poll(reports)];
        if undelivered == 0 {
          NothingInFlight(q', reports);
          if deliveryFailures == [] {
            DrainedAll(q, steps);
            return true, steps, marks;
          }
        }
      }
    }
  }

  lemma NoMark(q: Queues)
    ensures Unsettled(q, [], [])
  {}

  /** Reports about nothing change nothing. */
  lemma {:induction false} NothingInFlight(q: Queues, reports: seq<Report>)
    requires q.inFlight == []
    ensures ReportedAll(q, reports) == q
    decreases |reports|
  {
    if reports != [] {
      NothingInFlight(q, reports[..|reports| - 1]);
    }
  }

  predicate NoPublication(steps: seq<Step>) { forall step | step in steps :: !step.Publish? }

  lemma {:induction false} NothingPublished(q: Queues, steps: seq<Step>)
    requires NoPublication(steps)
    ensures After(q, steps).published == q.published
    decreases |steps|
  {
    if steps != [] {
      var last := |steps| - 1;
      NothingPublished(q, steps[..last]);
      assert steps[last] in steps;
      var q' := After(q, steps[..last]);
      if steps[last].Poll? {
        ReportedAllKeeps(q', steps[last].reports);
      }
    }
  }

  lemma DrainPublishesNothing(steps: seq<Step>, reports: seq<Report>, handed: seq<Step>)
    requires NoPublication(steps) && HandsOver(handed)
    ensures NoPublication(steps + DrainSteps(reports, handed))
  {}

  /** What a sequence of steps that publishes nothing has kept, and what it means when nothing is left over. */
  lemma DrainedAll(q: Queues, steps: seq<Step>)
    requires NoPublication(steps)
    ensures var end := After(q, steps);
            && end.published == q.published
            && (Conserves(q) ==> Conserves(end))
            && (Conserves(q) && end.pending == [] && end.failures == [] && end.inFlight == [] ==>
                  multiset(end.delivered) == multiset(end.published))
            && (Conserves(q) && InOrder(q) && NoRepeats(q.published) && AlwaysFailsInTurn(q, steps)
                && end.pending == []
                ==> end.sent == end.published)
  {
    hide NoRepeats, AlwaysFailsInTurn;
    var end := After(q, steps);
    NothingPublished(q, steps);
    AfterKeeps(q, steps);
    if Conserves(q) && InOrder(q) && NoRepeats(q.published) && AlwaysFailsInTurn(q, steps) && end.pending == [] {
      OrderIff(q, steps);
      assert steps[..|steps|] == steps;
      assert InOrder(end);
      assert end.sent + [] == end.sent;
    }
  }

  lemma OnePart(q: Queues, steps: seq<Step>, more: seq<Step>)
    ensures After(q, steps + more) == After(After(q, steps), more)
  {
    AfterConcat(q, steps, more);
  }

  lemma OneMorePoll(q: Queues, steps: seq<Step>, reports: seq<Report>)
    ensures After(q, steps + [Poll(reports)]) == ReportedAll(After(q, steps), reports)
    ensures NoPublication(steps) ==> NoPublication(steps + [Poll(reports)])
  {
    OneMore(q, steps, Poll(reports));
  }

  lemma ReportsLeavePending(q: Queues, reports: seq<Report>)
    ensures ReportedAll(q, reports).pending == q.pending
  {
    ReportedAllKeeps(q, reports);
  }

  /** Nothing waits, is in flight or has failed. */
  predicate Settled(q: Queues) { q.pending == [] && q.inFlight == [] && q.failures == [] }

  /** After these numbers of steps something was left to do. */
  predicate Unsettled(q: Queues, steps: seq<Step>, marks: seq<nat>) {
    && (forall i, j | 0 <= i < j < |marks| :: marks[i] < marks[j])
    && forall m | m in marks :: m <= |steps| && !Settled(After(q, steps[..m]))
  }

  lemma MarksStay(q: Queues, steps: seq<Step>, more: seq<Step>, marks: seq<nat>)
    requires Unsettled(q, steps, marks)
    ensures Unsettled(q, steps + more, marks)
  {
    assert forall m | m in marks :: (steps + more)[..m] == steps[..m];
  }

  lemma OneMoreMark(q: Queues, steps: seq<Step>, marks: seq<nat>)
    requires Unsettled(q, steps, marks) && !Settled(After(q, steps)) && |steps| !in marks
    ensures Unsettled(q, steps, marks + [|steps|])
  {
    assert steps[..|steps|] == steps;
    forall i | 0 <= i < |marks| ensures marks[i] < |steps| {
      assert marks[i] in marks;
    }
  }

  lemma MarksBefore(q: Queues, steps: seq<Step>, more: seq<Step>, marks: seq<nat>)
    requires Unsettled(q, steps, marks) && more != []
    ensures |steps + more| !in marks
  {}

  lemma NoStep(q: Queues)
    ensures After(q, []) == q
  {}

  lemma OneMore(q: Queues, steps: seq<Step>, step: Step)
    ensures After(q, steps + [step]) == Apply(After(q, steps), step)
    ensures HandsOver(steps) && (step.Poll? || step.Produce?) ==> HandsOver(steps + [step])
  {
    assert (steps + [step])[..|steps|] == steps;
  }

  /** Order is kept while the producer's queue is full, but not across every failed delivery: the retry sends the failed
      record behind one that was published later. */
  lemma FailureReorders(a: Event, b: Event)
    requires a != b
    ensures var handed := Produced(Produced(Published(Published(EMPTY, a), b)));
            var retried := Produced(Requeued(ReportedAll(handed, [Report(0, false), Report(0, true)])));
            var end := ReportedAll(retried, [Report(0, true)]);
            && end.published == [a, b] && end.sent == [b, a] && end.delivered == [b, a] && Conserves(end)
  {
    hide Reported, ReportedAll, Conserves;
    var handed := Produced(Produced(Published(Published(EMPTY, a), b)));
    assert handed == Queues([], [], [a, b], [], [a, b], [a, b]);
    FailThenSucceed(a, b);
    assert [a, b][1..] == [b] && [b][1..] == [] && [a] + [] == [a];
    var failed := Queues([], [a], [], [b], [a, b], [a, b]);
    assert Without([b], [a]) == [b];
    assert Requeued(failed) == Queues([a], [], [], [b], [b], [a, b]);
    var retried := Produced(Requeued(failed));
    assert retried == Queues([], [], [a], [b], [b, a], [a, b]);
    ThenSucceed(a, b);
  }

  lemma FailThenSucceed(a: Event, b: Event)
    ensures ReportedAll(Queues([], [], [a, b], [], [a, b], [a, b]), [Report(0, false), Report(0, true)])
         == Queues([], [a], [], [b], [a, b], [a, b])
  {
    var handed, reports := Queues([], [], [a, b], [], [a, b], [a, b]), [Report(0, false), Report(0, true)];
    assert reports[..1] == [Report(0, false)] && reports[..1][..0] == [];
    assert ReportedAll(handed, reports[..1]) == Reported(handed, Report(0, false));
  }

  lemma ThenSucceed(a: Event, b: Event)
    ensures var end := ReportedAll(Queues([], [], [a], [b], [b, a], [a, b]), [Report(0, true)]);
            end.published == [a, b] && end.sent == [b, a] && end.delivered == [b, a] && Conserves(end)
  {
    assert [Report(0, true)][..0] == [];
  }

  /** Publishes a log in pieces of at most `chunkBytes`, and then how many they were. */
  method PublishConnection(publisher: BufferedEventPublisher, captureId: string, trace: int, filename: string,
                           content: Bytes, chunkBytes: nat) returns (ghost steps: seq<Step>)
    requires chunkBytes > 0
    modifies publisher
    ensures publisher.State() == After(old(publisher.State()), steps)
    ensures old(Conserves(publisher.State())) ==> Conserves(publisher.State())
    ensures publisher.published
         == old(publisher.published) + ConnectionEvents(captureId, trace, filename, Chunks(content, chunkBytes))
  {
    hide Conserves, InOrder, NoRepeats, Chunks, ChunkEvents, After, PublishSteps, FailsInTurn, ReportedAll;
    var chunkCount, offset := 0, 0;
    ghost var q := publisher.State();
    steps := [];
    NoStep(q);
    ghost var chunks: seq<Bytes> := [];
    ghost var before := publisher.published;
    NoPieceYet(captureId, trace, filename, content, chunkBytes);
    while offset < |content|
      invariant 0 <= offset <= |content| && chunkCount == |chunks|
      invariant chunks + Chunks(content[offset..], chunkBytes) == Chunks(content, chunkBytes)
      invariant publisher.State() == After(q, steps)
      invariant old(Conserves(publisher.State())) ==> Conserves(publisher.State())
      invariant publisher.published == before + ChunkEvents(captureId, trace, filename, chunks)
      decreases |content| - offset
    {
      var end := if offset + chunkBytes < |content| then offset + chunkBytes else |content|;
      var chunk := content[offset..end];
      ChunksFrom(content, chunkBytes, offset);
      OneMoreChunk(captureId, trace, filename, chunks, chunk, Chunks(content[end..], chunkBytes));
      var event := Event(SCHEMA_VERSION, captureId,
                         ConnectionLogChunk(Number(trace), filename, Some(chunkCount), Some(chunk)));
      var reports, handed := publisher.Publish(event);
      OnePart(q, steps, PublishSteps(event, reports, handed));
      steps := steps + PublishSteps(event, reports, handed);
      chunks := chunks + [chunk];
      chunkCount, offset := chunkCount + 1, end;
    }
    NoMoreChunks(content, chunkBytes, offset, chunks);
    var last := Event(SCHEMA_VERSION, captureId, ConnectionLogComplete(Number(trace), filename, Some(chunkCount)));
    var reports, handed := publisher.Publish(last);
    OnePart(q, steps, PublishSteps(last, reports, handed));
    steps := steps + PublishSteps(last, reports, handed);
  }

  lemma NoPieceYet(captureId: string, trace: int, filename: string, content: Bytes, size: nat)
    requires size > 0
    ensures ChunkEvents(captureId, trace, filename, []) == []
    ensures [] + Chunks(content[0..], size) == Chunks(content, size)
  {
    assert content[0..] == content;
  }

  lemma NoMoreChunks(content: Bytes, size: nat, offset: nat, chunks: seq<Bytes>)
    requires size > 0 && offset == |content|
    ensures chunks + Chunks(content[offset..], size) == chunks
  {}

  lemma OneMoreChunk(captureId: string, trace: int, filename: string, chunks: seq<Bytes>, chunk: Bytes,
                     rest: seq<Bytes>)
    ensures ChunkEvents(captureId, trace, filename, chunks + [chunk])
         == ChunkEvents(captureId, trace, filename, chunks)
            + [Event(SCHEMA_VERSION, captureId,
                     ConnectionLogChunk(Number(trace), filename, Some(|chunks|), Some(chunk)))]
    ensures chunks + ([chunk] + rest) == chunks + [chunk] + rest
  {
    assert (chunks + [chunk])[..|chunks|] == chunks;
  }
}
