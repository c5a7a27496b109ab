/** The gateway: it merges the routes of several backends, turns them into first-match rules, and republishes them when
    polling shows a change. Backend `i` is the one with index `i`; later backends win. */
module Gateway {
  import opened Options
  import opened Strings
  import opened Order
  import opened Routes

  datatype Owned = Owned(path: string, timeout: real, backend: nat)

  /** The last good routes of each backend that has answered. */
  type Snapshots = map<nat, seq<Route>>

  predicate AllKnown(snapshots: Snapshots, count: nat) { forall i | 0 <= i < count :: i in snapshots }

  ghost predicate WellFormed(snapshots: Snapshots, count: nat) {
    forall i | i in snapshots :: i < count && AreRoutes(snapshots[i])
  }

  // ---- Merging ------------------------------------------------------------------------------------------------

  predicate Advertises(snapshots: Snapshots, i: nat, path: string) {
    i in snapshots && exists r | r in snapshots[i] :: r.path == path
  }

  /** The owner of a path among the first `n` backends: the last one that advertises it. */
  function Owner(snapshots: Snapshots, n: nat, path: string): Option<nat> {
    if n == 0 then None
    else if Advertises(snapshots, n - 1, path) then Some(n - 1)
    else Owner(snapshots, n - 1, path)
  }

  function PutAll(owners: map<string, Owned>, routes: seq<Route>, backend: nat): map<string, Owned> {
    if routes == [] then owners
    else
      var r := routes[|routes| - 1];
      PutAll(owners, routes[..|routes| - 1], backend)[r.path := Owned(r.path, r.timeout, backend)]
  }

  function Owners(snapshots: Snapshots, n: nat): map<string, Owned>
    requires AllKnown(snapshots, n)
  {
    if n == 0 then map[] else PutAll(Owners(snapshots, n - 1), snapshots[n - 1], n - 1)
  }

  function OwnedList(owners: map<string, Owned>): (list: seq<Owned>)
    ensures |list| == |owners.Keys|
  {
    var paths := Sorted(owners.Keys);
    assert forall i | 0 <= i < |paths| :: paths[i] in owners.Keys;
    seq(|paths|, i requires 0 <= i < |paths| => owners[paths[i]])
  }

  function Merged(snapshots: Snapshots, count: nat): seq<Owned>
    requires AllKnown(snapshots, count)
  {
    OwnedList(Owners(snapshots, count))
  }

  method MergeRoutes(snapshots: Snapshots, count: nat) returns (merged: seq<Owned>)
    requires AllKnown(snapshots, count)
    ensures merged == Merged(snapshots, count)
    ensures forall i, j | 0 <= i < j < |merged| :: Less(merged[i].path, merged[j].path)
  {
    hide PutAll;
    var owners: map<string, Owned> := map[];
    for backend := 0 to count
      invariant AllKnown(snapshots, backend)
      invariant owners == Owners(snapshots, backend)
    {
      ghost var before := owners;
      var routes := snapshots[backend];
      PutNone(before, routes, backend);
      for k := 0 to |routes|
        invariant owners == PutAll(before, routes[..k], backend)
      {
        PutOne(before, routes, k, backend);
        owners := owners[routes[k].path := Owned(routes[k].path, routes[k].timeout, backend)];
      }
      assert routes[..|routes|] == routes;
    }
    merged := OwnedList(owners);
    MergedIncreases(snapshots, count);
  }

  /** Merged routes are sorted by path, so that no path is there twice. */
  lemma MergedIncreases(snapshots: Snapshots, count: nat)
    requires AllKnown(snapshots, count)
    ensures var merged := Merged(snapshots, count);
            forall i, j | 0 <= i < j < |merged| :: Less(merged[i].path, merged[j].path)
  {
    hide Owners, Sorted, Owner;
    var owners := Owners(snapshots, count);
    var paths, merged := Sorted(owners.Keys), OwnedList(owners);
    forall path | path in owners ensures owners[path].path == path {
      OwnersFacts(snapshots, count, path);
    }
    forall i, j | 0 <= i < j < |merged| ensures Less(merged[i].path, merged[j].path) {
      assert paths[i] in owners.Keys && paths[j] in owners.Keys;
      SortedIncreases(owners.Keys, i, j);
    }
  }

  lemma PutNone(owners: map<string, Owned>, routes: seq<Route>, backend: nat)
    ensures PutAll(owners, routes[..0], backend) == owners
  {}

  lemma PutOne(owners: map<string, Owned>, routes: seq<Route>, k: nat, backend: nat)
    requires k < |routes|
    ensures PutAll(owners, routes[..k + 1], backend)
         == PutAll(owners, routes[..k], backend)[routes[k].path := Owned(routes[k].path, routes[k].timeout, backend)]
  {
    assert routes[..k + 1][..k] == routes[..k];
  }

  lemma {:induction false} PutAllFacts(owners: map<string, Owned>, routes: seq<Route>, backend: nat, path: string)
    ensures var put := PutAll(owners, routes, backend);
            && (path in put <==> path in owners || exists r :: r in routes && r.path == path)
            && (path in put ==>
                  if exists r :: r in routes && r.path == path then
                    && put[path].path == path && put[path].backend == backend
                    && Route(path, put[path].timeout) in routes
                  else path in owners && put[path] == owners[path])
  {
    if routes != [] {
      var front, last := routes[..|routes| - 1], routes[|routes| - 1];
      PutAllFacts(owners, front, backend, path);
      assert forall r :: r in routes <==> r in front || r == last;
    }
  }

  /** The owner of a path is the last backend that advertises it, with its own timeout. */
  lemma {:induction false} OwnersFacts(snapshots: Snapshots, n: nat, path: string)
    requires AllKnown(snapshots, n)
    ensures var owners, owner := Owners(snapshots, n), Owner(snapshots, n, path);
            && (path in owners <==> owner.Some?)
            && (owner.Some? ==>
                  && owner.value < n && owners[path].path == path && owners[path].backend == owner.value
                  && Route(path, owners[path].timeout) in snapshots[owner.value])
  {
    if n > 0 {
      OwnersFacts(snapshots, n - 1, path);
      PutAllFacts(Owners(snapshots, n - 1), snapshots[n - 1], n - 1, path);
    }
  }

  lemma OwnedListHas(owners: map<string, Owned>, o: Owned)
    requires forall path | path in owners :: owners[path].path == path
    ensures o in OwnedList(owners) <==> o.path in owners && owners[o.path] == o
  {
    var paths, list := Sorted(owners.Keys), OwnedList(owners);
    if o.path in owners && owners[o.path] == o {
      SortedHas(owners.Keys, o.path);
      var i :| 0 <= i < |paths| && paths[i] == o.path;
      assert list[i] == o;
    }
  }

  // ---- Resolution ---------------------------------------------------------------------------------------------

  datatype Match = Exact(path: string) | Prefix(prefix: string)

  datatype Rule = Rule(pattern: Match, backend: nat, timeout: real)

  predicate Matches(pattern: Match, request: string) {
    match pattern
    case Exact(path) => request == path
    case Prefix(prefix) => StartsWith(request, prefix)
  }

  /** Two exact rules for each route, and one for the rest. */
  function BuildRules(merged: seq<Owned>, fallbackTimeout: real): seq<Rule> {
    RouteRules(merged) + [Rule(Prefix("/"), 0, fallbackTimeout)]
  }

  function RouteRules(merged: seq<Owned>): seq<Rule> {
    if merged == [] then []
    else
      var o := merged[|merged| - 1];
      RouteRules(merged[..|merged| - 1])
      + [Rule(Exact(o.path), o.backend, o.timeout), Rule(Exact(o.path + "/"), o.backend, o.timeout)]
  }

  method BuildRds(merged: seq<Owned>, fallbackTimeout: real) returns (rules: seq<Rule>)
    ensures rules == BuildRules(merged, fallbackTimeout)
  {
    rules := [];
    for i := 0 to |merged|
      invariant rules == RouteRules(merged[..i])
    {
      assert merged[..i + 1][..i] == merged[..i];
      var o := merged[i];
      rules := rules + [Rule(Exact(o.path), o.backend, o.timeout), Rule(Exact(o.path + "/"), o.backend, o.timeout)];
    }
    assert merged[..|merged|] == merged;
    rules := rules + [Rule(Prefix("/"), 0, fallbackTimeout)];
  }

  function FirstMatch(rules: seq<Rule>, request: string): Option<Rule>
    decreases |rules|
  {
    if rules == [] then None
    else if Matches(rules[0].pattern, request) then Some(rules[0])
    else FirstMatch(rules[1..], request)
  }

  lemma {:induction false} FirstMatchConcat(a: seq<Rule>, b: seq<Rule>, request: string)
    ensures FirstMatch(a + b, request)
         == if FirstMatch(a, request).Some? then FirstMatch(a, request) else FirstMatch(b, request)
    decreases |a|
  {
    if a == [] {
      assert a + b == b;
    } else {
      assert (a + b)[0] == a[0] && (a + b)[1..] == a[1..] + b;
      FirstMatchConcat(a[1..], b, request);
    }
  }

  /** The rule of a route matches its path, with or without a slash at the end. */
  predicate Serves(o: Owned, request: string) { request == o.path || request == o.path + "/" }

  lemma PairMatch(o: Owned, request: string)
    ensures var pair := [Rule(Exact(o.path), o.backend, o.timeout), Rule(Exact(o.path + "/"), o.backend, o.timeout)];
            var first := FirstMatch(pair, request);
            if Serves(o, request) then
              first.Some? && first.value.backend == o.backend && first.value.timeout == o.timeout
            else first == None
  {
    var pair := [Rule(Exact(o.path), o.backend, o.timeout), Rule(Exact(o.path + "/"), o.backend, o.timeout)];
    assert pair[1..] == [pair[1]] && pair[1..][1..] == [];
    assert FirstMatch(pair[1..], request) == if request == o.path + "/" then Some(pair[1]) else None;
  }

  lemma {:induction false} RouteRulesMatch(merged: seq<Owned>, request: string)
    ensures var first := FirstMatch(RouteRules(merged), request);
            && (first.Some? <==> exists o :: o in merged && Serves(o, request))
            && (first.Some? ==> exists o ::
                  o in merged && Serves(o, request) && first.value.backend == o.backend
                  && first.value.timeout == o.timeout)
  {
    hide FirstMatch, Serves;
    if merged == [] {
      NoRules(request);
    } else {
      var front, last := merged[..|merged| - 1], merged[|merged| - 1];
      var pair :=
        [Rule(Exact(last.path), last.backend, last.timeout), Rule(Exact(last.path + "/"), last.backend, last.timeout)];
      RouteRulesMatch(front, request);
      PairMatch(last, request);
      FirstMatchConcat(RouteRules(front), pair, request);
      assert forall o :: o in merged <==> o in front || o == last;
    }
  }

  lemma NoRules(request: string)
    ensures FirstMatch([], request) == None
  {}

  function TrimOneSlash(request: string): string {
    if |request| > 0 && request[|request| - 1] == '/' then request[..|request| - 1] else request
  }

  lemma ServesItsPath(o: Owned, request: string)
    requires IsCanonical(o.path)
    ensures Serves(o, request) <==> o.path == TrimOneSlash(request)
  {
    if request == o.path + "/" {
      assert request[..|request| - 1] == o.path;
    }
    if o.path == TrimOneSlash(request) && request != o.path {
      assert request == o.path + "/";
    }
  }

  /** Every owned route is canonical, is the one that its owner advertises, and all owned paths are listed. */
  lemma MergedFacts(snapshots: Snapshots, count: nat, o: Owned)
    requires AllKnown(snapshots, count) && WellFormed(snapshots, count)
    ensures o in Merged(snapshots, count) ==>
              && IsCanonical(o.path) && Owner(snapshots, count, o.path) == Some(o.backend)
              && o.backend < count && Route(o.path, o.timeout) in snapshots[o.backend]
    ensures forall path | Owner(snapshots, count, path).Some? ::
              exists x :: x in Merged(snapshots, count) && x.path == path
  {
    hide Owners, Owner, IsCanonical, OwnedList;
    var owners := Owners(snapshots, count);
    forall path ensures path in owners ==> owners[path].path == path {
      OwnersFacts(snapshots, count, path);
    }
    OwnersFacts(snapshots, count, o.path);
    OwnedListHas(owners, o);
    forall path | Owner(snapshots, count, path).Some?
      ensures exists x :: x in Merged(snapshots, count) && x.path == path
    {
      OwnersFacts(snapshots, count, path);
      OwnedListHas(owners, owners[path]);
    }
    if o in Merged(snapshots, count) {
      assert Route(o.path, o.timeout).path == o.path;
    }
  }

  /** For every request the first matching rule leads to the last backend that advertises the path of the request,
      without its last slash, with the timeout that this backend gives; otherwise to backend 0. */
  lemma Resolution(snapshots: Snapshots, count: nat, fallbackTimeout: real, request: string)
    requires AllKnown(snapshots, count) && WellFormed(snapshots, count) && StartsWith(request, "/")
    ensures var first := FirstMatch(BuildRules(Merged(snapshots, count), fallbackTimeout), request);
            var path := TrimOneSlash(request);
            && first.Some?
            && match Owner(snapshots, count, path)
               case Some(i) =>
                 && first.value.backend == i && i < count && Route(path, first.value.timeout) in snapshots[i]
               case None => first.value.backend == 0 && first.value.timeout == fallbackTimeout
  {
    hide FirstMatch, Owner, Merged, Serves, RouteRules, IsCanonical, TrimOneSlash;
    var merged := Merged(snapshots, count);
    var path := TrimOneSlash(request);
    FirstMatchConcat(RouteRules(merged), [Rule(Prefix("/"), 0, fallbackTimeout)], request);
    RouteRulesMatch(merged, request);
    Fallback(fallbackTimeout, request);
    forall o | o in merged ensures Serves(o, request) <==> o.path == path {
      MergedFacts(snapshots, count, o);
      ServesItsPath(o, request);
    }
    forall o | o in merged && Serves(o, request)
      ensures Owner(snapshots, count, path) == Some(o.backend) && o.backend < count
      ensures Route(path, o.timeout) in snapshots[o.backend]
    {
      MergedFacts(snapshots, count, o);
    }
    if Owner(snapshots, count, path).Some? {
      MergedFacts(snapshots, count, Owned(path, 0.0, 0));
      var x :| x in merged && x.path == path;
      assert Serves(x, request);
    }
  }

  lemma Fallback(fallbackTimeout: real, request: string)
    requires StartsWith(request, "/")
    ensures FirstMatch([Rule(Prefix("/"), 0, fallbackTimeout)], request) == Some(Rule(Prefix("/"), 0, fallbackTimeout))
  {}

  /** The owner is the highest index that advertises the path. */
  lemma {:induction false} OwnerIsLast(snapshots: Snapshots, n: nat, path: string)
    ensures match Owner(snapshots, n, path)
            case Some(i) =>
              i < n && Advertises(snapshots, i, path) && forall j | i < j < n :: !Advertises(snapshots, j, path)
            case None => forall j | 0 <= j < n :: !Advertises(snapshots, j, path)
  {
    if n > 0 {
      OwnerIsLast(snapshots, n - 1, path);
    }
  }

  // ---- Polling ------------------------------------------------------------------------------------------------

  /** What the backends answer in one turn, and the order in which the answers come in. */
  datatype Turn = Turn(answers: seq<Option<seq<Route>>>, order: seq<nat>)

  ghost predicate WellPolled(turn: Turn, count: nat) {
    && |turn.answers| == count
    && (forall i :: i in turn.order <==> 0 <= i < count)
    && forall i | 0 <= i < count && turn.answers[i].Some? :: AreRoutes(turn.answers[i].value)
  }

  /** The snapshots after a turn, which the order of the answers does not enter. */
  function Polled(snapshots: Snapshots, answers: seq<Option<seq<Route>>>): Snapshots {
    snapshots + map i | 0 <= i < |answers| && answers[i].Some? :: answers[i].value
  }

  /** As `Polled`, with the answers of some backends only. */
  function PartlyPolled(snapshots: Snapshots, answers: seq<Option<seq<Route>>>, done: seq<nat>): Snapshots {
    snapshots + map i | i in done && i < |answers| && answers[i].Some? :: answers[i].value
  }

  /** Lookups decide maps. */
  lemma SameSnapshots(a: Snapshots, b: Snapshots)
    requires forall x: nat :: (x in a <==> x in b) && (x in a ==> a[x] == b[x])
    ensures a == b
  {}

  lemma PartlyPolledAt(snapshots: Snapshots, answers: seq<Option<seq<Route>>>, done: seq<nat>, x: nat)
    ensures var polled, answered := PartlyPolled(snapshots, answers, done),
                                    x in done && x < |answers| && answers[x].Some?;
            && (x in polled <==> x in snapshots || answered)
            && (x in polled ==> polled[x] == if answered then answers[x].value else snapshots[x])
  {}

  lemma PartlyPolledGrows(snapshots: Snapshots, answers: seq<Option<seq<Route>>>, done: seq<nat>, i: nat)
    requires i < |answers|
    ensures var before, after := PartlyPolled(snapshots, answers, done), PartlyPolled(snapshots, answers, done + [i]);
            && after == (if answers[i].Some? then before[i := answers[i].value] else before)
            && (after == snapshots ==> before == snapshots)
  {
    hide PartlyPolled;
    var before, after := PartlyPolled(snapshots, answers, done), PartlyPolled(snapshots, answers, done + [i]);
    var next := if answers[i].Some? then before[i := answers[i].value] else before;
    forall x: nat
      ensures (x in after <==> x in next) && (x in after ==> after[x] == next[x])
      ensures after == snapshots ==> (x in before <==> x in snapshots) && (x in before ==> before[x] == snapshots[x])
    {
      PartlyPolledAt(snapshots, answers, done, x);
      PartlyPolledAt(snapshots, answers, done + [i], x);
    }
    SameSnapshots(after, next);
    if after == snapshots {
      SameSnapshots(before, snapshots);
    }
  }

  lemma SetAgain(snapshots: Snapshots, i: nat, routes: seq<Route>)
    ensures i in snapshots && snapshots[i] == routes <==> snapshots[i := routes] == snapshots
  {
    assert i in snapshots[i := routes] && snapshots[i := routes][i] == routes;
  }

  lemma PolledByAll(snapshots: Snapshots, answers: seq<Option<seq<Route>>>, order: seq<nat>)
    requires forall i :: i in order <==> 0 <= i < |answers|
    ensures PartlyPolled(snapshots, answers, order) == Polled(snapshots, answers)
    ensures PartlyPolled(snapshots, answers, order[..0]) == snapshots && order[..|order|] == order
  {
    hide PartlyPolled;
    forall x: nat
      ensures var polled, all := PartlyPolled(snapshots, answers, order), Polled(snapshots, answers);
              (x in polled <==> x in all) && (x in polled ==> polled[x] == all[x])
    {
      PartlyPolledAt(snapshots, answers, order, x);
    }
    SameSnapshots(PartlyPolled(snapshots, answers, order), Polled(snapshots, answers));
    forall x: nat
      ensures var polled := PartlyPolled(snapshots, answers, order[..0]);
              (x in polled <==> x in snapshots) && (x in polled ==> polled[x] == snapshots[x])
    {
      PartlyPolledAt(snapshots, answers, order[..0], x);
    }
    SameSnapshots(PartlyPolled(snapshots, answers, order[..0]), snapshots);
  }

  /** The backends without a good answer, in the order in which the answers came. */
  function Failed(order: seq<nat>, answers: seq<Option<seq<Route>>>): seq<nat> {
    if order == [] then []
    else (if order[0] < |answers| && answers[order[0]].None? then [order[0]] else []) + Failed(order[1..], answers)
  }

  lemma FailedFrom(order: seq<nat>, k: nat, answers: seq<Option<seq<Route>>>, failures: seq<nat>)
    requires k < |order| && order[k] < |answers|
    ensures failures + Failed(order[k..], answers)
         == (if answers[order[k]].None? then failures + [order[k]] else failures) + Failed(order[k + 1..], answers)
  {
    assert order[k..][0] == order[k] && order[k..][1..] == order[k + 1..];
    assert answers[order[k]].Some? ==> [] + Failed(order[k + 1..], answers) == Failed(order[k + 1..], answers);
  }

  lemma FailedEnds(order: seq<nat>, answers: seq<Option<seq<Route>>>)
    ensures [] + Failed(order[0..], answers) == Failed(order, answers) && Failed(order[|order|..], answers) == []
    ensures forall failures: seq<nat> :: failures + Failed(order[|order|..], answers) == failures
  {
    assert order[0..] == order;
  }

  method PollBackends(snapshots0: Snapshots, turn: Turn, count: nat)
    returns (snapshots: Snapshots, changed: bool, failures: seq<nat>)
    requires WellPolled(turn, count)
    ensures snapshots == Polled(snapshots0, turn.answers)
    ensures changed <==> snapshots != snapshots0
    ensures forall i :: i in failures <==> 0 <= i < count && turn.answers[i].None?
    ensures failures == Failed(turn.order, turn.answers)
  {
    hide Polled, PartlyPolled, Failed;
    snapshots, changed, failures := snapshots0, false, [];
    PolledByAll(snapshots0, turn.answers, turn.order);
    FailedEnds(turn.order, turn.answers);
    for k := 0 to |turn.order|
      invariant snapshots == PartlyPolled(snapshots0, turn.answers, turn.order[..k])
      invariant changed <==> snapshots != snapshots0
      invariant forall i :: i in failures <==> i in turn.order[..k] && i < count && turn.answers[i].None?
      invariant failures + Failed(turn.order[k..], turn.answers) == Failed(turn.order, turn.answers)
    {
      var backend := turn.order[k];
      assert backend in turn.order;
      FailedFrom(turn.order, k, turn.answers, failures);
      assert turn.order[..k + 1] == turn.order[..k] + [backend];
      PartlyPolledGrows(snapshots0, turn.answers, turn.order[..k], backend);
      match turn.answers[backend]
      case None => failures := failures + [backend];
      case Some(routes) =>
        SetAgain(snapshots, backend, routes);
        if !(backend in snapshots && snapshots[backend] == routes) {
          snapshots, changed := snapshots[backend := routes], true;
        }
    }
  }

  // ---- The loop -----------------------------------------------------------------------------------------------

  /** What is published: the rules, the routes that they were built from, and a revision that is a hash of these. */
  datatype Publication = Publication(rules: seq<Rule>, merged: seq<Owned>, revision: string)

  /** The last good answers of the first `n` turns. */
  function LastGood(turns: seq<Turn>, n: nat): Snapshots
    requires n <= |turns|
  {
    if n == 0 then map[] else Polled(LastGood(turns, n - 1), turns[n - 1].answers)
  }

  function Current(snapshots: Snapshots, count: nat, fallbackTimeout: real, hash: seq<Owned> -> string):
    Option<Publication>
  {
    if AllKnown(snapshots, count) then
      var merged := Merged(snapshots, count);
      Some(Publication(BuildRules(merged, fallbackTimeout), merged, hash(merged)))
    else None
  }

  lemma {:induction false} LastGoodFits(turns: seq<Turn>, n: nat, count: nat)
    requires n <= |turns| && forall turn | turn in turns :: WellPolled(turn, count)
    ensures WellFormed(LastGood(turns, n), count)
  {
    if n > 0 {
      LastGoodFits(turns, n - 1, count);
      assert turns[n - 1] in turns;
    }
  }

  /** All answers are known exactly when there are as many snapshots as backends. */
  lemma KnownIffCount(snapshots: Snapshots, count: nat)
    requires WellFormed(snapshots, count)
    ensures |snapshots| == count <==> AllKnown(snapshots, count)
  {
    var all := UpTo(count);
    assert |snapshots| == |snapshots.Keys|;
    assert snapshots.Keys <= all;
    if AllKnown(snapshots, count) {
      assert snapshots.Keys == all;
    } else {
      assert snapshots.Keys != all by {
        var i: nat :| i < count && i !in snapshots;
        assert i in all;
      }
      ProperSubset(snapshots.Keys, all);
    }
  }

  function UpTo(count: nat): (all: set<nat>)
    ensures |all| == count && forall i: nat :: i in all <==> i < count
  {
    if count == 0 then {} else UpTo(count - 1) + {count - 1}
  }

  lemma KnownStays(snapshots: Snapshots, answers: seq<Option<seq<Route>>>, count: nat)
    ensures AllKnown(snapshots, count) ==> AllKnown(Polled(snapshots, answers), count)
  {}

  lemma ProperSubset(a: set<nat>, b: set<nat>)
    requires a < b
    ensures |a| < |b|
  {
    assert b == a + (b - a);
    assert b - a != {};
  }

  /** Polls turn by turn. After every turn in which all backends have answered at least once, what is published is what
      the last good answers give: whatever the order of the answers, and whatever collisions the hash has. */
  method Run(turns: seq<Turn>, count: nat, fallbackTimeout: real, hash: seq<Owned> -> string)
    returns (publications: seq<Option<Publication>>)
    requires forall turn | turn in turns :: WellPolled(turn, count)
    ensures |publications| == |turns|
    ensures forall t | 0 <= t < |turns| ::
              publications[t] == Current(LastGood(turns, t + 1), count, fallbackTimeout, hash)
  {
    hide LastGood, Current, WellPolled, Polled, AllKnown, Merged, BuildRules;
    var snapshots: Snapshots := map[];
    var published: Option<Publication> := None;
    publications := [];
    assert LastGood(turns, 0) == map[] by { NoneGood(turns); }
    for t := 0 to |turns|
      invariant |publications| == t && snapshots == LastGood(turns, t)
      invariant forall u | 0 <= u < t ::
                  publications[u] == Current(LastGood(turns, u + 1), count, fallbackTimeout, hash)
      invariant published == if t == 0 then None else Current(snapshots, count, fallbackTimeout, hash)
    {
      ghost var before := snapshots;
      assert turns[t] in turns;
      NextGood(turns, t);
      LastGoodFits(turns, t + 1, count);
      var changed, failures;
      snapshots, changed, failures := PollBackends(snapshots, turns[t], count);
      KnownIffCount(snapshots, count);
      CurrentFacts(snapshots, count, fallbackTimeout, hash);
      NothingCurrent(before, count, fallbackTimeout, hash);
      KnownStays(before, turns[t].answers, count);
      if |snapshots| == count {
        var merged := MergeRoutes(snapshots, count);
        var revision := hash(merged);
        if changed || published.None? || revision != published.value.revision {
          var rules := BuildRds(merged, fallbackTimeout);
          published := Some(Publication(rules, merged, revision));
        }
      }
      publications := publications + [published];
    }
  }

  lemma NoneGood(turns: seq<Turn>)
    ensures LastGood(turns, 0) == map[]
  {}

  lemma NextGood(turns: seq<Turn>, t: nat)
    requires t < |turns|
    ensures LastGood(turns, t + 1) == Polled(LastGood(turns, t), turns[t].answers)
  {}

  lemma CurrentFacts(snapshots: Snapshots, count: nat, fallbackTimeout: real, hash: seq<Owned> -> string)
    ensures var current := Current(snapshots, count, fallbackTimeout, hash);
            if AllKnown(snapshots, count) then
              var merged := Merged(snapshots, count);
              current == Some(Publication(BuildRules(merged, fallbackTimeout), merged, hash(merged)))
            else current == None
  {}

  lemma NothingCurrent(snapshots: Snapshots, count: nat, fallbackTimeout: real, hash: seq<Owned> -> string)
    ensures !AllKnown(snapshots, count) ==> Current(snapshots, count, fallbackTimeout, hash) == None
  {}
}
