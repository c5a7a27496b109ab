/** What a directory watcher sees, and what its journal says about it. */
module DirectoryJournal {
  import opened Options
  import opened EventProtocol
  import opened EventDelivery

  /** A scan is refused, or finds the accepted files (a mapping and the order of its keys) and all observed names. */
  datatype Scan = Refused | Found(order: seq<string>, files: map<string, Identity>, observed: set<string>)

  /** One turn of the loop: the scan, the clock after it, the answers to the flush, and the read of the seal. */
  datatype Turn = Turn(scan: Scan, now: int, os: seq<Syscall>, sealRead: bool)

  ghost predicate WellScanned(turns: seq<Turn>) {
    forall turn | turn in turns && turn.scan.Found? :: forall p :: p in turn.scan.order <==> p in turn.scan.files
  }

  /** The files of turn `t`; nothing before the first turn. */
  function FilesAt(turns: seq<Turn>, t: int): map<string, Identity> {
    if 0 <= t < |turns| && turns[t].scan.Found? then turns[t].scan.files else map[]
  }

  function ObservedAt(turns: seq<Turn>, t: int): set<string> {
    if 0 <= t < |turns| && turns[t].scan.Found? then turns[t].scan.observed else {}
  }

  predicate Matches(files: map<string, Identity>, path: string, identity: Identity) {
    path in files && files[path] == identity
  }

  /** The file is the same in turn `t` and in the turn before it. */
  predicate StableAt(turns: seq<Turn>, t: int, path: string, identity: Identity) {
    Matches(FilesAt(turns, t), path, identity) && Matches(FilesAt(turns, t - 1), path, identity)
  }

  // ---- Timing -------------------------------------------------------------------------------------------------

  datatype Limits = Limits(initialTimeout: int, updateTimeout: int, started: int, session: string)

  predicate AppearedAt(turns: seq<Turn>, t: int) { ObservedAt(turns, t) - ObservedAt(turns, t - 1) != {} }

  /** When a name last appeared during the first `n` turns, if one did. */
  function LastActivity(turns: seq<Turn>, n: nat): Option<int>
    requires n <= |turns|
  {
    if n == 0 then None
    else if AppearedAt(turns, n - 1) then Some(turns[n - 1].now)
    else LastActivity(turns, n - 1)
  }

  /** A seal is read in turn `t`, or nothing has appeared for the update timeout. */
  predicate SealsAt(turns: seq<Turn>, limits: Limits, t: nat)
    requires t < |turns|
  {
    || turns[t].sealRead
    || (LastActivity(turns, t + 1).Some?
        && turns[t].now - LastActivity(turns, t + 1).value >= limits.updateTimeout)
  }

  /** Up to turn `t` there has been no seal and nothing has appeared, and the initial timeout is over. */
  predicate ExpiresAt(turns: seq<Turn>, limits: Limits, t: nat)
    requires t < |turns|
  {
    && (forall s | 0 <= s <= t :: !SealsAt(turns, limits, s))
    && LastActivity(turns, t + 1).None?
    && turns[t].now - limits.started >= limits.initialTimeout
  }

  ghost predicate NeverExpires(turns: seq<Turn>, limits: Limits, n: nat)
    requires n <= |turns|
  {
    forall t | 0 <= t < n :: !ExpiresAt(turns, limits, t)
  }

  ghost predicate SealedBefore(turns: seq<Turn>, limits: Limits, n: nat, sealedAt: Option<nat>)
    requires n <= |turns|
  {
    match sealedAt
    case None => forall t | 0 <= t < n :: !SealsAt(turns, limits, t)
    case Some(s) => s < n && SealsAt(turns, limits, s) && forall t | 0 <= t < s :: !SealsAt(turns, limits, t)
  }

  // ---- The journal --------------------------------------------------------------------------------------------

  predicate Numbered(journal: seq<Event>) {
    forall i | 0 <= i < |journal| :: journal[i].sequence == i + 1
  }

  predicate AllReady(journal: seq<Event>) { forall e | e in journal :: e.Ready? }

  /** Every event carries the id of the request. */
  predicate Signed(journal: seq<Event>, session: string) { forall e | e in journal :: e.requestId == session }

  /** The identity with which a path was last announced. */
  function LastReady(journal: seq<Event>, path: string): Option<Identity> {
    if journal == [] then None
    else
      var e := journal[|journal| - 1];
      if e.Ready? && e.path == path then Some(e.identity) else LastReady(journal[..|journal| - 1], path)
  }

  /** No event announces its path with the identity that it was last announced with. */
  predicate NeverRepeats(journal: seq<Event>) {
    forall i | 0 <= i < |journal| && journal[i].Ready? ::
      LastReady(journal[..i], journal[i].path) != Some(journal[i].identity)
  }

  /** Every announced file was the same in two consecutive scans among the first `n`. */
  ghost predicate OnlyStable(turns: seq<Turn>, n: nat, journal: seq<Event>) {
    forall e | e in journal && e.Ready? :: exists t :: 1 <= t < n && StableAt(turns, t, e.path, e.identity)
  }

  predicate Announces(e: Event, path: string, identity: Identity) {
    e.Ready? && e.path == path && e.identity == identity
  }

  /** Every file that was the same in two consecutive scans among the first `n` was announced. */
  ghost predicate EveryStable(turns: seq<Turn>, n: nat, journal: seq<Event>) {
    forall t, path, identity | 1 <= t < n && StableAt(turns, t, path, identity) ::
      exists e :: e in journal && Announces(e, path, identity)
  }

  /** The dictionary of emitted identities is what the journal says. */
  ghost predicate Emitted(emitted: map<string, Identity>, journal: seq<Event>) {
    forall path :: LastReady(journal, path) == if path in emitted then Some(emitted[path]) else None
  }

  ghost predicate Faithful(turns: seq<Turn>, n: nat, journal: seq<Event>) {
    && Numbered(journal) && AllReady(journal) && NeverRepeats(journal)
    && OnlyStable(turns, n, journal) && EveryStable(turns, n, journal)
  }

  lemma {:induction false} LastReadyAnnounces(journal: seq<Event>, path: string)
    requires LastReady(journal, path).Some?
    ensures exists e :: e in journal && Announces(e, path, LastReady(journal, path).value)
  {
    var last := |journal| - 1;
    var e := journal[last];
    assert e in journal;
    if !(e.Ready? && e.path == path) {
      LastReadyAnnounces(journal[..last], path);
      var e' :| e' in journal[..last] && Announces(e', path, LastReady(journal, path).value);
      assert e' in journal;
    }
  }

  /** Adding the announcement of a file that is stable now and was not announced like that. */
  lemma AnnounceKeeps(turns: seq<Turn>, t: nat, journal: seq<Event>, emitted: map<string, Identity>, e: Event)
    requires e.Ready? && e.sequence == |journal| + 1 && t >= 1 && StableAt(turns, t, e.path, e.identity)
    requires Numbered(journal) && AllReady(journal) && NeverRepeats(journal) && OnlyStable(turns, t + 1, journal)
    requires Emitted(emitted, journal) && !Matches(emitted, e.path, e.identity)
    ensures Numbered(journal + [e]) && AllReady(journal + [e]) && NeverRepeats(journal + [e])
    ensures OnlyStable(turns, t + 1, journal + [e]) && Emitted(emitted[e.path := e.identity], journal + [e])
  {
    var longer := journal + [e];
    assert longer[..|longer| - 1] == journal;
    forall i | 0 <= i < |longer| && longer[i].Ready?
      ensures LastReady(longer[..i], longer[i].path) != Some(longer[i].identity)
    {
      if i < |journal| {
        assert longer[..i] == journal[..i];
      }
    }
  }

  lemma OnlyStableGrows(turns: seq<Turn>, n: nat, m: nat, journal: seq<Event>)
    requires OnlyStable(turns, n, journal) && n <= m
    ensures OnlyStable(turns, m, journal)
  {}

  /** All files that are stable in turn `t` have been announced, hence so has every file up to turn `t`. */
  lemma EveryStableGrows(turns: seq<Turn>, t: nat, before: seq<Event>, journal: seq<Event>,
                         emitted: map<string, Identity>)
    requires EveryStable(turns, t, before) && before <= journal && Emitted(emitted, journal)
    requires forall p, id | StableAt(turns, t, p, id) :: Matches(emitted, p, id)
    ensures EveryStable(turns, t + 1, journal)
  {
    forall u, path, identity | 1 <= u < t + 1 && StableAt(turns, u, path, identity)
      ensures exists e :: e in journal && Announces(e, path, identity)
    {
      if u < t {
        var e :| e in before && Announces(e, path, identity);
        assert e in journal;
      } else {
        LastReadyAnnounces(journal, path);
      }
    }
  }

  // ---- The journal as a function of the scans -----------------------------------------------------------------

  /** The identity with which a path was last seen unchanged in two consecutive scans among the first `n`. */
  function LastStable(turns: seq<Turn>, n: nat, path: string): Option<Identity> {
    if n == 0 then None
    else
      var files := FilesAt(turns, n - 1);
      if path in files && StableAt(turns, n - 1, path, files[path]) then Some(files[path])
      else LastStable(turns, n - 1, path)
  }

  function Lookup(files: map<string, Identity>, path: string): Option<Identity> {
    if path in files then Some(files[path]) else None
  }

  ghost predicate Reflects(emitted: map<string, Identity>, turns: seq<Turn>, n: nat) {
    forall path :: LastStable(turns, n, path) == Lookup(emitted, path)
  }

  /** In turn `t` every file has been announced as it is. */
  ghost predicate Quiet(turns: seq<Turn>, t: nat) {
    forall path | path in FilesAt(turns, t) :: LastStable(turns, t + 1, path) == Some(FilesAt(turns, t)[path])
  }

  lemma ReflectsGrows(turns: seq<Turn>, t: nat, before: map<string, Identity>, emitted: map<string, Identity>)
    requires Reflects(before, turns, t)
    requires forall p, id | StableAt(turns, t, p, id) :: Matches(emitted, p, id)
    requires forall p :: Lookup(emitted, p) == Lookup(before, p) || (p in emitted && StableAt(turns, t, p, emitted[p]))
    ensures Reflects(emitted, turns, t + 1)
  {
    forall path ensures LastStable(turns, t + 1, path) == Lookup(emitted, path) {
      assert LastStable(turns, t, path) == Lookup(before, path);
    }
  }
}
