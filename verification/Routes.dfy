/** The routes that a backend advertises: canonical paths and the validation of a discovery document. */
module Routes {
  import opened Options
  import opened Strings
  import opened Order

  const DISCOVERY_PATH := "/.well-known/http-api-routes/v1"
  const MAX_ROUTES_PER_BACKEND: nat := 10000
  const MAX_ROUTE_TIMEOUT_SECONDS: real := 3600.0

  datatype Invalid =
    | NotAString | NotAbsolute | ForbiddenCharacter | NotCanonical | ClaimsDiscovery
    | BadSchema | BadRevision | NoRoutes | TooManyRoutes | NotAnObject | BadTimeout | TimeoutOutOfRange | DuplicateRoute

  predicate IsForbidden(c: char) { c == '?' || c == '#' || c == '\\' || c == '\0' || c == '\r' || c == '\n' }

  predicate HasDoubleSlash(path: string) {
    exists i | 0 <= i < |path| - 1 :: path[i] == '/' && path[i + 1] == '/'
  }

  predicate HasDotSegment(path: string) { "." in SplitAt("", path, '/') || ".." in SplitAt("", path, '/') }

  function TrimSlashes(path: string): string
    decreases |path|
  {
    if path != "" && path[|path| - 1] == '/' then TrimSlashes(path[..|path| - 1]) else path
  }

  function NormalizePath(given: Option<string>): Result<string, Invalid> {
    if given.None? then Err(NotAString)
    else
      var path := given.value;
      if path == "/" || !StartsWith(path, "/") || StartsWith(path, "//") then Err(NotAbsolute)
      else if exists c | c in path :: IsForbidden(c) then Err(ForbiddenCharacter)
      else if HasDoubleSlash(path) || HasDotSegment(path) then Err(NotCanonical)
      else if TrimSlashes(path) == DISCOVERY_PATH then Err(ClaimsDiscovery)
      else Ok(TrimSlashes(path))
  }

  /** The one form of a path that routes are kept under. */
  predicate IsCanonical(path: string) {
    && |path| > 1 && path[0] == '/' && path[|path| - 1] != '/' && path != "/.well-known/http-api-routes/v1"
    && (forall c | c in path :: !IsForbidden(c)) && !HasDoubleSlash(path) && !HasDotSegment(path)
  }

  /** A path is accepted exactly when it is a canonical path or one with a slash after it, and that is what it gives. */
  lemma NormalizesIff(path: string, canonical: string)
    ensures NormalizePath(Some(path)) == Ok(canonical)
       <==> IsCanonical(canonical) && (path == canonical || path == canonical + "/")
  {
    hide SplitAt, HasDotSegment, HasDoubleSlash, IsForbidden;
    if NormalizePath(Some(path)) == Ok(canonical) {
      Accepted(path, canonical);
    }
    if IsCanonical(canonical) && (path == canonical || path == canonical + "/") {
      Accepts(path, canonical);
    }
  }

  /** Why a path is turned down, the first reason that applies. */
  lemma PathErrors(path: string)
    ensures NormalizePath(None) == Err(NotAString)
    ensures NormalizePath(Some(path))
         == if path == "" || path[0] != '/' || path == "/" || (|path| > 1 && path[1] == '/') then Err(NotAbsolute)
            else if exists c :: c in path && IsForbidden(c) then Err(ForbiddenCharacter)
            else if HasDoubleSlash(path) || HasDotSegment(path) then Err(NotCanonical)
            else if TrimSlashes(path) == DISCOVERY_PATH then Err(ClaimsDiscovery)
            else Ok(TrimSlashes(path))
  {
    hide HasDoubleSlash, HasDotSegment, TrimSlashes, IsForbidden;
    IsAbsolute(path);
  }

  lemma IsAbsolute(path: string)
    ensures path == "/" || !StartsWith(path, "/") || StartsWith(path, "//")
       <==> path == "" || path[0] != '/' || path == "/" || (|path| > 1 && path[1] == '/')
  {
    StartsWithAt(path, "/", 0);
    StartsWithAt(path, "//", 0);
    StartsWithAt(path, "//", 1);
    assert path != "" && path[0] == '/' ==> path[..1] == "/";
    assert |path| > 1 && path[0] == '/' && path[1] == '/' ==> path[..2] == "//";
  }

  lemma Accepted(path: string, canonical: string)
    requires NormalizePath(Some(path)) == Ok(canonical)
    ensures IsCanonical(canonical) && (path == canonical || path == canonical + "/")
  {
    hide SplitAt, IsForbidden;
    StartsWithAt(path, "/", 0);
    assert path[..1] == "/" && path != "/";
    if path[|path| - 1] == '/' {
      var front := path[..|path| - 1];
      assert path == front + "/" && front + ['/'] == front + "/";
      EndsOnce(path);
      assert front[0] == path[0] == '/' && front[|front| - 1] == path[|path| - 2];
      assert TrimSlashes(path) == TrimSlashes(front) == front;
      SplitAtEnd("", front, '/');
      NoDoubleSlashFront(path);
      assert forall c | c in front :: c in path;
    }
  }

  lemma EndsOnce(path: string)
    requires !HasDoubleSlash(path) && |path| > 0 && path[0] == '/' && path != "/"
    ensures |path| > 1 && (path[|path| - 1] == '/' ==> path[|path| - 2] != '/')
  {
    assert |path| > 1 by {
      assert |path| == 1 ==> path == "/";
    }
    assert !(path[|path| - 2] == '/' && path[|path| - 2 + 1] == '/');
  }

  lemma NoDoubleSlashFront(path: string)
    requires path != ""
    ensures HasDoubleSlash(path[..|path| - 1]) ==> HasDoubleSlash(path)
  {
    var front := path[..|path| - 1];
    if HasDoubleSlash(front) {
      var i :| 0 <= i < |front| - 1 && front[i] == '/' && front[i + 1] == '/';
      assert path[i] == '/' && path[i + 1] == '/';
    }
  }

  lemma Accepts(path: string, canonical: string)
    requires IsCanonical(canonical) && (path == canonical || path == canonical + "/")
    ensures NormalizePath(Some(path)) == Ok(canonical)
  {
    hide SplitAt;
    assert TrimSlashes(canonical) == canonical;
    assert canonical[..1] == "/";
    assert !StartsWith(canonical, "//") by {
      StartsWithAt(canonical, "//", 0);
      StartsWithAt(canonical, "//", 1);
      assert !(canonical[0] == '/' && canonical[1] == '/');
    }
    if path == canonical + "/" {
      assert path[..|path| - 1] == canonical && path[|path| - 1] == '/';
      assert canonical + ['/'] == path;
      SplitAtEnd("", canonical, '/');
      assert path[..1] == "/";
      assert !StartsWith(path, "//") by {
        StartsWithAt(path, "//", 0);
        StartsWithAt(path, "//", 1);
        assert path[1] == canonical[1];
      }
      forall i | 0 <= i < |path| - 1 ensures !(path[i] == '/' && path[i + 1] == '/') {
        assert i < |canonical| - 1 ==> path[i] == canonical[i] && path[i + 1] == canonical[i + 1];
      }
      assert !IsForbidden('/');
      assert forall c | c in path :: c in canonical || c == '/';
    }
  }

  // ---- Discovery documents ------------------------------------------------------------------------------------

  /** The timeout of a route as it is found: left out, not a number, or a number. */
  datatype Timeout = Default | NotANumber | Seconds(value: real)

  datatype RawRoute = NoObject | RawRoute(path: Option<string>, timeout: Timeout)

  datatype Document = Document(hasSchema: bool, hasRevision: bool, routes: Option<seq<RawRoute>>)

  datatype Route = Route(path: string, timeout: real)

  function RouteOf(raw: RawRoute, defaultTimeout: real): Result<Route, Invalid> {
    if raw.NoObject? then Err(NotAnObject)
    else
      var path := NormalizePath(raw.path);
      if path.Err? then Err(path.error)
      else if raw.timeout.NotANumber? then Err(BadTimeout)
      else
        var timeout := if raw.timeout.Default? then defaultTimeout else raw.timeout.value;
        if 0.0 < timeout <= MAX_ROUTE_TIMEOUT_SECONDS then Ok(Route(path.value, timeout)) else Err(TimeoutOutOfRange)
  }

  /** The route that a raw route stands for: its canonical path, with or without a slash behind it, and its timeout,
      which is the default when it is left out. */
  predicate Describes(raw: RawRoute, defaultTimeout: real, r: Route) {
    && raw.RawRoute? && raw.path.Some?
    && IsCanonical(r.path) && (raw.path.value == r.path || raw.path.value == r.path + "/")
    && (raw.timeout == Seconds(r.timeout) || (raw.timeout == Default && r.timeout == defaultTimeout))
    && 0.0 < r.timeout <= 3600.0
  }

  lemma RouteOfIff(raw: RawRoute, defaultTimeout: real, r: Route)
    ensures RouteOf(raw, defaultTimeout) == Ok(r) <==> Describes(raw, defaultTimeout, r)
  {
    hide IsCanonical, NormalizePath;
    if raw.RawRoute? && raw.path.Some? {
      NormalizesIff(raw.path.value, r.path);
      if NormalizePath(raw.path).Ok? {
        NormalizesIff(raw.path.value, NormalizePath(raw.path).value);
      }
    } else {
      NoPath();
    }
  }

  /** Why a raw route is turned down, the first reason that applies. */
  lemma RouteErrors(raw: RawRoute, defaultTimeout: real)
    ensures raw == NoObject ==> RouteOf(raw, defaultTimeout) == Err(NotAnObject)
    ensures raw != NoObject && NormalizePath(raw.path).Err? ==>
              RouteOf(raw, defaultTimeout) == Err(NormalizePath(raw.path).error)
    ensures raw != NoObject && NormalizePath(raw.path).Ok? && RouteOf(raw, defaultTimeout).Err? ==>
              RouteOf(raw, defaultTimeout).error
              == if raw.timeout == NotANumber then BadTimeout else TimeoutOutOfRange
  {
    hide NormalizePath;
  }

  /** The routes by path, or the first thing that is wrong. */
  function Collect(raws: seq<RawRoute>, defaultTimeout: real): Result<map<string, real>, Invalid> {
    if raws == [] then Ok(map[])
    else
      var before := Collect(raws[..|raws| - 1], defaultTimeout);
      if before.Err? then before
      else
        var route := RouteOf(raws[|raws| - 1], defaultTimeout);
        if route.Err? then Err(route.error)
        else if route.value.path in before.value then Err(DuplicateRoute)
        else Ok(before.value[route.value.path := route.value.timeout])
  }

  /** A mapping as the list of its entries, sorted by path. */
  function Listing(routes: map<string, real>): (list: seq<Route>)
    ensures |list| == |routes.Keys|
  {
    var paths := Sorted(routes.Keys);
    assert forall i | 0 <= i < |paths| :: paths[i] in routes.Keys;
    seq(|paths|, i requires 0 <= i < |paths| => Route(paths[i], routes[paths[i]]))
  }

  function Validated(document: Document, defaultTimeout: real): Result<seq<Route>, Invalid> {
    if !document.hasSchema then Err(BadSchema)
    else if !document.hasRevision then Err(BadRevision)
    else if document.routes.None? then Err(NoRoutes)
    else if |document.routes.value| > MAX_ROUTES_PER_BACKEND then Err(TooManyRoutes)
    else
      var collected := Collect(document.routes.value, defaultTimeout);
      if collected.Err? then Err(collected.error) else Ok(Listing(collected.value))
  }

  method ValidateDiscoveryDocument(document: Document, defaultTimeout: real)
    returns (result: Result<seq<Route>, Invalid>)
    ensures result == Validated(document, defaultTimeout)
  {
    if !document.hasSchema {
      return Err(BadSchema);
    }
    if !document.hasRevision {
      return Err(BadRevision);
    }
    if document.routes.None? {
      return Err(NoRoutes);
    }
    var raws := document.routes.value;
    if |raws| > MAX_ROUTES_PER_BACKEND {
      return Err(TooManyRoutes);
    }
    hide Collect, RouteOf;
    var normalized: map<string, real> := map[];
    CollectNone(raws, defaultTimeout);
    for i := 0 to |raws|
      invariant Collect(raws[..i], defaultTimeout) == Ok(normalized)
    {
      CollectStep(raws, i, defaultTimeout);
      var route := RouteOf(raws[i], defaultTimeout);
      if route.Err? {
        return Err(route.error);
      }
      if route.value.path in normalized {
        return Err(DuplicateRoute);
      }
      normalized := normalized[route.value.path := route.value.timeout];
    }
    assert raws[..|raws|] == raws;
    result := Ok(Listing(normalized));
  }

  lemma CollectNone(raws: seq<RawRoute>, defaultTimeout: real)
    ensures Collect(raws[..0], defaultTimeout) == Ok(map[])
  {}

  lemma {:induction false} CollectStep(raws: seq<RawRoute>, i: nat, defaultTimeout: real)
    requires i < |raws| && Collect(raws[..i], defaultTimeout).Ok?
    ensures var before, route := Collect(raws[..i], defaultTimeout).value, RouteOf(raws[i], defaultTimeout);
            if route.Err? then Collect(raws, defaultTimeout) == Err(route.error)
            else if route.value.path in before then Collect(raws, defaultTimeout) == Err(DuplicateRoute)
            else Collect(raws[..i + 1], defaultTimeout) == Ok(before[route.value.path := route.value.timeout])
  {
    assert raws[..i + 1][..i] == raws[..i];
    FirstErrorStays(raws, i + 1, defaultTimeout);
  }

  lemma {:induction false} FirstErrorStays(raws: seq<RawRoute>, n: nat, defaultTimeout: real)
    requires n <= |raws|
    ensures Collect(raws[..n], defaultTimeout).Err? ==>
              Collect(raws, defaultTimeout) == Collect(raws[..n], defaultTimeout)
    decreases |raws|
  {
    if n < |raws| {
      var front := raws[..|raws| - 1];
      assert front[..n] == raws[..n];
      FirstErrorStays(front, n, defaultTimeout);
    } else {
      assert raws[..n] == raws;
    }
  }

  /** A list of validated routes: canonical paths in increasing order, and timeouts in range. */
  ghost predicate AreRoutes(routes: seq<Route>) {
    && (forall r | r in routes :: IsCanonical(r.path) && 0.0 < r.timeout <= MAX_ROUTE_TIMEOUT_SECONDS)
    && forall i, j | 0 <= i < j < |routes| :: Less(routes[i].path, routes[j].path)
  }

  /** A document is accepted exactly when its parts are there, each of its routes is valid, and no two have the same
      canonical path; then its routes are those, sorted. */
  lemma ValidatedIff(document: Document, defaultTimeout: real)
    ensures var result := Validated(document, defaultTimeout);
            && (result.Ok? <==>
                  && document.hasSchema && document.hasRevision && document.routes.Some?
                  && |document.routes.value| <= 10_000
                  && AreDistinct(document.routes.value, defaultTimeout))
            && (result.Ok? ==>
                  && AreRoutes(result.value)
                  && forall r :: r in result.value <==>
                       exists raw :: raw in document.routes.value && Describes(raw, defaultTimeout, r))
  {
    hide RouteOf, AreRoutes, Listing, Collect, AreDistinct, Describes;
    forall raw, r ensures RouteOf(raw, defaultTimeout) == Ok(r) <==> Describes(raw, defaultTimeout, r) {
      RouteOfIff(raw, defaultTimeout, r);
    }
    if document.routes.Some? {
      CollectIff(document.routes.value, defaultTimeout);
      var collected := Collect(document.routes.value, defaultTimeout);
      if collected.Ok? {
        ListingFacts(document.routes.value, defaultTimeout);
      }
    }
  }

  ghost predicate AreDistinct(raws: seq<RawRoute>, defaultTimeout: real) {
    && (forall raw | raw in raws :: RouteOf(raw, defaultTimeout).Ok?)
    && forall i, j | 0 <= i < j < |raws| ::
         RouteOf(raws[i], defaultTimeout).value.path != RouteOf(raws[j], defaultTimeout).value.path
  }

  /** The entries of the mapping are the routes of the document. */
  ghost predicate Collects(routes: map<string, real>, raws: seq<RawRoute>, defaultTimeout: real) {
    && (forall raw | raw in raws :: RouteOf(raw, defaultTimeout).Ok?)
    && (forall raw | raw in raws ::
          var route := RouteOf(raw, defaultTimeout).value;
          route.path in routes && routes[route.path] == route.timeout)
    && forall path | path in routes ::
         exists raw :: raw in raws && RouteOf(raw, defaultTimeout) == Ok(Route(path, routes[path]))
  }

  lemma CollectsMore(routes: map<string, real>, front: seq<RawRoute>, raw: RawRoute, defaultTimeout: real)
    requires Collects(routes, front, defaultTimeout) && RouteOf(raw, defaultTimeout).Ok?
    requires RouteOf(raw, defaultTimeout).value.path !in routes
    ensures var route := RouteOf(raw, defaultTimeout).value;
            Collects(routes[route.path := route.timeout], front + [raw], defaultTimeout)
  {
    hide RouteOf;
    var route := RouteOf(raw, defaultTimeout).value;
    var more, routes' := front + [raw], routes[route.path := route.timeout];
    assert forall x :: x in more <==> x in front || x == raw;
    forall path | path in routes'
      ensures exists x :: x in more && RouteOf(x, defaultTimeout) == Ok(Route(path, routes'[path]))
    {
      if path == route.path {
        assert raw in more && RouteOf(raw, defaultTimeout) == Ok(Route(path, routes'[path]));
      } else {
        var x :| x in front && RouteOf(x, defaultTimeout) == Ok(Route(path, routes[path]));
        assert x in more;
      }
    }
  }

  lemma CollectsNothing(defaultTimeout: real)
    ensures Collects(map[], [], defaultTimeout) && AreDistinct([], defaultTimeout)
  {}

  lemma {:induction false} CollectIff(raws: seq<RawRoute>, defaultTimeout: real)
    ensures Collect(raws, defaultTimeout).Ok? <==> AreDistinct(raws, defaultTimeout)
    ensures Collect(raws, defaultTimeout).Ok? ==> Collects(Collect(raws, defaultTimeout).value, raws, defaultTimeout)
  {
    hide RouteOf, Collects, AreDistinct;
    if raws == [] {
      CollectsNothing(defaultTimeout);
    } else {
      var front, raw := raws[..|raws| - 1], raws[|raws| - 1];
      assert raws == front + [raw];
      CollectIff(front, defaultTimeout);
      var before := Collect(front, defaultTimeout);
      DistinctMore(front, raw, defaultTimeout);
      if before.Ok? {
        PathTaken(before.value, front, raw, defaultTimeout);
        if RouteOf(raw, defaultTimeout).Ok? && RouteOf(raw, defaultTimeout).value.path !in before.value {
          CollectsMore(before.value, front, raw, defaultTimeout);
        }
      }
    }
  }

  /** The error of a document whose parts are there is that of its first route that is not valid or repeats a path. */
  lemma {:induction false} FirstErrorIs(raws: seq<RawRoute>, defaultTimeout: real) returns (i: nat)
    requires Collect(raws, defaultTimeout).Err?
    ensures i < |raws| && AreDistinct(raws[..i], defaultTimeout)
    ensures if RouteOf(raws[i], defaultTimeout).Err?
            then Collect(raws, defaultTimeout) == Err(RouteOf(raws[i], defaultTimeout).error)
            else Collect(raws, defaultTimeout) == Err(DuplicateRoute)
                 && !IsNew(raws[..i], RouteOf(raws[i], defaultTimeout).value.path, defaultTimeout)
  {
    hide RouteOf, AreDistinct, IsNew;
    var last := |raws| - 1;
    var front := raws[..last];
    if Collect(front, defaultTimeout).Err? {
      i := FirstErrorIs(front, defaultTimeout);
      assert front[..i] == raws[..i];
    } else {
      i := last;
      CollectIff(front, defaultTimeout);
      PathTaken(Collect(front, defaultTimeout).value, front, raws[last], defaultTimeout);
    }
  }

  /** No route of the front has the path. */
  ghost predicate IsNew(front: seq<RawRoute>, path: string, defaultTimeout: real) {
    forall raw | raw in front && RouteOf(raw, defaultTimeout).Ok? :: RouteOf(raw, defaultTimeout).value.path != path
  }

  lemma DistinctMore(front: seq<RawRoute>, raw: RawRoute, defaultTimeout: real)
    ensures AreDistinct(front + [raw], defaultTimeout)
       <==> AreDistinct(front, defaultTimeout) && RouteOf(raw, defaultTimeout).Ok?
            && IsNew(front, RouteOf(raw, defaultTimeout).value.path, defaultTimeout)
  {
    hide RouteOf;
    var more := front + [raw];
    assert forall x :: x in more <==> x in front || x == raw;
    assert forall i | 0 <= i < |front| :: more[i] == front[i];
    assert more[|front|] == raw;
    if AreDistinct(more, defaultTimeout) {
      forall x | x in front ensures RouteOf(x, defaultTimeout).value.path != RouteOf(raw, defaultTimeout).value.path {
        var i :| 0 <= i < |front| && front[i] == x;
        assert RouteOf(more[i], defaultTimeout).value.path != RouteOf(more[|front|], defaultTimeout).value.path;
      }
      forall i, j | 0 <= i < j < |front|
        ensures RouteOf(front[i], defaultTimeout).value.path != RouteOf(front[j], defaultTimeout).value.path
      {
        assert RouteOf(more[i], defaultTimeout).value.path != RouteOf(more[j], defaultTimeout).value.path;
      }
    }
  }

  lemma PathTaken(routes: map<string, real>, front: seq<RawRoute>, raw: RawRoute, defaultTimeout: real)
    requires Collects(routes, front, defaultTimeout)
    ensures RouteOf(raw, defaultTimeout).Ok? ==>
              (RouteOf(raw, defaultTimeout).value.path !in routes
               <==> IsNew(front, RouteOf(raw, defaultTimeout).value.path, defaultTimeout))
  {
    hide RouteOf;
    if RouteOf(raw, defaultTimeout).Ok? {
      var path := RouteOf(raw, defaultTimeout).value.path;
      if path in routes {
        var x :| x in front && RouteOf(x, defaultTimeout) == Ok(Route(path, routes[path]));
        assert RouteOf(x, defaultTimeout).value.path == path;
      }
    }
  }

  lemma ListingHas(routes: map<string, real>, r: Route)
    ensures r in Listing(routes) <==> r.path in routes && routes[r.path] == r.timeout
  {
    var paths := Sorted(routes.Keys);
    var list := Listing(routes);
    if r.path in routes && routes[r.path] == r.timeout {
      SortedHas(routes.Keys, r.path);
      var i :| 0 <= i < |paths| && paths[i] == r.path;
      assert list[i] == r;
    }
  }

  lemma ListingIncreases(routes: map<string, real>)
    ensures forall i, j | 0 <= i < j < |Listing(routes)| :: Less(Listing(routes)[i].path, Listing(routes)[j].path)
  {
    forall i, j | 0 <= i < j < |Listing(routes)| ensures Less(Listing(routes)[i].path, Listing(routes)[j].path) {
      SortedIncreases(routes.Keys, i, j);
    }
  }

  lemma RouteIsValid(raw: RawRoute, defaultTimeout: real)
    requires RouteOf(raw, defaultTimeout).Ok?
    ensures var r := RouteOf(raw, defaultTimeout).value;
            IsCanonical(r.path) && 0.0 < r.timeout <= MAX_ROUTE_TIMEOUT_SECONDS
  {
    hide IsCanonical, NormalizePath;
    if raw.path.Some? {
      NormalizesIff(raw.path.value, RouteOf(raw, defaultTimeout).value.path);
    } else {
      NoPath();
    }
  }

  lemma NoPath()
    ensures NormalizePath(None).Err?
  {}

  lemma ListingFacts(raws: seq<RawRoute>, defaultTimeout: real)
    requires Collect(raws, defaultTimeout).Ok?
    ensures var list := Listing(Collect(raws, defaultTimeout).value);
            && AreRoutes(list)
            && forall r :: r in list <==> exists raw :: raw in raws && RouteOf(raw, defaultTimeout) == Ok(r)
  {
    hide RouteOf, Listing, Collect, IsCanonical;
    CollectIff(raws, defaultTimeout);
    var routes := Collect(raws, defaultTimeout).value;
    var list := Listing(routes);
    ListingIncreases(routes);
    forall r ensures r in list <==> exists raw :: raw in raws && RouteOf(raw, defaultTimeout) == Ok(r) {
      ListingHas(routes, r);
    }
    forall r | r in list ensures IsCanonical(r.path) && 0.0 < r.timeout <= MAX_ROUTE_TIMEOUT_SECONDS {
      var raw :| raw in raws && RouteOf(raw, defaultTimeout) == Ok(r);
      RouteIsValid(raw, defaultTimeout);
    }
  }
}
