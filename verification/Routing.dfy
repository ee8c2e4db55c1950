/**
 The routing plugin, internal/platform/gateway/plugins/routing.go: routes are sorted by falling prefix
 length, the first that matches is taken, and its prefix may be stripped.
 */
module Routing {
  import opened Options
  import opened StableSort

  datatype Route = Route(pathPrefix: string, serviceName: string, stripPrefix: bool)

  const BY_LENGTH: Route -> int := (r: Route) => -|r.pathPrefix|

  predicate Matches(r: Route, path: string) {
    r.pathPrefix <= path
  }

  /** A matching route of maximal prefix length, and the first configured one of that length. */
  ghost predicate IsBest(configured: seq<Route>, path: string, r: Route) {
    && Matches(r, path)
    && (forall other | other in configured && Matches(other, path) :: |other.pathPrefix| <= |r.pathPrefix|)
    && exists m: nat :: FirstOfLength(configured, path, r, m)
  }

  ghost predicate FirstOfLength(configured: seq<Route>, path: string, r: Route, m: nat) {
    && m < |configured| && configured[m] == r
    && forall j | 0 <= j < m && Matches(configured[j], path) :: |configured[j].pathPrefix| != |r.pathPrefix|
  }

  /** The path for the upstream: without the prefix, and with a slash in front. */
  function TargetPath(path: string, r: Route): string
    requires Matches(r, path)
  {
    if !r.stripPrefix then path else
    var rest := path[|r.pathPrefix|..];
    if "/" <= rest then rest else "/" + rest
  }

  /** What Execute does to the request: 404, 503, or on to the next plugin. */
  datatype Verdict = RouteNotFound | ServiceUnavailable(service: string) | PassedOn

  class RequestContext {
    const path: string
    var data: map<string, string>

    constructor (path: string)
      ensures this.path == path && data == map[]
    {
      this.path := path;
      data := map[];
    }

    method Set(key: string, value: string)
      modifies this
      ensures data == old(data)[key := value]
    {
      data := data[key := value];
    }
  }

  class RoutingPlugin {
    const routes: array<Route>
    /** The routes as they were configured. */
    ghost const configured: seq<Route>

    ghost predicate Valid()
      reads routes
    {
      IsStableSort(configured, routes[..], BY_LENGTH)
    }

    /** Sorts the caller's slice and keeps it. */
    constructor (routes: array<Route>)
      modifies routes
      ensures Valid() && this.routes == routes && configured == old(routes[..])
    {
      this.routes := routes;
      this.configured := routes[..];
      new;
      SliceStable(routes, BY_LENGTH);
    }

    method MatchRoute(path: string) returns (r: Option<Route>)
      requires Valid()
      ensures r.None? <==> forall route | route in configured :: !Matches(route, path)
      ensures r.Some? ==> IsBest(configured, path, r.value)
      ensures r.Some? ==> exists m: nat ::
                && m < |configured| && configured[m] == r.value && configured[m].pathPrefix <= path
                && (forall j | 0 <= j < |configured| && configured[j].pathPrefix <= path ::
                      |configured[j].pathPrefix| <= |configured[m].pathPrefix|)
                && (forall j | 0 <= j < m && configured[j].pathPrefix <= path ::
                      |configured[j].pathPrefix| < |configured[m].pathPrefix|)
    {
      SameRoutes(configured, routes[..]);
      for i := 0 to routes.Length
        invariant forall j | 0 <= j < i :: !Matches(routes[j], path)
      {
        if routes[i].pathPrefix <= path {
          FirstIsBest(configured, routes[..], path, i);
          BestIsEarliestLongest(configured, path, routes[i]);
          return Some(routes[i]);
        }
      }
      return None;
    }

    /** `host` says which instance service discovery picks for a service, if any. */
    method Execute(ctx: RequestContext, host: string -> string) returns (v: Verdict)
      requires Valid()
      modifies ctx
      ensures v.RouteNotFound? <==> forall route | route in configured :: !Matches(route, ctx.path)
      ensures v.RouteNotFound? ==> ctx.data == old(ctx.data)["originalPath" := ctx.path]
      ensures !v.RouteNotFound? ==> exists r ::
                && IsBest(configured, ctx.path, r)
                && (v == if host(r.serviceName) == "" then ServiceUnavailable(r.serviceName) else PassedOn)
                && ctx.data == Marked(old(ctx.data), ctx.path, r, host(r.serviceName))
    {
      ctx.Set("originalPath", ctx.path);
      var matched := MatchRoute(ctx.path);
      if matched.None? {
        return RouteNotFound;
      }
      var route := matched.value;
      var targetPath := ctx.path;
      if route.stripPrefix {
        targetPath := targetPath[|route.pathPrefix|..];
        if !("/" <= targetPath) {
          targetPath := "/" + targetPath;
        }
      }
      ctx.Set("serviceName", route.serviceName);
      ctx.Set("routePathPrefix", route.pathPrefix);
      var upstream := host(route.serviceName);
      if upstream == "" {
        return ServiceUnavailable(route.serviceName);
      }
      ctx.Set("upstreamServiceUrl", "http://" + upstream + targetPath);
      ctx.Set("upstreamInstance", upstream);
      return PassedOn;
    }
  }

  /** The context's data once a route is chosen. */
  function Marked(data: map<string, string>, path: string, r: Route, upstream: string): map<string, string>
    requires Matches(r, path)
  {
    var named := data["originalPath" := path]["serviceName" := r.serviceName]["routePathPrefix" := r.pathPrefix];
    if upstream == "" then named
    else named["upstreamServiceUrl" := "http://" + upstream + TargetPath(path, r)]["upstreamInstance" := upstream]
  }

  /** Key by key: what was there stays unless it is one of the five keys that are written. */
  lemma MarkedIs(data: map<string, string>, path: string, r: Route, upstream: string)
    requires Matches(r, path)
    ensures var after := Marked(data, path, r, upstream);
            && after.Keys == data.Keys + {"originalPath", "serviceName", "routePathPrefix"}
                             + (if upstream == "" then {} else {"upstreamServiceUrl", "upstreamInstance"})
            && after["originalPath"] == path && after["serviceName"] == r.serviceName
            && after["routePathPrefix"] == r.pathPrefix
            && (upstream != "" ==>
                  && after["upstreamServiceUrl"] == "http://" + upstream + TargetPath(path, r)
                  && after["upstreamInstance"] == upstream)
            && forall k | k in data && k !in {"originalPath", "serviceName", "routePathPrefix", "upstreamServiceUrl",
                                              "upstreamInstance"} :: after[k] == data[k]
  {
    hide TargetPath;
  }

  lemma SameRoutes(configured: seq<Route>, sorted: seq<Route>)
    requires SameOrder(configured, sorted, BY_LENGTH)
    ensures forall r :: r in configured <==> r in sorted
  {
    forall r ensures r in configured <==> r in sorted {
      var k := BY_LENGTH(r);
      WithKeyHas(configured, BY_LENGTH, k);
      WithKeyHas(sorted, BY_LENGTH, k);
      assert WithKey(configured, BY_LENGTH, k) == WithKey(sorted, BY_LENGTH, k);
    }
  }

  /** The first match in the sorted routes is the best one among the configured routes. */
  lemma FirstIsBest(configured: seq<Route>, sorted: seq<Route>, path: string, i: nat)
    requires IsStableSort(configured, sorted, BY_LENGTH)
    requires i < |sorted| && Matches(sorted[i], path) && forall j | 0 <= j < i :: !Matches(sorted[j], path)
    ensures IsBest(configured, path, sorted[i])
  {
    var k := BY_LENGTH(sorted[i]);
    SameRoutes(configured, sorted);
    assert WithKey(configured, BY_LENGTH, k) == WithKey(sorted, BY_LENGTH, k);
    FirstKept(sorted, path, k, i);
    var m := FirstFound(configured, path, k, sorted[i]);
  }

  lemma BestIsEarliestLongest(configured: seq<Route>, path: string, r: Route)
    requires IsBest(configured, path, r)
    ensures exists m: nat ::
              && m < |configured| && configured[m] == r && configured[m].pathPrefix <= path
              && (forall j | 0 <= j < |configured| && configured[j].pathPrefix <= path ::
                    |configured[j].pathPrefix| <= |configured[m].pathPrefix|)
              && (forall j | 0 <= j < m && configured[j].pathPrefix <= path ::
                    |configured[j].pathPrefix| < |configured[m].pathPrefix|)
  {
    var m: nat :| FirstOfLength(configured, path, r, m);
    forall j | 0 <= j < |configured| && configured[j].pathPrefix <= path
      ensures |configured[j].pathPrefix| <= |r.pathPrefix|
    {
      assert configured[j] in configured && Matches(configured[j], path);
    }
    forall j | 0 <= j < m && configured[j].pathPrefix <= path
      ensures |configured[j].pathPrefix| < |r.pathPrefix|
    {
      assert Matches(configured[j], path);
    }
  }

  /** The first route of a list that matches. */
  ghost function FirstMatch(s: seq<Route>, path: string): Option<Route> {
    if s == [] then None
    else if FirstMatch(s[..|s| - 1], path).Some? then FirstMatch(s[..|s| - 1], path)
    else if Matches(s[|s| - 1], path) then Some(s[|s| - 1])
    else None
  }

  lemma FirstMatchStep(s: seq<Route>, path: string, k: int)
    requires s != []
    ensures var last, rest := s[|s| - 1], s[..|s| - 1];
            FirstMatch(WithKey(s, BY_LENGTH, k), path)
            == if FirstMatch(WithKey(rest, BY_LENGTH, k), path).Some? then FirstMatch(WithKey(rest, BY_LENGTH, k), path)
               else if BY_LENGTH(last) == k && Matches(last, path) then Some(last) else None
  {
    var before := WithKey(s[..|s| - 1], BY_LENGTH, k);
    if BY_LENGTH(s[|s| - 1]) == k {
      assert WithKey(s, BY_LENGTH, k)[..|before|] == before;
    } else {
      assert WithKey(s, BY_LENGTH, k) == before;
    }
  }

  lemma {:induction false} FirstKept(s: seq<Route>, path: string, k: int, i: nat)
    requires i < |s| && Matches(s[i], path) && BY_LENGTH(s[i]) == k && forall j | 0 <= j < i :: !Matches(s[j], path)
    ensures FirstMatch(WithKey(s, BY_LENGTH, k), path) == Some(s[i])
  {
    FirstMatchStep(s, path, k);
    if i == |s| - 1 {
      NoneKept(s[..i], path, k);
    } else {
      FirstKept(s[..|s| - 1], path, k, i);
    }
  }

  lemma {:induction false} NoneKept(s: seq<Route>, path: string, k: int)
    ensures FirstMatch(WithKey(s, BY_LENGTH, k), path) == None
            <==> forall j | 0 <= j < |s| && Matches(s[j], path) :: BY_LENGTH(s[j]) != k
  {
    if s == [] {
    } else {
      FirstMatchStep(s, path, k);
      NoneKept(s[..|s| - 1], path, k);
      assert forall j | 0 <= j < |s| - 1 :: s[j] == s[..|s| - 1][j];
    }
  }

  lemma {:induction false} FirstFound(s: seq<Route>, path: string, k: int, r: Route) returns (m: nat)
    requires FirstMatch(WithKey(s, BY_LENGTH, k), path) == Some(r)
    ensures BY_LENGTH(r) == k && Matches(r, path) && FirstOfLength(s, path, r, m)
    decreases |s|
  {
    FirstMatchStep(s, path, k);
    var rest := s[..|s| - 1];
    if FirstMatch(WithKey(rest, BY_LENGTH, k), path).Some? {
      m := FirstFound(rest, path, k, r);
    } else {
      m := |s| - 1;
      NoneKept(rest, path, k);
      assert forall j | 0 <= j < m :: s[j] == rest[j];
    }
  }

  /** The target path begins with a slash when it is stripped, and the prefix in front of it gives the
      path back: with the slash if the path has one there, and without it if it was added. */
  lemma StrippingIsUndone(path: string, r: Route)
    requires Matches(r, path) && r.stripPrefix
    ensures "/" <= TargetPath(path, r)
    ensures r.pathPrefix + TargetPath(path, r) == path || r.pathPrefix + TargetPath(path, r)[1..] == path
    ensures r.pathPrefix + TargetPath(path, r) == path <==> r.pathPrefix + "/" <= path
  {
    var rest := path[|r.pathPrefix|..];
    assert path == r.pathPrefix + rest;
    if "/" <= rest {
      assert (r.pathPrefix + "/") == path[..|r.pathPrefix| + 1];
    } else {
      assert TargetPath(path, r)[1..] == rest;
    }
  }

  /** A route that does not strip hands the path on as it is. */
  lemma KeptUnlessStripped(path: string, r: Route)
    requires Matches(r, path) && !r.stripPrefix
    ensures TargetPath(path, r) == path
  {
  }

  /** Two paths of a route have the same target if and only if they are equal but for a slash right
      after the prefix. */
  lemma TargetsAgreeIff(r: Route, rest: string, other: string)
    requires r.stripPrefix
    ensures Matches(r, r.pathPrefix + rest) && Matches(r, r.pathPrefix + other)
    ensures TargetPath(r.pathPrefix + rest, r) == TargetPath(r.pathPrefix + other, r)
            <==> rest == other || (rest == "/" + other && !("/" <= other)) || (other == "/" + rest && !("/" <= rest))
  {
    assert (r.pathPrefix + rest)[|r.pathPrefix|..] == rest;
    assert (r.pathPrefix + other)[|r.pathPrefix|..] == other;
    assert ("/" + rest)[1..] == rest && ("/" + other)[1..] == other;
    assert "/" <= "/" + rest && "/" <= "/" + other;
  }
}
