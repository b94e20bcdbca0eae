/** The API Gateway route table and the first-match router over it. */
module Router {
  import opened Wrappers
  import opened Strings

  datatype Verb = Get | Post | Patch | Delete | Put | Head | Options | OtherMethod

  datatype Operation =
    | GetRouteResponse | DeleteRouteResponse | CreateRouteResponse | GetRouteResponses | GetModelTemplate
    | GetRoute | UpdateRoute | DeleteRoute | CreateRoute | GetRoutes | GetIntegration | UpdateIntegration
    | DeleteIntegration | CreateIntegration | GetIntegrations | GetStage | UpdateStage | DeleteStage | CreateStage
    | GetStages | GetDeployment | DeleteDeployment | CreateDeployment | GetDeployments | GetAuthorizer
    | UpdateAuthorizer | DeleteAuthorizer | CreateAuthorizer | GetAuthorizers | GetModel | UpdateModel
    | DeleteModel | CreateModel | GetModels | GetApi | UpdateApi | DeleteApi | CreateApi | GetApis | GetDomainName
    | UpdateDomainName | DeleteDomainName | CreateDomainName | GetDomainNames | GetApiMapping | UpdateApiMapping
    | DeleteApiMapping | CreateApiMapping | GetApiMappings | GetVpcLink | UpdateVpcLink | DeleteVpcLink
    | CreateVpcLink | GetVpcLinks | TagResource | GetTags | UntagResource

  /** The path patterns of the table. */
  datatype Pattern =
    | ARouteResponse | RouteResponses | ModelTemplate | ARoute | Routes | AnIntegration | Integrations | AStage
    | Stages | ADeployment | Deployments | AnAuthorizer | Authorizers | AModel | Models | AnApi | Apis
    | ADomainName | DomainNames | AnApiMapping | ApiMappings | AVpcLink | VpcLinks | TagsOf

  /** The segments of a pattern, the empty one before the leading slash included. */
  function Segments(pattern: Pattern): seq<string> {
    match pattern
    case ARouteResponse => ["", "v2", "apis", "{apiId}", "routes", "{routeId}", "routeresponses", "{routeResponseId}"]
    case RouteResponses => ["", "v2", "apis", "{apiId}", "routes", "{routeId}", "routeresponses"]
    case ModelTemplate => ["", "v2", "apis", "{apiId}", "models", "{modelId}", "template"]
    case ARoute => ["", "v2", "apis", "{apiId}", "routes", "{routeId}"]
    case Routes => ["", "v2", "apis", "{apiId}", "routes"]
    case AnIntegration => ["", "v2", "apis", "{apiId}", "integrations", "{integrationId}"]
    case Integrations => ["", "v2", "apis", "{apiId}", "integrations"]
    case AStage => ["", "v2", "apis", "{apiId}", "stages", "{stageName}"]
    case Stages => ["", "v2", "apis", "{apiId}", "stages"]
    case ADeployment => ["", "v2", "apis", "{apiId}", "deployments", "{deploymentId}"]
    case Deployments => ["", "v2", "apis", "{apiId}", "deployments"]
    case AnAuthorizer => ["", "v2", "apis", "{apiId}", "authorizers", "{authorizerId}"]
    case Authorizers => ["", "v2", "apis", "{apiId}", "authorizers"]
    case AModel => ["", "v2", "apis", "{apiId}", "models", "{modelId}"]
    case Models => ["", "v2", "apis", "{apiId}", "models"]
    case AnApi => ["", "v2", "apis", "{apiId}"]
    case Apis => ["", "v2", "apis"]
    case ADomainName => ["", "v2", "domainnames", "{domainName}"]
    case DomainNames => ["", "v2", "domainnames"]
    case AnApiMapping => ["", "v2", "domainnames", "{domainName}", "apimappings", "{apiMappingId}"]
    case ApiMappings => ["", "v2", "domainnames", "{domainName}", "apimappings"]
    case AVpcLink => ["", "v2", "vpclinks", "{vpcLinkId}"]
    case VpcLinks => ["", "v2", "vpclinks"]
    case TagsOf => ["", "v2", "tags", "{resource-arn}"]
  }

  datatype Route = Route(verb: Verb, pattern: Pattern, operation: Operation, successStatus: nat)

  const RESPONSE_ROUTES: seq<Route> := [
    Route(Get, ARouteResponse, Operation.GetRouteResponse, 200),
    Route(Delete, ARouteResponse, Operation.DeleteRouteResponse, 204),
    Route(Post, RouteResponses, Operation.CreateRouteResponse, 201),
    Route(Get, RouteResponses, Operation.GetRouteResponses, 200),
    Route(Get, ModelTemplate, Operation.GetModelTemplate, 200)
  ]

  const ROUTE_ROUTES: seq<Route> := [
    Route(Get, ARoute, Operation.GetRoute, 200),
    Route(Patch, ARoute, Operation.UpdateRoute, 200),
    Route(Delete, ARoute, Operation.DeleteRoute, 204),
    Route(Post, Routes, Operation.CreateRoute, 201),
    Route(Get, Routes, Operation.GetRoutes, 200)
  ]

  const INTEGRATION_ROUTES: seq<Route> := [
    Route(Get, AnIntegration, Operation.GetIntegration, 200),
    Route(Patch, AnIntegration, Operation.UpdateIntegration, 200),
    Route(Delete, AnIntegration, Operation.DeleteIntegration, 204),
    Route(Post, Integrations, Operation.CreateIntegration, 201),
    Route(Get, Integrations, Operation.GetIntegrations, 200)
  ]

  const STAGE_ROUTES: seq<Route> := [
    Route(Get, AStage, Operation.GetStage, 200),
    Route(Patch, AStage, Operation.UpdateStage, 200),
    Route(Delete, AStage, Operation.DeleteStage, 204),
    Route(Post, Stages, Operation.CreateStage, 201),
    Route(Get, Stages, Operation.GetStages, 200)
  ]

  const DEPLOYMENT_ROUTES: seq<Route> := [
    Route(Get, ADeployment, Operation.GetDeployment, 200),
    Route(Delete, ADeployment, Operation.DeleteDeployment, 204),
    Route(Post, Deployments, Operation.CreateDeployment, 201),
    Route(Get, Deployments, Operation.GetDeployments, 200)
  ]

  const AUTHORIZER_ROUTES: seq<Route> := [
    Route(Get, AnAuthorizer, Operation.GetAuthorizer, 200),
    Route(Patch, AnAuthorizer, Operation.UpdateAuthorizer, 200),
    Route(Delete, AnAuthorizer, Operation.DeleteAuthorizer, 204),
    Route(Post, Authorizers, Operation.CreateAuthorizer, 201),
    Route(Get, Authorizers, Operation.GetAuthorizers, 200)
  ]

  const MODEL_ROUTES: seq<Route> := [
    Route(Get, AModel, Operation.GetModel, 200),
    Route(Patch, AModel, Operation.UpdateModel, 200),
    Route(Delete, AModel, Operation.DeleteModel, 204),
    Route(Post, Models, Operation.CreateModel, 201),
    Route(Get, Models, Operation.GetModels, 200)
  ]

  const API_ROUTES: seq<Route> := [
    Route(Get, AnApi, Operation.GetApi, 200),
    Route(Patch, AnApi, Operation.UpdateApi, 200),
    Route(Delete, AnApi, Operation.DeleteApi, 204),
    Route(Post, Apis, Operation.CreateApi, 201),
    Route(Get, Apis, Operation.GetApis, 200)
  ]

  const DOMAIN_ROUTES: seq<Route> := [
    Route(Get, ADomainName, Operation.GetDomainName, 200),
    Route(Patch, ADomainName, Operation.UpdateDomainName, 200),
    Route(Delete, ADomainName, Operation.DeleteDomainName, 204),
    Route(Post, DomainNames, Operation.CreateDomainName, 201),
    Route(Get, DomainNames, Operation.GetDomainNames, 200)
  ]

  const MAPPING_ROUTES: seq<Route> := [
    Route(Get, AnApiMapping, Operation.GetApiMapping, 200),
    Route(Patch, AnApiMapping, Operation.UpdateApiMapping, 200),
    Route(Delete, AnApiMapping, Operation.DeleteApiMapping, 204),
    Route(Post, ApiMappings, Operation.CreateApiMapping, 201),
    Route(Get, ApiMappings, Operation.GetApiMappings, 200)
  ]

  const LINK_ROUTES: seq<Route> := [
    Route(Get, AVpcLink, Operation.GetVpcLink, 200),
    Route(Patch, AVpcLink, Operation.UpdateVpcLink, 200),
    Route(Delete, AVpcLink, Operation.DeleteVpcLink, 202),
    Route(Post, VpcLinks, Operation.CreateVpcLink, 201),
    Route(Get, VpcLinks, Operation.GetVpcLinks, 200)
  ]

  const TAG_ROUTES: seq<Route> := [
    Route(Post, TagsOf, Operation.TagResource, 201),
    Route(Get, TagsOf, Operation.GetTags, 200),
    Route(Delete, TagsOf, Operation.UntagResource, 204)
  ]

  const RECORD_ROUTES := RESPONSE_ROUTES + ROUTE_ROUTES + INTEGRATION_ROUTES + STAGE_ROUTES

  const SETTING_ROUTES := DEPLOYMENT_ROUTES + AUTHORIZER_ROUTES + MODEL_ROUTES + API_ROUTES

  const OTHER_ROUTES := DOMAIN_ROUTES + MAPPING_ROUTES + LINK_ROUTES + TAG_ROUTES

  const ROUTES := RECORD_ROUTES + SETTING_ROUTES + OTHER_ROUTES

  function PathPattern(route: Route): string {
    Join(Segments(route.pattern), '/')
  }

  type Params = map<string, string>

  // ---- Matching ----

  predicate Hole(segment: string) {
    segment != "" && segment[0] == '{' && segment[|segment| - 1] == '}' && |segment| > 1
  }

  function HoleName(segment: string): string
    requires Hole(segment)
  {
    segment[1..|segment| - 1]
  }

  /** The parameters taken from the first `n` segments. */
  function MatchTo(path: seq<string>, pattern: seq<string>, n: nat): Option<Params>
    requires n <= |path| == |pattern|
  {
    if n == 0 then Some(map[])
    else
      var before := MatchTo(path, pattern, n - 1);
      if before.None? then None
      else if Hole(pattern[n - 1]) then Some(before.value[HoleName(pattern[n - 1]) := path[n - 1]])
      else if path[n - 1] == pattern[n - 1] then before
      else None
  }

  function MatchSegments(path: seq<string>, pattern: seq<string>): Option<Params> {
    if |path| != |pattern| then None else MatchTo(path, pattern, |path|)
  }

  method MatchPath(path: string, pattern: string) returns (r: Option<Params>)
    ensures r == MatchSegments(Split(path, '/'), Split(pattern, '/'))
  {
    var pathSegments := Split(path, '/');
    var patternSegments := Split(pattern, '/');
    if |pathSegments| != |patternSegments| { return None; }
    var params: Params := map[];
    for i := 0 to |pathSegments|
      invariant MatchTo(pathSegments, patternSegments, i) == Some(params)
    {
      var ps, pp := pathSegments[i], patternSegments[i];
      if Hole(pp) {
        params := params[HoleName(pp) := ps];
      } else if ps != pp {
        StaysNone(pathSegments, patternSegments, i + 1, |pathSegments|);
        return None;
      }
    }
    return Some(params);
  }

  lemma {:induction false} StaysNone(path: seq<string>, pattern: seq<string>, i: nat, n: nat)
    requires i <= n <= |path| == |pattern| && MatchTo(path, pattern, i).None?
    ensures MatchTo(path, pattern, n).None?
  {
    if i < n { StaysNone(path, pattern, i, n - 1); }
  }

  /** The parameters a route takes from a path. */
  function ParamsOf(route: Route, path: string): Option<Params> {
    MatchSegments(Split(path, '/'), Segments(route.pattern))
  }

  method MatchRoute(route: Route, path: string) returns (r: Option<Params>)
    ensures r == ParamsOf(route, path)
  {
    SegmentsSplit(route.pattern);
    r := MatchPath(path, PathPattern(route));
  }

  /** Whether a route serves a request. */
  predicate Serves(route: Route, verb: Verb, path: string) {
    route.verb == verb && ParamsOf(route, path).Some?
  }

  datatype Resolved = Resolved(operation: Operation, params: Params, status: nat)

  function Served(route: Route, path: string): Resolved
    requires ParamsOf(route, path).Some?
  {
    Resolved(route.operation, ParamsOf(route, path).value, route.successStatus)
  }

  /** The first route that serves the request. */
  method FirstMatch(routes: seq<Route>, verb: Verb, path: string) returns (r: Option<Resolved>)
    ensures r.None? ==> forall i | 0 <= i < |routes| :: !Serves(routes[i], verb, path)
    ensures r.Some? ==> exists n ::
              0 <= n < |routes| && Serves(routes[n], verb, path) && r == Some(Served(routes[n], path)) &&
                          forall i | 0 <= i < n :: !Serves(routes[i], verb, path)
  {
    for n := 0 to |routes|
      invariant forall i | 0 <= i < n :: !Serves(routes[i], verb, path)
    {
      var route := routes[n];
      if route.verb == verb {
        var params := MatchRoute(route, path);
        if params.Some? {
          assert Serves(routes[n], verb, path);
          return Some(Resolved(route.operation, params.value, route.successStatus));
        }
      }
    }
    return None;
  }

  /** The answer is that of any route that serves the request, wherever it stands. */
  method ResolveOperation(verb: Verb, path: string) returns (r: Option<Resolved>)
    ensures r.Some? <==> exists i :: 0 <= i < |ROUTES| && Serves(ROUTES[i], verb, path)
    ensures forall i | 0 <= i < |ROUTES| && Serves(ROUTES[i], verb, path) :: r == Some(Served(ROUTES[i], path))
  {
    r := FirstMatch(ROUTES, verb, path);
    if r.Some? {
      var n :| 0 <= n < |ROUTES| && Serves(ROUTES[n], verb, path) && r == Some(Served(ROUTES[n], path));
      forall i | 0 <= i < |ROUTES| && Serves(ROUTES[i], verb, path) ensures i == n {
        Unambiguous(verb, path, i, n);
      }
    }
  }

  // ---- What a match is ----

  predicate Fits(path: seq<string>, pattern: seq<string>) {
    |path| == |pattern| && forall i | 0 <= i < |path| :: Hole(pattern[i]) || path[i] == pattern[i]
  }

  predicate DistinctHoles(pattern: seq<string>) {
    forall i, j | 0 <= i < j < |pattern| && Hole(pattern[i]) && Hole(pattern[j]) ::
      HoleName(pattern[i]) != HoleName(pattern[j])
  }

  predicate NamesHole(pattern: seq<string>, n: nat, name: string)
    requires n <= |pattern|
  {
    exists i :: 0 <= i < n && Hole(pattern[i]) && HoleName(pattern[i]) == name
  }

  lemma {:induction false} MatchToExact(path: seq<string>, pattern: seq<string>, n: nat)
    requires n <= |path| == |pattern| && DistinctHoles(pattern)
    ensures MatchTo(path, pattern, n).Some? <==> forall i | 0 <= i < n :: Hole(pattern[i]) || path[i] == pattern[i]
    ensures MatchTo(path, pattern, n).Some? ==>
              var params := MatchTo(path, pattern, n).value;
              && (forall i | 0 <= i < n && Hole(pattern[i]) ::
                HoleName(pattern[i]) in params && params[HoleName(pattern[i])] == path[i])
              && (forall name | name in params :: NamesHole(pattern, n, name))
  {
    if n > 0 {
      MatchToExact(path, pattern, n - 1);
      if MatchTo(path, pattern, n).Some? {
        var params := MatchTo(path, pattern, n).value;
        forall name | name in params ensures NamesHole(pattern, n, name) {
          if name in MatchTo(path, pattern, n - 1).value { assert NamesHole(pattern, n - 1, name); }
        }
      }
    }
  }

  /** The pattern with a value in the place of each parameter. */
  function Filled(pattern: seq<string>, values: Params): (path: seq<string>)
    requires forall i | 0 <= i < |pattern| && Hole(pattern[i]) :: HoleName(pattern[i]) in values
    ensures |path| == |pattern|
    ensures forall i | 0 <= i < |path| ::
              path[i] == if Hole(pattern[i]) then values[HoleName(pattern[i])] else pattern[i]
  {
    if pattern == [] then []
    else
      var last := pattern[|pattern| - 1];
      Filled(pattern[..|pattern| - 1], values) + [if Hole(last) then values[HoleName(last)] else last]
  }

  /** The values are those of the pattern's parameters, and of nothing else. */
  predicate ValuesFor(pattern: seq<string>, values: Params) {
    && (forall i | 0 <= i < |pattern| && Hole(pattern[i]) :: HoleName(pattern[i]) in values)
    && (forall name | name in values :: NamesHole(pattern, |pattern|, name))
  }

  /** Matching undoes filling, and filling undoes matching. */
  lemma MatchFilled(pattern: seq<string>, values: Params)
    requires DistinctHoles(pattern) && ValuesFor(pattern, values)
    ensures MatchSegments(Filled(pattern, values), pattern) == Some(values)
  {
    var path := Filled(pattern, values);
    MatchToExact(path, pattern, |path|);
    var params := MatchTo(path, pattern, |path|).value;
    forall name ensures name in params <==> name in values {
      if name in params { assert NamesHole(pattern, |path|, name); }
      if name in values { assert NamesHole(pattern, |path|, name); }
    }
    forall name | name in params ensures params[name] == values[name] {
      assert NamesHole(pattern, |path|, name);
    }
    assert params == values;
  }

  lemma FillMatched(path: seq<string>, pattern: seq<string>)
    requires DistinctHoles(pattern) && MatchSegments(path, pattern).Some?
    ensures ValuesFor(pattern, MatchSegments(path, pattern).value)
    ensures Filled(pattern, MatchSegments(path, pattern).value) == path
  {
    MatchToExact(path, pattern, |path|);
  }

  // ---- The table ----

  /** The one pattern that a path of these segments can fit. */
  function Classify(s: seq<string>): Option<Pattern> {
    if |s| == 3 then
      if s[2] == "apis" then Some(Apis)
      else if s[2] == "domainnames" then Some(DomainNames)
      else Some(VpcLinks)
    else if |s| == 4 then
      if s[2] == "apis" then Some(AnApi)
      else if s[2] == "domainnames" then Some(ADomainName)
      else if s[2] == "vpclinks" then Some(AVpcLink)
      else Some(TagsOf)
    else if |s| == 5 then
      if s[2] == "domainnames" then Some(ApiMappings)
      else if s[4] == "routes" then Some(Routes)
      else if s[4] == "integrations" then Some(Integrations)
      else if s[4] == "stages" then Some(Stages)
      else if s[4] == "deployments" then Some(Deployments)
      else if s[4] == "authorizers" then Some(Authorizers)
      else Some(Models)
    else if |s| == 6 then
      if s[2] == "domainnames" then Some(AnApiMapping)
      else if s[4] == "routes" then Some(ARoute)
      else if s[4] == "integrations" then Some(AnIntegration)
      else if s[4] == "stages" then Some(AStage)
      else if s[4] == "deployments" then Some(ADeployment)
      else if s[4] == "authorizers" then Some(AnAuthorizer)
      else Some(AModel)
    else if |s| == 7 then
      if s[4] == "models" then Some(ModelTemplate) else Some(RouteResponses)
    else if |s| == 8 then Some(ARouteResponse)
    else None
  }

  /** Where the table has a route, if it has one. */
  function IndexOf(verb: Verb, pattern: Pattern): Option<nat> {
    match (pattern, verb)
    case (ARouteResponse, Get) => Some(0)
    case (ARouteResponse, Delete) => Some(1)
    case (RouteResponses, Post) => Some(2)
    case (RouteResponses, Get) => Some(3)
    case (ModelTemplate, Get) => Some(4)
    case (ARoute, Get) => Some(5)
    case (ARoute, Patch) => Some(6)
    case (ARoute, Delete) => Some(7)
    case (Routes, Post) => Some(8)
    case (Routes, Get) => Some(9)
    case (AnIntegration, Get) => Some(10)
    case (AnIntegration, Patch) => Some(11)
    case (AnIntegration, Delete) => Some(12)
    case (Integrations, Post) => Some(13)
    case (Integrations, Get) => Some(14)
    case (AStage, Get) => Some(15)
    case (AStage, Patch) => Some(16)
    case (AStage, Delete) => Some(17)
    case (Stages, Post) => Some(18)
    case (Stages, Get) => Some(19)
    case (ADeployment, Get) => Some(20)
    case (ADeployment, Delete) => Some(21)
    case (Deployments, Post) => Some(22)
    case (Deployments, Get) => Some(23)
    case (AnAuthorizer, Get) => Some(24)
    case (AnAuthorizer, Patch) => Some(25)
    case (AnAuthorizer, Delete) => Some(26)
    case (Authorizers, Post) => Some(27)
    case (Authorizers, Get) => Some(28)
    case (AModel, Get) => Some(29)
    case (AModel, Patch) => Some(30)
    case (AModel, Delete) => Some(31)
    case (Models, Post) => Some(32)
    case (Models, Get) => Some(33)
    case (AnApi, Get) => Some(34)
    case (AnApi, Patch) => Some(35)
    case (AnApi, Delete) => Some(36)
    case (Apis, Post) => Some(37)
    case (Apis, Get) => Some(38)
    case (ADomainName, Get) => Some(39)
    case (ADomainName, Patch) => Some(40)
    case (ADomainName, Delete) => Some(41)
    case (DomainNames, Post) => Some(42)
    case (DomainNames, Get) => Some(43)
    case (AnApiMapping, Get) => Some(44)
    case (AnApiMapping, Patch) => Some(45)
    case (AnApiMapping, Delete) => Some(46)
    case (ApiMappings, Post) => Some(47)
    case (ApiMappings, Get) => Some(48)
    case (AVpcLink, Get) => Some(49)
    case (AVpcLink, Patch) => Some(50)
    case (AVpcLink, Delete) => Some(51)
    case (VpcLinks, Post) => Some(52)
    case (VpcLinks, Get) => Some(53)
    case (TagsOf, Post) => Some(54)
    case (TagsOf, Get) => Some(55)
    case (TagsOf, Delete) => Some(56)
    case _ => None
  }

  lemma FixedSegments(pattern: Pattern)
    ensures |Segments(pattern)| > 2 && !Hole(Segments(pattern)[2])
    ensures |Segments(pattern)| > 4 ==> !Hole(Segments(pattern)[4])
  {}

  lemma ClassifyFits(path: seq<string>, pattern: Pattern)
    requires Fits(path, Segments(pattern))
    ensures Classify(path) == Some(pattern)
  {
    FixedSegments(pattern);
    var s := Segments(pattern);
    assert |path| == |s| && path[2] == s[2] && (|s| > 4 ==> path[4] == s[4]);
    ClassifyTold(path, pattern);
  }

  lemma ClassifyTold(path: seq<string>, pattern: Pattern)
    requires |path| == |Segments(pattern)| > 2 && path[2] == Segments(pattern)[2]
    requires |path| > 4 ==> path[4] == Segments(pattern)[4]
    ensures Classify(path) == Some(pattern)
  {}

  lemma ShortHoles(pattern: Pattern)
    requires |Segments(pattern)| < 6
    ensures DistinctHoles(Segments(pattern))
  {}

  lemma LongHoles(pattern: Pattern)
    requires |Segments(pattern)| == 6
    ensures DistinctHoles(Segments(pattern))
  {}

  lemma LongestHoles(pattern: Pattern)
    requires |Segments(pattern)| > 6
    ensures DistinctHoles(Segments(pattern))
  {}

  lemma PatternHoles(pattern: Pattern)
    ensures DistinctHoles(Segments(pattern))
  {
    if |Segments(pattern)| < 6 { ShortHoles(pattern); }
    else if |Segments(pattern)| == 6 { LongHoles(pattern); }
    else { LongestHoles(pattern); }
  }

  predicate NoSlash(segments: seq<string>) {
    forall k | 0 <= k < |segments| :: '/' !in segments[k]
  }

  lemma ShortNoSlash(pattern: Pattern)
    requires |Segments(pattern)| < 6
    ensures NoSlash(Segments(pattern))
  {}

  lemma LongNoSlash(pattern: Pattern)
    requires |Segments(pattern)| >= 6
    ensures NoSlash(Segments(pattern))
  {}

  lemma PatternNoSlash(pattern: Pattern)
    ensures NoSlash(Segments(pattern)) && |Segments(pattern)| >= 1
  {
    if |Segments(pattern)| < 6 { ShortNoSlash(pattern); } else { LongNoSlash(pattern); }
  }

  lemma SegmentsSplit(pattern: Pattern)
    ensures Split(Join(Segments(pattern), '/'), '/') == Segments(pattern)
  {
    PatternNoSlash(pattern);
    SplitJoin(Segments(pattern), '/');
  }

  predicate Indexed(group: seq<Route>, offset: nat) {
    forall k | 0 <= k < |group| :: IndexOf(group[k].verb, group[k].pattern) == Some(offset + k)
  }

  lemma IndexedConcat(a: seq<Route>, b: seq<Route>, offset: nat)
    requires Indexed(a, offset) && Indexed(b, offset + |a|)
    ensures Indexed(a + b, offset)
  {}

  lemma ResponseRoutesIndexed()
    ensures Indexed(RESPONSE_ROUTES, 0) && |RESPONSE_ROUTES| == 5
  {}

  lemma RouteRoutesIndexed()
    ensures Indexed(ROUTE_ROUTES, 5) && |ROUTE_ROUTES| == 5
  {}

  lemma IntegrationRoutesIndexed()
    ensures Indexed(INTEGRATION_ROUTES, 10) && |INTEGRATION_ROUTES| == 5
  {}

  lemma StageRoutesIndexed()
    ensures Indexed(STAGE_ROUTES, 15) && |STAGE_ROUTES| == 5
  {}

  lemma RecordRoutesIndexed()
    ensures Indexed(RECORD_ROUTES, 0) && |RECORD_ROUTES| == 20
  {
    ResponseRoutesIndexed();
    RouteRoutesIndexed();
    IntegrationRoutesIndexed();
    StageRoutesIndexed();
    IndexedConcat(RESPONSE_ROUTES, ROUTE_ROUTES, 0);
    IndexedConcat(RESPONSE_ROUTES + ROUTE_ROUTES, INTEGRATION_ROUTES, 0);
    IndexedConcat(RESPONSE_ROUTES + ROUTE_ROUTES + INTEGRATION_ROUTES, STAGE_ROUTES, 0);
  }

  lemma DeploymentRoutesIndexed()
    ensures Indexed(DEPLOYMENT_ROUTES, 20) && |DEPLOYMENT_ROUTES| == 4
  {}

  lemma AuthorizerRoutesIndexed()
    ensures Indexed(AUTHORIZER_ROUTES, 24) && |AUTHORIZER_ROUTES| == 5
  {}

  lemma ModelRoutesIndexed()
    ensures Indexed(MODEL_ROUTES, 29) && |MODEL_ROUTES| == 5
  {}

  lemma ApiRoutesIndexed()
    ensures Indexed(API_ROUTES, 34) && |API_ROUTES| == 5
  {}

  lemma SettingRoutesIndexed()
    ensures Indexed(SETTING_ROUTES, 20) && |SETTING_ROUTES| == 19
  {
    DeploymentRoutesIndexed();
    AuthorizerRoutesIndexed();
    ModelRoutesIndexed();
    ApiRoutesIndexed();
    IndexedConcat(DEPLOYMENT_ROUTES, AUTHORIZER_ROUTES, 20);
    IndexedConcat(DEPLOYMENT_ROUTES + AUTHORIZER_ROUTES, MODEL_ROUTES, 20);
    IndexedConcat(DEPLOYMENT_ROUTES + AUTHORIZER_ROUTES + MODEL_ROUTES, API_ROUTES, 20);
  }

  lemma DomainRoutesIndexed()
    ensures Indexed(DOMAIN_ROUTES, 39) && |DOMAIN_ROUTES| == 5
  {}

  lemma MappingRoutesIndexed()
    ensures Indexed(MAPPING_ROUTES, 44) && |MAPPING_ROUTES| == 5
  {}

  lemma LinkRoutesIndexed()
    ensures Indexed(LINK_ROUTES, 49) && |LINK_ROUTES| == 5
  {}

  lemma TagRoutesIndexed()
    ensures Indexed(TAG_ROUTES, 54) && |TAG_ROUTES| == 3
  {}

  lemma OtherRoutesIndexed()
    ensures Indexed(OTHER_ROUTES, 39) && |OTHER_ROUTES| == 18
  {
    DomainRoutesIndexed();
    MappingRoutesIndexed();
    LinkRoutesIndexed();
    TagRoutesIndexed();
    IndexedConcat(DOMAIN_ROUTES, MAPPING_ROUTES, 39);
    IndexedConcat(DOMAIN_ROUTES + MAPPING_ROUTES, LINK_ROUTES, 39);
    IndexedConcat(DOMAIN_ROUTES + MAPPING_ROUTES + LINK_ROUTES, TAG_ROUTES, 39);
  }

  /** Every entry is where the index says. */
  lemma EntryIndexed(i: nat)
    requires i < |ROUTES|
    ensures IndexOf(ROUTES[i].verb, ROUTES[i].pattern) == Some(i)
  {
    RecordRoutesIndexed();
    SettingRoutesIndexed();
    OtherRoutesIndexed();
    IndexedConcat(RECORD_ROUTES, SETTING_ROUTES, 0);
    IndexedConcat(RECORD_ROUTES + SETTING_ROUTES, OTHER_ROUTES, 0);
  }

  predicate Statused(group: seq<Route>) {
    forall k | 0 <= k < |group| :: StatusOf(group[k].verb, group[k].pattern) == Some(group[k].successStatus)
  }

  /** The status that goes with a verb: a VPC link is deleted later, everything else at once. */
  function StatusOf(verb: Verb, pattern: Pattern): Option<nat> {
    match verb
    case Get => Some(200)
    case Patch => Some(200)
    case Post => Some(201)
    case Delete => Some(if pattern.AVpcLink? then 202 else 204)
    case _ => None
  }

  lemma StatusedConcat(a: seq<Route>, b: seq<Route>)
    requires Statused(a) && Statused(b)
    ensures Statused(a + b)
  {}

  lemma RecordStatuses()
    ensures Statused(RECORD_ROUTES)
  {
    assert Statused(RESPONSE_ROUTES) && Statused(ROUTE_ROUTES);
    assert Statused(INTEGRATION_ROUTES) && Statused(STAGE_ROUTES);
    StatusedConcat(RESPONSE_ROUTES, ROUTE_ROUTES);
    StatusedConcat(RESPONSE_ROUTES + ROUTE_ROUTES, INTEGRATION_ROUTES);
    StatusedConcat(RESPONSE_ROUTES + ROUTE_ROUTES + INTEGRATION_ROUTES, STAGE_ROUTES);
  }

  lemma SettingStatuses()
    ensures Statused(SETTING_ROUTES)
  {
    assert Statused(DEPLOYMENT_ROUTES) && Statused(AUTHORIZER_ROUTES);
    assert Statused(MODEL_ROUTES) && Statused(API_ROUTES);
    StatusedConcat(DEPLOYMENT_ROUTES, AUTHORIZER_ROUTES);
    StatusedConcat(DEPLOYMENT_ROUTES + AUTHORIZER_ROUTES, MODEL_ROUTES);
    StatusedConcat(DEPLOYMENT_ROUTES + AUTHORIZER_ROUTES + MODEL_ROUTES, API_ROUTES);
  }

  lemma OtherStatuses()
    ensures Statused(OTHER_ROUTES)
  {
    assert Statused(DOMAIN_ROUTES) && Statused(MAPPING_ROUTES);
    assert Statused(LINK_ROUTES) && Statused(TAG_ROUTES);
    StatusedConcat(DOMAIN_ROUTES, MAPPING_ROUTES);
    StatusedConcat(DOMAIN_ROUTES + MAPPING_ROUTES, LINK_ROUTES);
    StatusedConcat(DOMAIN_ROUTES + MAPPING_ROUTES + LINK_ROUTES, TAG_ROUTES);
  }

  /** The status of every entry is the one of its verb. */
  lemma EntryStatus(i: nat)
    requires i < |ROUTES|
    ensures StatusOf(ROUTES[i].verb, ROUTES[i].pattern) == Some(ROUTES[i].successStatus)
  {
    RecordStatuses();
    SettingStatuses();
    OtherStatuses();
    StatusedConcat(RECORD_ROUTES, SETTING_ROUTES);
    StatusedConcat(RECORD_ROUTES + SETTING_ROUTES, OTHER_ROUTES);
  }

  /** No request is served by two routes, so the order of the table is irrelevant. */
  lemma Unambiguous(verb: Verb, path: string, i: nat, j: nat)
    requires i < |ROUTES| && j < |ROUTES|
    requires Serves(ROUTES[i], verb, path) && Serves(ROUTES[j], verb, path)
    ensures i == j
  {
    ServesClass(ROUTES[i], verb, path);
    ServesClass(ROUTES[j], verb, path);
    EntryIndexed(i);
    EntryIndexed(j);
  }

  lemma ServesClass(route: Route, verb: Verb, path: string)
    requires Serves(route, verb, path)
    ensures Classify(Split(path, '/')) == Some(route.pattern)
  {
    var segments := Split(path, '/');
    PatternHoles(route.pattern);
    MatchToExact(segments, Segments(route.pattern), |segments|);
    ClassifyFits(segments, route.pattern);
  }

  predicate SlashFree(values: Params) {
    forall name | name in values :: '/' !in values[name]
  }

  /** A pattern of the table filled with slash-free values is served by its own route,
      with exactly those values. */
  lemma FilledServed(i: nat, values: Params)
    requires i < |ROUTES| && ValuesFor(Segments(ROUTES[i].pattern), values) && SlashFree(values)
    ensures var path := Join(Filled(Segments(ROUTES[i].pattern), values), '/');
            && Serves(ROUTES[i], ROUTES[i].verb, path)
            && Served(ROUTES[i], path) == Resolved(ROUTES[i].operation, values, ROUTES[i].successStatus)
  {
    var pattern := Segments(ROUTES[i].pattern);
    PatternHoles(ROUTES[i].pattern);
    PatternNoSlash(ROUTES[i].pattern);
    var segments := Filled(pattern, values);
    SplitJoin(segments, '/');
    MatchFilled(pattern, values);
  }

  /** A request that is served had its path made from the route's pattern with the
      parameters it was resolved with. */
  lemma ServedFilled(i: nat, path: string)
    requires i < |ROUTES| && Serves(ROUTES[i], ROUTES[i].verb, path)
    ensures ValuesFor(Segments(ROUTES[i].pattern), Served(ROUTES[i], path).params)
    ensures Join(Filled(Segments(ROUTES[i].pattern), Served(ROUTES[i], path).params), '/') == path
  {
    PatternHoles(ROUTES[i].pattern);
    FillMatched(Split(path, '/'), Segments(ROUTES[i].pattern));
    JoinSplit(path, '/');
  }

  lemma {:induction false} JoinSplit(s: string, sep: char)
    ensures Join(Split(s, sep), sep) == s
  {
    if s != [] {
      JoinSplit(s[1..], sep);
      var rest := Split(s[1..], sep);
      if s[0] == sep {
        assert ([[]] + rest)[1..] == rest;
      } else if |rest| > 1 {
        assert ([[s[0]] + rest[0]] + rest[1..])[1..] == rest[1..];
      }
    }
  }
}
