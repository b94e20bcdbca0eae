/** The API Gateway operations that create, change and delete records, and the
    references between the records they keep resolved.

    Every handler is one atomic step on the store. Fields that no operation here
    reads are left away, and so are timestamps. */
module Provider {
  import opened Wrappers
  import opened Storage

  datatype Error = NotFound | Conflict | BadRequest

  datatype Request =
    | CreateApi(name: string, apiTarget: Option<string>, quickKey: Option<string>, tags: Tags)
    | DeleteApi(id: string)
    | UpdateApi(apiId: string, newName: Option<string>)
    | CreateRoute(apiId: string, routeKey: string, target: Option<string>, authorizer: Option<string>)
    | UpdateRoute(apiId: string, routeId: string, newKey: Option<string>, target: Option<string>,
                  authorizer: Option<string>)
    | DeleteRoute(apiId: string, routeId: string)
    | CreateIntegration(apiId: string, uri: Option<string>)
    | UpdateIntegration(apiId: string, integrationId: string, uri: Option<string>)
    | DeleteIntegration(apiId: string, integrationId: string)
    | CreateStage(apiId: string, stageName: string, deployment: Option<string>, autoDeploy: Option<bool>,
                  description: Option<string>)
    | UpdateStage(apiId: string, stageName: string, deployment: Option<string>, autoDeploy: Option<bool>,
                  description: Option<string>)
    | DeleteStage(apiId: string, stageName: string)
    | CreateDeployment(apiId: string, forStage: Option<string>, description: Option<string>)
    | DeleteDeployment(apiId: string, deploymentId: string)
    | CreateAuthorizer(apiId: string, authorizerName: string)
    | UpdateAuthorizer(apiId: string, authorizerId: string, newName: Option<string>)
    | DeleteAuthorizer(apiId: string, authorizerId: string)
    | CreateDomainName(domain: string, text: string, tags: Tags)
    | DeleteDomainName(domain: string)
    | CreateVpcLink(text: string, tags: Tags)
    | UpdateVpcLink(link: string, newText: Option<string>)
    | DeleteVpcLink(link: string)

  /** A create answers with the id of the new record, the others with "". */
  type Answer = Result<string, Error>

  function OrElse<T>(given: Option<T>, current: T): T {
    if given.Some? then given.value else current
  }

  function OrKeep<T>(given: Option<T>, current: Option<T>): Option<T> {
    if given.Some? then given else current
  }

  // ---- References ----

  const TARGET_PREFIX := "integrations/"

  function TargetOf(integrationId: string): string { TARGET_PREFIX + integrationId }

  predicate TargetResolves(body: ApiBody, target: Option<string>) {
    target.Some? && TARGET_PREFIX <= target.value ==> target.value[|TARGET_PREFIX|..] in body.integrations
  }

  predicate AuthorizerResolves(body: ApiBody, authorizer: Option<string>) {
    authorizer.Some? ==> authorizer.value in body.authorizers
  }

  predicate DeploymentResolves(body: ApiBody, deployment: Option<string>) {
    deployment.Some? ==> deployment.value in body.deployments
  }

  predicate RoutesResolve(body: ApiBody) {
    forall k | k in body.routes ::
      TargetResolves(body, body.routes[k].target) && AuthorizerResolves(body, body.routes[k].authorizerId)
  }

  predicate StagesResolve(body: ApiBody) {
    forall k | k in body.stages :: DeploymentResolves(body, body.stages[k].deploymentId)
  }

  /** Every reference within the API names a record. */
  predicate Integrity(body: ApiBody) {
    RoutesResolve(body) && StagesResolve(body)
  }

  predicate AllIntegrity(apis: map<string, Api>) {
    forall k | k in apis :: Integrity(apis[k].body)
  }

  /** The ids that the client supplies name existing records. */
  predicate Resolved(body: ApiBody, q: Request) {
    match q
    case CreateRoute(_, _, target, authorizer) => TargetResolves(body, target) && AuthorizerResolves(body, authorizer)
    case UpdateRoute(_, _, _, target, authorizer) =>
      TargetResolves(body, target) && AuthorizerResolves(body, authorizer)
    case CreateStage(_, _, deployment, _, _) => DeploymentResolves(body, deployment)
    case UpdateStage(_, _, deployment, _, _) => DeploymentResolves(body, deployment)
    case _ => true
  }

  // ---- What an operation does to one API ----

  predicate Scoped(q: Request) {
    !(q.CreateApi? || q.DeleteApi? || q.CreateDomainName? || q.DeleteDomainName?
      || q.CreateVpcLink? || q.UpdateVpcLink? || q.DeleteVpcLink?)
  }

  /** The operations that are followed by an automatic deployment. */
  predicate Deploys(q: Request) {
    || q.CreateRoute? || q.UpdateRoute? || q.DeleteRoute?
    || q.CreateIntegration? || q.UpdateIntegration? || q.DeleteIntegration?
  }

  function WithoutTarget(routes: map<string, Route>, target: string): map<string, Route> {
    map k | k in routes :: if routes[k].target == Some(target) then routes[k].(target := None) else routes[k]
  }

  function WithoutAuthorizer(routes: map<string, Route>, authorizer: string): map<string, Route> {
    map k | k in routes ::
      if routes[k].authorizerId == Some(authorizer) then routes[k].(authorizerId := None) else routes[k]
  }

  function WithoutDeployment(stages: map<string, Stage>, deployment: string): map<string, Stage> {
    map k | k in stages ::
      if stages[k].deploymentId == Some(deployment) then stages[k].(deploymentId := None) else stages[k]
  }

  function AtStage(stages: map<string, Stage>, name: Option<string>, deployment: string): map<string, Stage> {
    if name.Some? && name.value in stages
    then stages[name.value := stages[name.value].(deploymentId := Some(deployment))]
    else stages
  }

  /** The API after the operation itself; `id` is the generated one. */
  function Edit(body: ApiBody, q: Request, id: string): Result<ApiBody, Error>
    requires Scoped(q)
  {
    match q
    case UpdateApi(_, newName) => Ok(body.(name := OrElse(newName, body.name)))
    case CreateRoute(_, key, target, authorizer) =>
      Ok(body.(routes := body.routes[id := Route(id, key, target, authorizer, false)]))
    case UpdateRoute(_, routeId, newKey, target, authorizer) =>
      if routeId !in body.routes then Err(NotFound)
      else
        var route := body.routes[routeId];
        Ok(body.(routes := body.routes[routeId := route.(
          routeKey := OrElse(newKey, route.routeKey),
          target := OrKeep(target, route.target),
          authorizerId := OrKeep(authorizer, route.authorizerId))]))
    case DeleteRoute(_, routeId) =>
      if routeId !in body.routes then Err(NotFound) else Ok(body.(routes := body.routes - {routeId}))
    case CreateIntegration(_, uri) =>
      Ok(body.(integrations := body.integrations[id := Integration(id, uri, false)]))
    case UpdateIntegration(_, integrationId, uri) =>
      if integrationId !in body.integrations then Err(NotFound)
      else
        var integration := body.integrations[integrationId];
        Ok(body.(integrations := body.integrations[integrationId := integration.(uri := OrKeep(uri, integration.uri))]))
    case DeleteIntegration(_, integrationId) =>
      if integrationId !in body.integrations then Err(NotFound)
      else Ok(body.(integrations := body.integrations - {integrationId},
                    routes := WithoutTarget(body.routes, TargetOf(integrationId))))
    case CreateStage(_, name, deployment, autoDeploy, description) =>
      if name in body.stages then Err(Conflict)
      else Ok(body.(stages := body.stages[name := Stage(name, deployment, OrElse(autoDeploy, false), description)]))
    case UpdateStage(_, name, deployment, autoDeploy, description) =>
      if name !in body.stages then Err(NotFound)
      else
        var stage := body.stages[name];
        Ok(body.(stages := body.stages[name := stage.(
          deploymentId := OrKeep(deployment, stage.deploymentId),
          autoDeploy := OrElse(autoDeploy, stage.autoDeploy),
          description := OrKeep(description, stage.description))]))
    case DeleteStage(_, name) =>
      if name !in body.stages then Err(NotFound) else Ok(body.(stages := body.stages - {name}))
    case CreateDeployment(_, forStage, description) =>
      Ok(body.(deployments := body.deployments[id := Deployment(id, description, false)],
               stages := AtStage(body.stages, forStage, id)))
    case DeleteDeployment(_, deploymentId) =>
      if deploymentId !in body.deployments then Err(NotFound)
      else Ok(body.(deployments := body.deployments - {deploymentId},
                    stages := WithoutDeployment(body.stages, deploymentId)))
    case CreateAuthorizer(_, name) =>
      Ok(body.(authorizers := body.authorizers[id := Authorizer(id, name)]))
    case UpdateAuthorizer(_, authorizerId, newName) =>
      if authorizerId !in body.authorizers then Err(NotFound)
      else
        var authorizer := body.authorizers[authorizerId];
        var changed := authorizer.(name := OrElse(newName, authorizer.name));
        Ok(body.(authorizers := body.authorizers[authorizerId := changed]))
    case DeleteAuthorizer(_, authorizerId) =>
      if authorizerId !in body.authorizers then Err(NotFound)
      else Ok(body.(authorizers := body.authorizers - {authorizerId},
                    routes := WithoutAuthorizer(body.routes, authorizerId)))
  }

  // ---- Automatic deployment ----

  function AutoDeployment(id: string): Deployment {
    Deployment(id, Some("Auto-deployed"), true)
  }

  /** The stage points at a present automatic deployment and is otherwise as before. */
  predicate Redeployed(before: Stage, after: Stage, deployments: map<string, Deployment>) {
    && after == before.(deploymentId := after.deploymentId)
    && after.deploymentId.Some?
    && after.deploymentId.value in deployments
    && deployments[after.deploymentId.value] == AutoDeployment(after.deploymentId.value)
  }

  predicate PointedAt(id: string, before: map<string, Stage>, after: map<string, Stage>) {
    exists k :: k in before && before[k].autoDeploy && k in after && after[k].deploymentId == Some(id)
  }

  /** Each stage with automatic deployment got a deployment of its own, nothing else
      changed, and no deployment was lost; generated ids may collide. */
  predicate AutoDeployed(before: ApiBody, after: ApiBody) {
    && after == before.(stages := after.stages, deployments := after.deployments)
    && after.stages.Keys == before.stages.Keys
    && (forall k | k in before.stages ::
          if before.stages[k].autoDeploy then Redeployed(before.stages[k], after.stages[k], after.deployments)
          else after.stages[k] == before.stages[k])
    && before.deployments.Keys <= after.deployments.Keys
    && (forall d | d in after.deployments ::
          || (d in before.deployments && after.deployments[d] == before.deployments[d])
          || (after.deployments[d] == AutoDeployment(d) && PointedAt(d, before.stages, after.stages)))
  }

  // ---- One step of the store ----

  function SetBody(apis: map<string, Api>, apiId: string, body: ApiBody): map<string, Api>
    requires apiId in apis
  {
    apis[apiId := Record(apis[apiId].id, body)]
  }

  /** An operation within one API. */
  predicate Answered(before: map<string, Api>, q: Request, r: Answer, after: map<string, Api>)
    requires Scoped(q)
  {
    if q.apiId !in before then r == Err(NotFound) && after == before
    else
      var edited := Edit(before[q.apiId].body, q, if r.Ok? then r.value else "");
      if edited.Err? then r == Err(edited.error) && after == before
      else
        && r.Ok? && q.apiId in after
        && after == SetBody(before, q.apiId, after[q.apiId].body)
        && if Deploys(q) then AutoDeployed(edited.value, after[q.apiId].body) else after[q.apiId].body == edited.value
  }

  function EmptyBody(name: string): ApiBody {
    ApiBody(name, map[], map[], map[], map[], map[])
  }

  /** The default integration and route of an API created with a target. */
  function QuickBody(name: string, target: string, key: Option<string>, integrationId: string,
                     routeId: string): ApiBody {
    EmptyBody(name).(
      integrations := map[integrationId := Integration(integrationId, Some(target), true)],
      routes := map[routeId := Route(routeId, OrElse(key, "$default"), Some(TargetOf(integrationId)), None, true)])
  }

  ghost predicate NewBody(q: Request, body: ApiBody)
    requires q.CreateApi?
  {
    if q.apiTarget.None? then body == EmptyBody(q.name)
    else exists i, k :: body == QuickBody(q.name, q.apiTarget.value, q.quickKey, i, k)
  }

  function ApiArn(region: string, id: string): string { "arn:aws:apigateway:" + region + "::/apis/" + id }

  function DomainArn(region: string, name: string): string { "arn:aws:apigateway:" + region + "::/domainnames/" + name }

  function LinkArn(region: string, id: string): string { "arn:aws:apigateway:" + region + "::/vpclinks/" + id }

  function Tagged(all: map<string, Tags>, arn: string, tags: Tags): map<string, Tags> {
    if tags == map[] then all else all[arn := tags]
  }

  /** An operation on the store, with the answer it gives. */
  ghost predicate Step(region: string, before: Contents, q: Request, r: Answer, after: Contents) {
    match q
    case CreateApi(name, _, _, tags) =>
      if name == "" then r == Err(BadRequest) && after == before
      else
        && r.Ok? && r.value in after.apis && NewBody(q, after.apis[r.value].body)
        && after == before.(apis := before.apis[r.value := Record(r.value, after.apis[r.value].body)],
                            tags := Tagged(before.tags, ApiArn(region, r.value), tags))
    case DeleteApi(id) =>
      if id !in before.apis then r == Err(NotFound) && after == before
      else r == Ok("") && after == before.(apis := before.apis - {id}, tags := before.tags - {ApiArn(region, id)})
    case CreateDomainName(domain, text, tags) =>
      if domain in before.domainNames then r == Err(Conflict) && after == before
      else r == Ok(domain) && after == before.(domainNames := before.domainNames[domain := Record(domain, text)],
                                               tags := Tagged(before.tags, DomainArn(region, domain), tags))
    case DeleteDomainName(domain) =>
      if domain !in before.domainNames then r == Err(NotFound) && after == before
      else r == Ok("") && after == before.(domainNames := before.domainNames - {domain},
                                           tags := before.tags - {DomainArn(region, domain)})
    case CreateVpcLink(text, tags) =>
      r.Ok? && after == before.(vpcLinks := before.vpcLinks[r.value := Record(r.value, text)],
                                tags := Tagged(before.tags, LinkArn(region, r.value), tags))
    case UpdateVpcLink(link, newText) =>
      if link !in before.vpcLinks then r == Err(NotFound) && after == before
      else
        var record := before.vpcLinks[link];
        && r == Ok("")
        && after == before.(vpcLinks := before.vpcLinks[link := Record(record.id, OrElse(newText, record.body))])
    case DeleteVpcLink(link) =>
      if link !in before.vpcLinks then r == Err(NotFound) && after == before
      else r == Ok("") && after == before.(vpcLinks := before.vpcLinks - {link},
                                           tags := before.tags - {LinkArn(region, link)})
    case _ =>
      Answered(before.apis, q, r, after.apis) && after == before.(apis := after.apis)
  }

  // ---- What every step keeps ----

  lemma UntargetedResolves(body: ApiBody, integrationId: string)
    requires RoutesResolve(body)
    ensures RoutesResolve(body.(integrations := body.integrations - {integrationId},
                                routes := WithoutTarget(body.routes, TargetOf(integrationId))))
  {
    var after := body.(integrations := body.integrations - {integrationId},
                       routes := WithoutTarget(body.routes, TargetOf(integrationId)));
    forall k | k in after.routes ensures TargetResolves(after, after.routes[k].target) {
      var target := body.routes[k].target;
      assert TargetResolves(body, target);
      if target.Some? && TARGET_PREFIX <= target.value && target.value[|TARGET_PREFIX|..] == integrationId {
        assert target.value == TARGET_PREFIX + target.value[|TARGET_PREFIX|..];
      }
    }
    assert forall k | k in after.routes :: AuthorizerResolves(body, body.routes[k].authorizerId);
  }

  lemma RouteEdited(body: ApiBody, q: Request, id: string)
    requires Scoped(q) && Integrity(body) && Edit(body, q, id).Ok?
    requires q.CreateRoute? || q.UpdateRoute? || q.DeleteRoute?
    ensures Integrity(Edit(body, q, id).value) <==> Resolved(body, q)
  {
    var after := Edit(body, q, id).value;
    assert forall k | k in after.routes && k in body.routes && after.routes[k] == body.routes[k] ::
        TargetResolves(body, body.routes[k].target) && AuthorizerResolves(body, body.routes[k].authorizerId);
    assert StagesResolve(after) by {
      forall k | k in after.stages ensures DeploymentResolves(after, after.stages[k].deploymentId) {
        assert DeploymentResolves(body, body.stages[k].deploymentId);
      }
    }
    if q.CreateRoute? {
      var created := after.routes[id];
      assert Integrity(after) ==>
               TargetResolves(after, created.target) && AuthorizerResolves(after, created.authorizerId);
    }
    if q.UpdateRoute? {
      var k := q.routeId;
      assert TargetResolves(body, body.routes[k].target) && AuthorizerResolves(body, body.routes[k].authorizerId);
      var route := after.routes[k];
      assert Integrity(after) ==>
               TargetResolves(after, route.target) && AuthorizerResolves(after, route.authorizerId);
    }
  }

  lemma StageEdited(body: ApiBody, q: Request, id: string)
    requires Scoped(q) && Integrity(body) && Edit(body, q, id).Ok?
    requires q.CreateStage? || q.UpdateStage? || q.DeleteStage? || q.CreateDeployment? || q.DeleteDeployment?
    ensures Integrity(Edit(body, q, id).value) <==> Resolved(body, q)
  {
    var after := Edit(body, q, id).value;
    assert RoutesResolve(after) by {
      forall k | k in after.routes
        ensures TargetResolves(after, after.routes[k].target) && AuthorizerResolves(after, after.routes[k].authorizerId)
      {
        assert TargetResolves(body, body.routes[k].target) && AuthorizerResolves(body, body.routes[k].authorizerId);
      }
    }
    assert forall k | k in body.stages :: DeploymentResolves(body, body.stages[k].deploymentId);
    if q.CreateStage? || q.UpdateStage? {
      assert Integrity(after) ==> DeploymentResolves(after, after.stages[q.stageName].deploymentId);
    }
  }

  lemma RestEdited(body: ApiBody, q: Request, id: string)
    requires Scoped(q) && Integrity(body) && Edit(body, q, id).Ok?
    requires q.UpdateApi? || q.CreateIntegration? || q.UpdateIntegration? || q.DeleteIntegration?
          || q.CreateAuthorizer? || q.UpdateAuthorizer? || q.DeleteAuthorizer?
    ensures Integrity(Edit(body, q, id).value)
  {
    var after := Edit(body, q, id).value;
    assert StagesResolve(after) by {
      forall k | k in after.stages ensures DeploymentResolves(after, after.stages[k].deploymentId) {
        assert DeploymentResolves(body, body.stages[k].deploymentId);
      }
    }
    if q.DeleteIntegration? {
      UntargetedResolves(body, q.integrationId);
    } else {
      forall k | k in after.routes
        ensures TargetResolves(after, after.routes[k].target) && AuthorizerResolves(after, after.routes[k].authorizerId)
      {
        assert TargetResolves(body, body.routes[k].target) && AuthorizerResolves(body, body.routes[k].authorizerId);
      }
    }
  }

  /** An edit keeps every reference resolved exactly when the ids the client gave
      name existing records. */
  lemma EditExact(body: ApiBody, q: Request, id: string)
    requires Scoped(q) && Integrity(body) && Edit(body, q, id).Ok?
    ensures Integrity(Edit(body, q, id).value) <==> Resolved(body, q)
  {
    if q.CreateRoute? || q.UpdateRoute? || q.DeleteRoute? {
      RouteEdited(body, q, id);
    } else if q.CreateStage? || q.UpdateStage? || q.DeleteStage? || q.CreateDeployment? || q.DeleteDeployment? {
      StageEdited(body, q, id);
    } else {
      RestEdited(body, q, id);
    }
  }

  lemma AutoDeployExact(before: ApiBody, after: ApiBody)
    requires AutoDeployed(before, after) && StagesResolve(before)
    ensures Integrity(after) <==> Integrity(before)
  {}

  lemma RoutesKeepStages(body: ApiBody, q: Request, id: string)
    requires Scoped(q) && Deploys(q) && Integrity(body) && Edit(body, q, id).Ok?
    ensures StagesResolve(Edit(body, q, id).value)
  {}

  /** The request is accepted with ids that name existing records, or refused. */
  predicate Referenced(apis: map<string, Api>, q: Request) {
    Scoped(q) && q.apiId in apis && Edit(apis[q.apiId].body, q, "").Ok? ==> Resolved(apis[q.apiId].body, q)
  }

  lemma ScopedExact(before: map<string, Api>, q: Request, r: Answer, after: map<string, Api>)
    requires Scoped(q) && AllIntegrity(before) && Answered(before, q, r, after)
    ensures AllIntegrity(after) <==> Referenced(before, q)
  {
    if r.Ok? {
      var body := before[q.apiId].body;
      var edited := Edit(body, q, r.value).value;
      EditExact(body, q, r.value);
      if Deploys(q) {
        RoutesKeepStages(body, q, r.value);
        AutoDeployExact(edited, after[q.apiId].body);
      }
      assert forall k | k in before && k != q.apiId :: after[k] == before[k] && Integrity(before[k].body);
      assert AllIntegrity(after) <==> Integrity(after[q.apiId].body);
    }
  }

  lemma NewBodyResolves(q: Request, body: ApiBody)
    requires q.CreateApi? && NewBody(q, body)
    ensures Integrity(body)
  {}

  /** One step keeps all references resolved exactly when the client's ids resolve. */
  lemma StepExact(region: string, before: Contents, q: Request, r: Answer, after: Contents)
    requires AllIntegrity(before.apis) && Step(region, before, q, r, after)
    ensures AllIntegrity(after.apis) <==> Referenced(before.apis, q)
  {
    if Scoped(q) {
      ScopedExact(before.apis, q, r, after.apis);
    } else {
      if q.CreateApi? && r.Ok? { NewBodyResolves(q, after.apis[r.value].body); }
      forall k | k in after.apis ensures Integrity(after.apis[k].body) {
        if k in before.apis && after.apis[k] == before.apis[k] { assert Integrity(before.apis[k].body); }
      }
    }
  }

  lemma StepKeyed(region: string, before: Contents, q: Request, r: Answer, after: Contents)
    requires Keyed(before) && Step(region, before, q, r, after)
    ensures Keyed(after)
  {
    assert KeyedById(after.apis) by {
      forall k | k in after.apis ensures after.apis[k].id == k {
        if k in before.apis { assert before.apis[k].id == k; }
      }
    }
  }

  /** After a change of a route or an integration every stage with automatic
      deployment points at a present automatic deployment; the others, and the
      deployments there were, are still there. */
  lemma DeployedAfter(region: string, before: Contents, q: Request, r: Answer, after: Contents)
    requires Step(region, before, q, r, after) && r.Ok?
    requires q.CreateRoute? || q.UpdateRoute? || q.DeleteRoute?
          || q.CreateIntegration? || q.UpdateIntegration? || q.DeleteIntegration?
    ensures var was, now := before.apis[q.apiId].body, after.apis[q.apiId].body;
            && now.stages.Keys == was.stages.Keys
            && (forall k | k in was.stages :: now.stages[k].autoDeploy == was.stages[k].autoDeploy)
            && (forall k | k in was.stages && !was.stages[k].autoDeploy :: now.stages[k] == was.stages[k])
            && (forall k | k in was.stages && was.stages[k].autoDeploy ::
              Redeployed(was.stages[k], now.stages[k], now.deployments))
            && was.deployments.Keys <= now.deployments.Keys
    ensures forall k | k in before.apis && k != q.apiId :: k in after.apis && after.apis[k] == before.apis[k]
  {
    var edited := Edit(before.apis[q.apiId].body, q, r.value).value;
    assert edited.stages == before.apis[q.apiId].body.stages;
    assert edited.deployments == before.apis[q.apiId].body.deployments;
  }

  // ---- Runs ----

  /** What the provider is asked for: a request, or to take over a snapshot. */
  datatype Call = Ask(request: Request) | Restore(snapshot: Snapshot)

  datatype Event = Served(request: Request, answer: Answer) | Restored(snapshot: Snapshot)

  predicate Answers(e: Event, call: Call) {
    match call
    case Ask(q) => e.Served? && e.request == q
    case Restore(s) => e == Restored(s)
  }

  ghost predicate Follows(region: string, before: Contents, e: Event, after: Contents) {
    match e
    case Served(q, r) => Step(region, before, q, r, after)
    case Restored(s) => after == Import(s)
  }

  /** The ids that the event brings in name existing records. */
  predicate Resolves(before: Contents, e: Event) {
    match e
    case Served(q, _) => Referenced(before.apis, q)
    case Restored(s) => AllIntegrity(Import(s).apis)
  }

  /** A run from the empty store. */
  ghost predicate IsRun(region: string, trace: seq<Contents>, events: seq<Event>) {
    && |trace| == |events| + 1
    && trace[0] == Contents(map[], map[], map[], map[])
    && forall i | 0 <= i < |events| :: Follows(region, trace[i], events[i], trace[i + 1])
  }

  predicate Honest(trace: seq<Contents>, events: seq<Event>, n: nat)
    requires |trace| > |events| >= n
  {
    forall i | 0 <= i < n :: Resolves(trace[i], events[i])
  }

  lemma EventExact(region: string, before: Contents, e: Event, after: Contents)
    requires Follows(region, before, e, after) && AllIntegrity(before.apis)
    ensures AllIntegrity(after.apis) <==> Resolves(before, e)
  {
    if e.Served? { StepExact(region, before, e.request, e.answer, after); }
  }

  /** Up to the first event with an id that names nothing, in a request or in a snapshot
      taken over, every reference resolves; and that event leaves one that does not. */
  lemma {:induction false} RunIntegrity(region: string, trace: seq<Contents>, events: seq<Event>, n: nat)
    requires IsRun(region, trace, events) && n <= |events|
    ensures Honest(trace, events, n) ==> AllIntegrity(trace[n].apis)
    ensures n < |events| && Honest(trace, events, n) && !Resolves(trace[n], events[n]) ==>
              !AllIntegrity(trace[n + 1].apis)
    decreases n
  {
    if n > 0 {
      RunIntegrity(region, trace, events, n - 1);
      if Honest(trace, events, n) {
        assert Resolves(trace[n - 1], events[n - 1]);
        EventExact(region, trace[n - 1], events[n - 1], trace[n]);
      }
    }
    if n < |events| && Honest(trace, events, n) {
      EventExact(region, trace[n], events[n], trace[n + 1]);
    }
  }

  /** In every reachable state the import of an export is that state. */
  lemma {:induction false} RunSnapshots(region: string, trace: seq<Contents>, events: seq<Event>, n: nat, s: Snapshot)
    requires IsRun(region, trace, events) && n <= |events|
    ensures Keyed(trace[n])
    ensures Exports(trace[n], s) ==> Import(s) == trace[n]
    decreases n
  {
    if n > 0 {
      RunSnapshots(region, trace, events, n - 1, s);
      var e := events[n - 1];
      assert Follows(region, trace[n - 1], e, trace[n]);
      if e.Served? { StepKeyed(region, trace[n - 1], e.request, e.answer, trace[n]); }
    }
    if Exports(trace[n], s) { RoundTrip(trace[n], s); }
  }

  /** Taking over the export of an earlier state of the run leads back to that state. */
  lemma RunRestores(region: string, trace: seq<Contents>, events: seq<Event>, i: nat, n: nat)
    requires IsRun(region, trace, events) && i <= |events| && n < |events|
    requires events[n].Restored? && Exports(trace[i], events[n].snapshot)
    ensures trace[n + 1] == trace[i]
  {
    RunSnapshots(region, trace, events, i, events[n].snapshot);
    assert Follows(region, trace[n], events[n], trace[n + 1]);
  }

  // ---- The handlers ----

  /** A random id of ten lower-case letters and digits. */
  method GenerateId() returns (id: string)
    ensures |id| == 10 && forall i | 0 <= i < 10 :: '0' <= id[i] <= '9' || 'a' <= id[i] <= 'z'
  {
    id := "";
    for n := 0 to 10
      invariant |id| == n && forall i | 0 <= i < n :: '0' <= id[i] <= '9' || 'a' <= id[i] <= 'z'
    {
      var index: int :| 0 <= index < 36;
      id := id + [if index < 10 then '0' + index as char else 'a' + (index - 10) as char];
    }
  }

  /** The stages in `done` have their deployment, the others are as they were. */
  predicate StagesDone(was: map<string, Stage>, now: map<string, Stage>, deployments: map<string, Deployment>,
                       done: set<string>) {
    && now.Keys == was.Keys
    && forall k | k in was :: if k in done then Redeployed(was[k], now[k], deployments) else now[k] == was[k]
  }

  predicate PointedFrom(id: string, stages: map<string, Stage>, done: set<string>) {
    exists k :: k in done && k in stages && stages[k].deploymentId == Some(id)
  }

  /** The deployments there were, and one for each stage in `done`. */
  predicate DeploymentsDone(was: map<string, Deployment>, now: map<string, Deployment>, stages: map<string, Stage>,
                        done: set<string>) {
    && was.Keys <= now.Keys
    && forall d | d in now ::
         (d in was && now[d] == was[d]) || (now[d] == AutoDeployment(d) && PointedFrom(d, stages, done))
  }

  lemma StageDeployed(was: map<string, Stage>, now: map<string, Stage>, deployments: map<string, Deployment>,
                      done: set<string>,
                      name: string, id: string)
    requires StagesDone(was, now, deployments, done) && name in was && name !in done
    ensures StagesDone(was, now[name := now[name].(deploymentId := Some(id))], deployments[id := AutoDeployment(id)],
                       done + {name})
  {}

  lemma DeploymentAdded(was: map<string, Deployment>, now: map<string, Deployment>, stages: map<string, Stage>,
                        done: set<string>,
                        name: string, id: string)
    requires DeploymentsDone(was, now, stages, done) && name in stages && name !in done
    ensures DeploymentsDone(was, now[id := AutoDeployment(id)],
                            stages[name := stages[name].(deploymentId := Some(id))], done + {name})
  {}

  /** The loop over the stages, in any order. */
  method DeployStages(body: ApiBody) returns (after: ApiBody)
    ensures AutoDeployed(body, after)
  {
    var stages, deployments := body.stages, body.deployments;
    var chosen := set k | k in body.stages && body.stages[k].autoDeploy;
    var rest := chosen;
    while rest != {}
      invariant rest <= chosen
      invariant StagesDone(body.stages, stages, deployments, chosen - rest)
      invariant DeploymentsDone(body.deployments, deployments, stages, chosen - rest)
      decreases |rest|
    {
      var name :| name in rest;
      var id := GenerateId();
      StageDeployed(body.stages, stages, deployments, chosen - rest, name, id);
      DeploymentAdded(body.deployments, deployments, stages, chosen - rest, name, id);
      deployments := deployments[id := AutoDeployment(id)];
      if name in stages { stages := stages[name := stages[name].(deploymentId := Some(id))]; }
      assert chosen - (rest - {name}) == (chosen - rest) + {name};
      rest := rest - {name};
    }
    after := body.(stages := stages, deployments := deployments);
    forall d | PointedFrom(d, stages, chosen) ensures PointedAt(d, body.stages, stages) {
      var k :| k in chosen && k in stages && stages[k].deploymentId == Some(d);
      assert body.stages[k].autoDeploy;
    }
  }

  /** The loops that clear references, over the values in any order. */
  method ClearTargets(routes: map<string, Route>, target: string) returns (after: map<string, Route>)
    ensures after == WithoutTarget(routes, target)
  {
    after := routes;
    var rest := routes.Keys;
    while rest != {}
      invariant rest <= routes.Keys && after.Keys == routes.Keys
      invariant forall k | k in routes :: after[k] == if k in rest then routes[k] else WithoutTarget(routes, target)[k]
      decreases |rest|
    {
      var k :| k in rest;
      if after[k].target == Some(target) { after := after[k := after[k].(target := None)]; }
      rest := rest - {k};
    }
  }

  method ClearAuthorizers(routes: map<string, Route>, authorizer: string) returns (after: map<string, Route>)
    ensures after == WithoutAuthorizer(routes, authorizer)
  {
    after := routes;
    var rest := routes.Keys;
    while rest != {}
      invariant rest <= routes.Keys && after.Keys == routes.Keys
      invariant forall k | k in routes ::
                  after[k] == if k in rest then routes[k] else WithoutAuthorizer(routes, authorizer)[k]
      decreases |rest|
    {
      var k :| k in rest;
      if after[k].authorizerId == Some(authorizer) { after := after[k := after[k].(authorizerId := None)]; }
      rest := rest - {k};
    }
  }

  method ClearDeployments(stages: map<string, Stage>, deployment: string) returns (after: map<string, Stage>)
    ensures after == WithoutDeployment(stages, deployment)
  {
    after := stages;
    var rest := stages.Keys;
    while rest != {}
      invariant rest <= stages.Keys && after.Keys == stages.Keys
      invariant forall k | k in stages ::
                  after[k] == if k in rest then stages[k] else WithoutDeployment(stages, deployment)[k]
      decreases |rest|
    {
      var k :| k in rest;
      if after[k].deploymentId == Some(deployment) { after := after[k := after[k].(deploymentId := None)]; }
      rest := rest - {k};
    }
  }

  class ApiGateway {
    const region: string
    const store: ApiStore

    constructor (region: string)
      ensures fresh(store) && this.region == region
      ensures store.View() == Contents(map[], map[], map[], map[])
    {
      this.region := region;
      store := new ApiStore();
    }

    /** Put a changed API back and deploy it. */
    method PutDeployed(apiId: string, body: ApiBody)
      requires apiId in store.apis
      modifies store`apis
      ensures apiId in store.apis && store.apis == SetBody(old(store.apis), apiId, store.apis[apiId].body)
      ensures AutoDeployed(body, store.apis[apiId].body)
    {
      Put(apiId, body);
      var after := DeployStages(body);
      ghost var was := old(store.apis);
      Put(apiId, after);
      assert store.apis == SetBody(was, apiId, after);
    }

    method Put(apiId: string, body: ApiBody)
      requires apiId in store.apis
      modifies store`apis
      ensures store.apis == SetBody(old(store.apis), apiId, body)
    {
      store.apis := store.apis[apiId := store.apis[apiId].(body := body)];
    }

    method CreateApi(name: string, target: Option<string>, key: Option<string>, tags: Tags) returns (r: Answer)
      modifies store
      ensures Step(region, old(store.View()), Request.CreateApi(name, target, key, tags), r, store.View())
    {
      if name == "" { return Err(BadRequest); }
      var id := GenerateId();
      var body := EmptyBody(name);
      if tags != map[] { store.tags := store.tags[ApiArn(region, id) := tags]; }
      store.apis := store.apis[id := Record(id, body)];
      if target.Some? {
        var integrationId := GenerateId();
        var routeId := GenerateId();
        var integration := Integration(integrationId, Some(target.value), true);
        body := body.(integrations := body.integrations[integrationId := integration]);
        var route := Route(routeId, OrElse(key, "$default"), Some(TargetOf(integrationId)), None, true);
        body := body.(routes := body.routes[routeId := route]);
        assert body == QuickBody(name, target.value, key, integrationId, routeId);
        Put(id, body);
      }
      assert store.apis == old(store.apis)[id := Record(id, body)];
      return Ok(id);
    }

    method DeleteApi(id: string) returns (r: Answer)
      modifies store
      ensures Step(region, old(store.View()), Request.DeleteApi(id), r, store.View())
    {
      if id !in store.apis { return Err(NotFound); }
      store.apis := store.apis - {id};
      store.tags := store.tags - {ApiArn(region, id)};
      return Ok("");
    }

    method UpdateApi(apiId: string, newName: Option<string>) returns (r: Answer)
      modifies store`apis
      ensures Answered(old(store.apis), Request.UpdateApi(apiId, newName), r, store.apis)
    {
      if apiId !in store.apis { return Err(NotFound); }
      var body := store.apis[apiId].body;
      if newName.Some? { body := body.(name := newName.value); }
      Put(apiId, body);
      return Ok("");
    }

    method CreateRoute(apiId: string, key: string, target: Option<string>, authorizer: Option<string>)
      returns (r: Answer)
      modifies store`apis
      ensures Answered(old(store.apis), Request.CreateRoute(apiId, key, target, authorizer), r, store.apis)
    {
      if apiId !in store.apis { return Err(NotFound); }
      var body := store.apis[apiId].body;
      var id := GenerateId();
      PutDeployed(apiId, body.(routes := body.routes[id := Route(id, key, target, authorizer, false)]));
      return Ok(id);
    }

    method UpdateRoute(apiId: string, routeId: string, newKey: Option<string>, target: Option<string>,
                       authorizer: Option<string>)
      returns (r: Answer)
      modifies store`apis
      ensures Answered(old(store.apis), Request.UpdateRoute(apiId, routeId, newKey, target, authorizer), r, store.apis)
    {
      if apiId !in store.apis { return Err(NotFound); }
      var body := store.apis[apiId].body;
      if routeId !in body.routes { return Err(NotFound); }
      var route := body.routes[routeId];
      if newKey.Some? { route := route.(routeKey := newKey.value); }
      if target.Some? { route := route.(target := target); }
      if authorizer.Some? { route := route.(authorizerId := authorizer); }
      PutDeployed(apiId, body.(routes := body.routes[routeId := route]));
      return Ok("");
    }

    method DeleteRoute(apiId: string, routeId: string) returns (r: Answer)
      modifies store`apis
      ensures Answered(old(store.apis), Request.DeleteRoute(apiId, routeId), r, store.apis)
    {
      if apiId !in store.apis { return Err(NotFound); }
      var body := store.apis[apiId].body;
      if routeId !in body.routes { return Err(NotFound); }
      PutDeployed(apiId, body.(routes := body.routes - {routeId}));
      return Ok("");
    }

    method CreateIntegration(apiId: string, uri: Option<string>) returns (r: Answer)
      modifies store`apis
      ensures Answered(old(store.apis), Request.CreateIntegration(apiId, uri), r, store.apis)
    {
      if apiId !in store.apis { return Err(NotFound); }
      var body := store.apis[apiId].body;
      var id := GenerateId();
      PutDeployed(apiId, body.(integrations := body.integrations[id := Integration(id, uri, false)]));
      return Ok(id);
    }

    method UpdateIntegration(apiId: string, integrationId: string, uri: Option<string>) returns (r: Answer)
      modifies store`apis
      ensures Answered(old(store.apis), Request.UpdateIntegration(apiId, integrationId, uri), r, store.apis)
    {
      if apiId !in store.apis { return Err(NotFound); }
      var body := store.apis[apiId].body;
      if integrationId !in body.integrations { return Err(NotFound); }
      var integration := body.integrations[integrationId];
      if uri.Some? { integration := integration.(uri := uri); }
      PutDeployed(apiId, body.(integrations := body.integrations[integrationId := integration]));
      return Ok("");
    }

    method DeleteIntegration(apiId: string, integrationId: string) returns (r: Answer)
      modifies store`apis
      ensures Answered(old(store.apis), Request.DeleteIntegration(apiId, integrationId), r, store.apis)
    {
      if apiId !in store.apis { return Err(NotFound); }
      var body := store.apis[apiId].body;
      if integrationId !in body.integrations { return Err(NotFound); }
      var routes := ClearTargets(body.routes, TargetOf(integrationId));
      PutDeployed(apiId, body.(integrations := body.integrations - {integrationId}, routes := routes));
      return Ok("");
    }

    method CreateStage(apiId: string, name: string, deployment: Option<string>, autoDeploy: Option<bool>,
                       description: Option<string>)
      returns (r: Answer)
      modifies store`apis
      ensures Answered(old(store.apis), Request.CreateStage(apiId, name, deployment, autoDeploy, description), r,
                       store.apis)
    {
      if apiId !in store.apis { return Err(NotFound); }
      var body := store.apis[apiId].body;
      if name in body.stages { return Err(Conflict); }
      Put(apiId, body.(stages := body.stages[name := Stage(name, deployment, OrElse(autoDeploy, false), description)]));
      return Ok("");
    }

    method UpdateStage(apiId: string, name: string, deployment: Option<string>, autoDeploy: Option<bool>,
                       description: Option<string>)
      returns (r: Answer)
      modifies store`apis
      ensures Answered(old(store.apis), Request.UpdateStage(apiId, name, deployment, autoDeploy, description), r,
                       store.apis)
    {
      if apiId !in store.apis { return Err(NotFound); }
      var body := store.apis[apiId].body;
      if name !in body.stages { return Err(NotFound); }
      var stage := body.stages[name];
      if description.Some? { stage := stage.(description := description); }
      if autoDeploy.Some? { stage := stage.(autoDeploy := autoDeploy.value); }
      if deployment.Some? { stage := stage.(deploymentId := deployment); }
      Put(apiId, body.(stages := body.stages[name := stage]));
      return Ok("");
    }

    method DeleteStage(apiId: string, name: string) returns (r: Answer)
      modifies store`apis
      ensures Answered(old(store.apis), Request.DeleteStage(apiId, name), r, store.apis)
    {
      if apiId !in store.apis { return Err(NotFound); }
      var body := store.apis[apiId].body;
      if name !in body.stages { return Err(NotFound); }
      Put(apiId, body.(stages := body.stages - {name}));
      return Ok("");
    }

    method CreateDeployment(apiId: string, stage: Option<string>, description: Option<string>) returns (r: Answer)
      modifies store`apis
      ensures Answered(old(store.apis), Request.CreateDeployment(apiId, stage, description), r, store.apis)
    {
      if apiId !in store.apis { return Err(NotFound); }
      var body := store.apis[apiId].body;
      var id := GenerateId();
      body := body.(deployments := body.deployments[id := Deployment(id, description, false)]);
      if stage.Some? {
        if stage.value in body.stages {
          body := body.(stages := body.stages[stage.value := body.stages[stage.value].(deploymentId := Some(id))]);
        }
      }
      Put(apiId, body);
      return Ok(id);
    }

    method DeleteDeployment(apiId: string, deploymentId: string) returns (r: Answer)
      modifies store`apis
      ensures Answered(old(store.apis), Request.DeleteDeployment(apiId, deploymentId), r, store.apis)
    {
      if apiId !in store.apis { return Err(NotFound); }
      var body := store.apis[apiId].body;
      if deploymentId !in body.deployments { return Err(NotFound); }
      var stages := ClearDeployments(body.stages, deploymentId);
      Put(apiId, body.(deployments := body.deployments - {deploymentId}, stages := stages));
      return Ok("");
    }

    method CreateAuthorizer(apiId: string, name: string) returns (r: Answer)
      modifies store`apis
      ensures Answered(old(store.apis), Request.CreateAuthorizer(apiId, name), r, store.apis)
    {
      if apiId !in store.apis { return Err(NotFound); }
      var body := store.apis[apiId].body;
      var id := GenerateId();
      Put(apiId, body.(authorizers := body.authorizers[id := Authorizer(id, name)]));
      return Ok(id);
    }

    method UpdateAuthorizer(apiId: string, authorizerId: string, newName: Option<string>) returns (r: Answer)
      modifies store`apis
      ensures Answered(old(store.apis), Request.UpdateAuthorizer(apiId, authorizerId, newName), r, store.apis)
    {
      if apiId !in store.apis { return Err(NotFound); }
      var body := store.apis[apiId].body;
      if authorizerId !in body.authorizers { return Err(NotFound); }
      var authorizer := body.authorizers[authorizerId];
      if newName.Some? { authorizer := authorizer.(name := newName.value); }
      Put(apiId, body.(authorizers := body.authorizers[authorizerId := authorizer]));
      return Ok("");
    }

    method DeleteAuthorizer(apiId: string, authorizerId: string) returns (r: Answer)
      modifies store`apis
      ensures Answered(old(store.apis), Request.DeleteAuthorizer(apiId, authorizerId), r, store.apis)
    {
      if apiId !in store.apis { return Err(NotFound); }
      var body := store.apis[apiId].body;
      if authorizerId !in body.authorizers { return Err(NotFound); }
      var routes := ClearAuthorizers(body.routes, authorizerId);
      Put(apiId, body.(authorizers := body.authorizers - {authorizerId}, routes := routes));
      return Ok("");
    }

    method CreateDomainName(domain: string, text: string, tags: Tags) returns (r: Answer)
      modifies store
      ensures Step(region, old(store.View()), Request.CreateDomainName(domain, text, tags), r, store.View())
    {
      if domain in store.domainNames { return Err(Conflict); }
      if tags != map[] { store.tags := store.tags[DomainArn(region, domain) := tags]; }
      store.domainNames := store.domainNames[domain := Record(domain, text)];
      return Ok(domain);
    }

    method DeleteDomainName(domain: string) returns (r: Answer)
      modifies store
      ensures Step(region, old(store.View()), Request.DeleteDomainName(domain), r, store.View())
    {
      if domain !in store.domainNames { return Err(NotFound); }
      store.domainNames := store.domainNames - {domain};
      store.tags := store.tags - {DomainArn(region, domain)};
      return Ok("");
    }

    method CreateVpcLink(text: string, tags: Tags) returns (r: Answer)
      modifies store
      ensures Step(region, old(store.View()), Request.CreateVpcLink(text, tags), r, store.View())
    {
      var id := GenerateId();
      if tags != map[] { store.tags := store.tags[LinkArn(region, id) := tags]; }
      store.vpcLinks := store.vpcLinks[id := Record(id, text)];
      return Ok(id);
    }

    method UpdateVpcLink(link: string, newText: Option<string>) returns (r: Answer)
      modifies store
      ensures Step(region, old(store.View()), Request.UpdateVpcLink(link, newText), r, store.View())
    {
      if link !in store.vpcLinks { return Err(NotFound); }
      var record := store.vpcLinks[link];
      if newText.Some? { record := record.(body := newText.value); }
      store.vpcLinks := store.vpcLinks[link := record];
      return Ok("");
    }

    method DeleteVpcLink(link: string) returns (r: Answer)
      modifies store
      ensures Step(region, old(store.View()), Request.DeleteVpcLink(link), r, store.View())
    {
      if link !in store.vpcLinks { return Err(NotFound); }
      store.vpcLinks := store.vpcLinks - {link};
      store.tags := store.tags - {LinkArn(region, link)};
      return Ok("");
    }

    method HandleRecord(q: Request) returns (r: Answer)
      requires Scoped(q)
      modifies store`apis
      ensures Answered(old(store.apis), q, r, store.apis)
    {
      match q {
        case UpdateApi(apiId, newName) => r := UpdateApi(apiId, newName);
        case CreateRoute(apiId, key, target, authorizer) => r := CreateRoute(apiId, key, target, authorizer);
        case UpdateRoute(apiId, id, key, target, authorizer) => r := UpdateRoute(apiId, id, key, target, authorizer);
        case DeleteRoute(apiId, id) => r := DeleteRoute(apiId, id);
        case CreateIntegration(apiId, uri) => r := CreateIntegration(apiId, uri);
        case UpdateIntegration(apiId, id, uri) => r := UpdateIntegration(apiId, id, uri);
        case DeleteIntegration(apiId, id) => r := DeleteIntegration(apiId, id);
        case CreateStage(apiId, name, d, auto, text) => r := CreateStage(apiId, name, d, auto, text);
        case UpdateStage(apiId, name, d, auto, text) => r := UpdateStage(apiId, name, d, auto, text);
        case DeleteStage(apiId, name) => r := DeleteStage(apiId, name);
        case CreateDeployment(apiId, stage, text) => r := CreateDeployment(apiId, stage, text);
        case DeleteDeployment(apiId, id) => r := DeleteDeployment(apiId, id);
        case CreateAuthorizer(apiId, name) => r := CreateAuthorizer(apiId, name);
        case UpdateAuthorizer(apiId, id, newName) => r := UpdateAuthorizer(apiId, id, newName);
        case DeleteAuthorizer(apiId, id) => r := DeleteAuthorizer(apiId, id);
      }
    }

    method Handle(q: Request) returns (r: Answer)
      modifies store
      ensures Step(region, old(store.View()), q, r, store.View())
    {
      match q {
        case CreateApi(name, target, key, tags) => r := CreateApi(name, target, key, tags);
        case DeleteApi(id) => r := DeleteApi(id);
        case CreateDomainName(domain, text, tags) => r := CreateDomainName(domain, text, tags);
        case DeleteDomainName(domain) => r := DeleteDomainName(domain);
        case CreateVpcLink(text, tags) => r := CreateVpcLink(text, tags);
        case UpdateVpcLink(link, newText) => r := UpdateVpcLink(link, newText);
        case DeleteVpcLink(link) => r := DeleteVpcLink(link);
        case _ => r := HandleRecord(q);
      }
    }

    method Act(call: Call) returns (e: Event)
      modifies store
      ensures Answers(e, call) && Follows(region, old(store.View()), e, store.View())
    {
      match call {
        case Ask(q) =>
          var r := Handle(q);
          e := Served(q, r);
        case Restore(s) =>
          store.ImportSnapshot(s);
          e := Restored(s);
      }
    }

    /** Serve any requests and take over any snapshots: the states they go through are a
        run of the store. */
    method Serve(calls: seq<Call>) returns (events: seq<Event>, ghost trace: seq<Contents>)
      requires store.View() == Contents(map[], map[], map[], map[])
      modifies store
      ensures IsRun(region, trace, events) && |events| == |calls|
      ensures forall i | 0 <= i < |events| :: Answers(events[i], calls[i])
      ensures trace[|events|] == store.View()
      ensures Keyed(store.View())
      ensures Honest(trace, events, |events|) ==> AllIntegrity(store.apis)
    {
      events := [];
      trace := [store.View()];
      for i := 0 to |calls|
        invariant |events| == i && IsRun(region, trace, events) && trace[i] == store.View()
        invariant forall k | 0 <= k < i :: Answers(events[k], calls[k])
      {
        var e := Act(calls[i]);
        events := events + [e];
        trace := trace + [store.View()];
      }
      RunIntegrity(region, trace, events, |events|);
      RunSnapshots(region, trace, events, |events|, Snapshot([], [], [], []));
    }
  }
}
