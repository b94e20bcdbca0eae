/** How the API Gateway operations undo, repeat and replace one another. */
module Edits {
  import opened Wrappers
  import opened Storage
  import opened Provider

  /** The request creates the record that `id` names, without pointing a stage at it. */
  predicate Creates(body: ApiBody, q: Request, id: string) {
    match q
    case CreateRoute(_, _, _, _) => id !in body.routes
    case CreateIntegration(_, _) => id !in body.integrations
    case CreateStage(_, name, _, _, _) => name == id && id !in body.stages
    case CreateDeployment(_, forStage, _) =>
      id !in body.deployments && (forStage.Some? ==> forStage.value !in body.stages)
    case CreateAuthorizer(_, _) => id !in body.authorizers
    case _ => false
  }

  /** The request that deletes what this one created. */
  function Deletion(q: Request, id: string): (d: Request)
    requires q.CreateRoute? || q.CreateIntegration? || q.CreateStage? || q.CreateDeployment? || q.CreateAuthorizer?
    ensures Scoped(d)
  {
    match q
    case CreateRoute(apiId, _, _, _) => DeleteRoute(apiId, id)
    case CreateIntegration(apiId, _) => DeleteIntegration(apiId, id)
    case CreateStage(apiId, _, _, _, _) => DeleteStage(apiId, id)
    case CreateDeployment(apiId, _, _) => DeleteDeployment(apiId, id)
    case CreateAuthorizer(apiId, _) => DeleteAuthorizer(apiId, id)
  }

  lemma NothingPoints(body: ApiBody, id: string)
    requires Integrity(body)
    ensures id !in body.integrations ==> WithoutTarget(body.routes, TargetOf(id)) == body.routes
    ensures id !in body.authorizers ==> WithoutAuthorizer(body.routes, id) == body.routes
    ensures id !in body.deployments ==> WithoutDeployment(body.stages, id) == body.stages
  {
    forall k | k in body.routes
      ensures id !in body.integrations ==> body.routes[k].target != Some(TargetOf(id))
      ensures id !in body.authorizers ==> body.routes[k].authorizerId != Some(id)
    {
      assert TargetResolves(body, body.routes[k].target) && AuthorizerResolves(body, body.routes[k].authorizerId);
      assert TargetOf(id)[|TARGET_PREFIX|..] == id;
    }
    forall k | k in body.stages ensures id !in body.deployments ==> body.stages[k].deploymentId != Some(id) {
      assert DeploymentResolves(body, body.stages[k].deploymentId);
    }
  }

  /** Where all references resolve, deleting what was just created leaves the API exactly as
      it was: nothing else was changed, and no reference is cleared. */
  lemma DeleteUndoesCreate(body: ApiBody, q: Request, id: string)
    requires Integrity(body) && Creates(body, q, id)
    ensures Scoped(q) && Edit(body, q, id).Ok?
    ensures Edit(body, q, id).value != body
    ensures Edit(Edit(body, q, id).value, Deletion(q, id), "") == Ok(body)
  {
    NothingPoints(body, id);
    var created := Edit(body, q, id).value;
    match q {
      case CreateRoute(_, _, _, _) => assert created.routes - {id} == body.routes;
      case CreateIntegration(_, _) => assert created.integrations - {id} == body.integrations;
      case CreateStage(_, _, _, _, _) => assert created.stages - {id} == body.stages;
      case CreateDeployment(_, _, _) => assert created.deployments - {id} == body.deployments;
      case CreateAuthorizer(_, _) => assert created.authorizers - {id} == body.authorizers;
    }
  }

  /** Nothing is deleted twice, nor what is not there. */
  lemma DeletedOnce(body: ApiBody, q: Request)
    requires q.DeleteRoute? || q.DeleteIntegration? || q.DeleteStage? || q.DeleteDeployment? || q.DeleteAuthorizer?
    ensures Edit(body, q, "").Ok? <==>
            match q
            case DeleteRoute(_, id) => id in body.routes
            case DeleteIntegration(_, id) => id in body.integrations
            case DeleteStage(_, name) => name in body.stages
            case DeleteDeployment(_, id) => id in body.deployments
            case DeleteAuthorizer(_, id) => id in body.authorizers
            case _ => false
    ensures Edit(body, q, "").Ok? ==> Edit(Edit(body, q, "").value, q, "") == Err(NotFound)
    ensures Edit(body, q, "").Err? ==> Edit(body, q, "").error == NotFound
  {}

  lemma PutTwice<T>(m: map<string, T>, k: string)
    ensures forall x: T, y: T {:trigger m[k := x][k := y]} :: m[k := x][k := y] == m[k := y]
    ensures k in m ==> m[k := m[k]] == m
  {}

  /** An update that gives everything makes the route one created so. */
  lemma UpdatedRoute(body: ApiBody, apiId: string, id: string, key: string, target: Option<string>,
                     authorizer: Option<string>, newKey: string, newTarget: string, newAuthorizer: string)
    ensures var created := Edit(body, CreateRoute(apiId, key, target, authorizer), id);
            && created.Ok? && id in created.value.routes
            && Edit(created.value, UpdateRoute(apiId, id, Some(newKey), Some(newTarget), Some(newAuthorizer)), "")
               == Edit(body, CreateRoute(apiId, newKey, Some(newTarget), Some(newAuthorizer)), id)
            && Edit(created.value, UpdateRoute(apiId, id, Some(key), target, authorizer), "") == created
  {
    PutTwice(body.routes, id);
    PutTwice(Edit(body, CreateRoute(apiId, key, target, authorizer), id).value.routes, id);
  }

  lemma UpdatedStage(body: ApiBody, apiId: string, name: string, deployment: Option<string>, auto: Option<bool>,
                     text: Option<string>, newDeployment: string, newAuto: bool, newText: string)
    requires name !in body.stages
    ensures var created := Edit(body, CreateStage(apiId, name, deployment, auto, text), "");
            && created.Ok? && name in created.value.stages
            && Edit(created.value, UpdateStage(apiId, name, Some(newDeployment), Some(newAuto), Some(newText)), "")
               == Edit(body, CreateStage(apiId, name, Some(newDeployment), Some(newAuto), Some(newText)), "")
            && Edit(created.value, CreateStage(apiId, name, deployment, auto, text), "") == Err(Conflict)
            && (auto.None? ==> created == Edit(body, CreateStage(apiId, name, deployment, Some(false), text), ""))
  {
    PutTwice(body.stages, name);
  }

  lemma UpdatedOthers(body: ApiBody, apiId: string, id: string, uri: Option<string>, newUri: string, name: string,
                      newName: string)
    ensures var created := Edit(body, CreateIntegration(apiId, uri), id);
            && created.Ok? && id in created.value.integrations
            && Edit(created.value, UpdateIntegration(apiId, id, Some(newUri)), "")
               == Edit(body, CreateIntegration(apiId, Some(newUri)), id)
    ensures var created := Edit(body, CreateAuthorizer(apiId, name), id);
            && created.Ok? && id in created.value.authorizers
            && Edit(created.value, UpdateAuthorizer(apiId, id, Some(newName)), "")
               == Edit(body, CreateAuthorizer(apiId, newName), id)
  {
    PutTwice(body.integrations, id);
    PutTwice(body.authorizers, id);
  }

  predicate Updates(q: Request) {
    q.UpdateRoute? || q.UpdateIntegration? || q.UpdateStage? || q.UpdateAuthorizer? || q.UpdateApi?
  }

  /** The update that gives nothing but the record's name. */
  function Silent(q: Request): Request
    requires Updates(q)
  {
    match q
    case UpdateApi(apiId, _) => UpdateApi(apiId, None)
    case UpdateRoute(apiId, id, _, _, _) => UpdateRoute(apiId, id, None, None, None)
    case UpdateIntegration(apiId, id, _) => UpdateIntegration(apiId, id, None)
    case UpdateStage(apiId, name, _, _, _) => UpdateStage(apiId, name, None, None, None)
    case UpdateAuthorizer(apiId, id, _) => UpdateAuthorizer(apiId, id, None)
  }

  /** An update fails only for a record that is not there; one that gives nothing changes
      nothing; one repeated changes nothing more. */
  lemma UpdatesSettle(body: ApiBody, q: Request)
    requires Updates(q)
    ensures var r := Edit(body, q, "");
            if r.Err? then r == Err(NotFound) && Edit(body, Silent(q), "") == Err(NotFound)
            else Edit(body, Silent(q), "") == Ok(body) && Edit(r.value, q, "") == r
  {
    var r := Edit(body, q, "");
    if r.Ok? {
      match q {
        case UpdateRoute(_, id, _, _, _) => PutTwice(body.routes, id);
        case UpdateIntegration(_, id, _) => PutTwice(body.integrations, id);
        case UpdateStage(_, name, _, _, _) => PutTwice(body.stages, name);
        case UpdateAuthorizer(_, id, _) => PutTwice(body.authorizers, id);
        case UpdateApi(_, _) =>
      }
    }
  }

  /** A route can be read back as it was asked for, and the others as they were. */
  lemma RouteStored(body: ApiBody, apiId: string, id: string, key: string, target: Option<string>,
                    authorizer: Option<string>)
    ensures var after := Edit(body, CreateRoute(apiId, key, target, authorizer), id).value;
            && after.routes.Keys == body.routes.Keys + {id}
            && after.routes[id].routeKey == key && after.routes[id].target == target
            && after.routes[id].authorizerId == authorizer
            && forall k | k in body.routes && k != id :: after.routes[k] == body.routes[k]
  {}

  /** Deleting an integration, an authorizer or a deployment leaves no reference to it and
      every other reference as it was. */
  lemma ReferencesCleared(body: ApiBody, q: Request)
    requires (q.DeleteIntegration? || q.DeleteAuthorizer? || q.DeleteDeployment?) && Edit(body, q, "").Ok?
    ensures var after := Edit(body, q, "").value;
            && after.routes.Keys == body.routes.Keys && after.stages.Keys == body.stages.Keys
            && forall k | k in body.routes ::
                 && after.routes[k].routeKey == body.routes[k].routeKey
                 && after.routes[k].target ==
                    (if q.DeleteIntegration? && body.routes[k].target == Some("integrations/" + q.integrationId)
                     then None else body.routes[k].target)
                 && after.routes[k].authorizerId ==
                    (if q.DeleteAuthorizer? && body.routes[k].authorizerId == Some(q.authorizerId) then None
                     else body.routes[k].authorizerId)
    ensures var after := Edit(body, q, "").value;
            forall k | k in body.stages ::
              && after.stages[k].autoDeploy == body.stages[k].autoDeploy
              && after.stages[k].deploymentId ==
                 if q.DeleteDeployment? && body.stages[k].deploymentId == Some(q.deploymentId) then None
                 else body.stages[k].deploymentId
  {}

  /** A new deployment is what the named stage points at, and no other stage. */
  lemma StagePointed(body: ApiBody, apiId: string, id: string, forStage: Option<string>, text: Option<string>)
    ensures var after := Edit(body, CreateDeployment(apiId, forStage, text), id).value;
            && id in after.deployments && after.deployments[id].description == text
            && !after.deployments[id].autoDeployed && after.stages.Keys == body.stages.Keys
            && forall k | k in body.stages ::
                 if forStage == Some(k) then after.stages[k] == body.stages[k].(deploymentId := Some(id))
                 else after.stages[k] == body.stages[k]
  {}

  /** Only changes of routes and integrations deploy: any other operation adds no deployment
      but the one it is asked for. */
  lemma NotDeployed(region: string, before: Contents, q: Request, r: Answer, after: Contents, k: string)
    requires Step(region, before, q, r, after) && k in before.apis && k in after.apis
    requires !q.CreateRoute? && !q.UpdateRoute? && !q.DeleteRoute?
    requires !q.CreateIntegration? && !q.UpdateIntegration? && !q.DeleteIntegration? && !q.CreateApi?
    ensures after.apis[k].body.deployments.Keys <=
            before.apis[k].body.deployments.Keys + if q.CreateDeployment? && r.Ok? then {r.value} else {}
  {}

  /** Deleting an API, a domain name or a VPC link that was just created leaves the store as
      it was, its tags included. */
  lemma StoreUndone(region: string, before: Contents, create: Request, id: string, between: Contents,
                    delete: Request, r: Answer, after: Contents)
    requires Step(region, before, create, Ok(id), between) && Step(region, between, delete, r, after)
    requires match create
             case CreateApi(_, _, _, _) =>
               delete == DeleteApi(id) && id !in before.apis && ApiArn(region, id) !in before.tags
             case CreateDomainName(_, _, _) =>
               delete == DeleteDomainName(id) && id !in before.domainNames && DomainArn(region, id) !in before.tags
             case CreateVpcLink(_, _) =>
               delete == DeleteVpcLink(id) && id !in before.vpcLinks && LinkArn(region, id) !in before.tags
             case _ => false
    ensures r == Ok("") && after == before && between != before
  {
    if create.CreateApi? {
      assert between.apis - {id} == before.apis && between.tags - {ApiArn(region, id)} == before.tags;
    } else if create.CreateDomainName? {
      assert between.domainNames - {id} == before.domainNames;
      assert between.tags - {DomainArn(region, id)} == before.tags;
    } else {
      assert between.vpcLinks - {id} == before.vpcLinks && between.tags - {LinkArn(region, id)} == before.tags;
    }
  }

  /** An API created with a target has one route, by default the default one, to one
      integration, with that target; without one it has neither. */
  predicate Quick(q: Request, body: ApiBody)
    requires q.CreateApi?
  {
    && body.name == q.name && body.stages == map[] && body.deployments == map[] && body.authorizers == map[]
    && |body.routes| == |body.integrations| == (if q.apiTarget.Some? then 1 else 0)
    && (forall i | i in body.integrations :: body.integrations[i].uri == q.apiTarget)
    && forall k | k in body.routes ::
         && body.routes[k].routeKey == (if q.quickKey.Some? then q.quickKey.value else "$default")
         && exists i :: i in body.integrations && body.routes[k].target == Some("integrations/" + i)
  }

  lemma QuickBodies(q: Request, body: ApiBody)
    requires q.CreateApi? && NewBody(q, body)
    ensures Quick(q, body)
  {
    if q.apiTarget.Some? {
      var i, k :| body == QuickBody(q.name, q.apiTarget.value, q.quickKey, i, k);
      assert body.routes.Keys == {k} && body.integrations.Keys == {i};
      assert |body.routes.Keys| == 1 && |body.integrations.Keys| == 1;
    }
  }

  lemma QuickCreated(region: string, before: Contents, q: Request, r: Answer, after: Contents)
    requires q.CreateApi? && Step(region, before, q, r, after)
    ensures r.Ok? <==> q.name != ""
    ensures r.Ok? ==> r.value in after.apis && Quick(q, after.apis[r.value].body)
  {
    if r.Ok? { QuickBodies(q, after.apis[r.value].body); }
  }

  /** The tags of a new record stand under its ARN, and only there. */
  lemma TagsStored(region: string, before: Contents, q: Request, id: string, after: Contents, arn: string)
    requires Step(region, before, q, Ok(id), after)
    requires q.CreateApi? || q.CreateDomainName? || q.CreateVpcLink?
    requires arn == "arn:aws:apigateway:" + region +
                    (if q.CreateApi? then "::/apis/"
                     else if q.CreateVpcLink? then "::/vpclinks/" else "::/domainnames/")
                    + id
    ensures q.tags != map[] ==> arn in after.tags && after.tags[arn] == q.tags
    ensures forall k | k in before.tags && k != arn :: k in after.tags && after.tags[k] == before.tags[k]
    ensures q.tags == map[] ==> after.tags == before.tags
  {}
}
