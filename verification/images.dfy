/** The image pages (`samosval/routes/image_routes.py`): the detail page's
    existence check and creating a deployment from an image. */
module ImageRoutes {
  import opened Common
  import opened Records

  /** An image joined to its request, with the deployments made from it. */
  datatype ImagePage = ImagePage(image: Image, req: ImageRequest, deployments: seq<Deployment>)

  /** `view_image`: 404 unless the image and its request both exist;
      otherwise every deployment of the image. */
  function ViewImage(db: Db, id: int): (r: Outcome<ImagePage>)
    ensures r.Fail? <==> FindImage(db.images, id).None? || FindRequest(db.requests, FindImage(db.images, id).value.requestId).None?
    ensures r.Fail? ==> r.code == 404
    ensures r.Ok? ==>
              && r.value.image == FindImage(db.images, id).value
              && r.value.req in db.requests && r.value.req.id == r.value.image.requestId
              && forall d :: multiset(r.value.deployments)[d] == if d.imageId == id then multiset(db.deployments)[d] else 0
  {
    match FindImage(db.images, id)
    case None => Fail(404)
    case Some(img) =>
      match FindRequest(db.requests, img.requestId)
      case None => Fail(404)
      case Some(req) =>
        var ofImage := (d: Deployment) => d.imageId == id;
        FilterSpec(db.deployments, ofImage);
        Ok(ImagePage(img, req, Filter(db.deployments, ofImage)))
  }

  /** The deployment form, each field `None` when absent; replicas arrive
      converted, `None` standing for an absent or empty field. */
  datatype DeploymentForm = DeploymentForm(
    name: Option<string>,
    environment: Option<string>,
    replicas: Option<int>,
    ports: Option<string>)

  /** `f"deploy-{image_id}-{current_user.id}"` */
  function DefaultName(imageId: int, userId: int): string {
    "deploy-" + IntToString(imageId) + "-" + IntToString(userId)
  }

  /** The row `create_deployment_from_image` inserts: a blank name gets the
      default, the environment is taken as sent (default "dev"), replicas
      default to 1, blank ports become None; the deployment starts in
      deploying with both flags clear. */
  function NewDeployment(id: int, imageId: int, userId: int, f: DeploymentForm, now: string): (d: Deployment)
    ensures d.id == id && d.imageId == imageId && d.updatedAt == now
    ensures d.status == Deploying && !d.stoppedByOperator && !d.needsRestart
    ensures d.name != ""
    ensures Strip(f.name.GetOr("")) != "" ==> d.name == Strip(f.name.GetOr(""))
    ensures Strip(f.name.GetOr("")) == "" ==> d.name == DefaultName(imageId, userId)
    ensures d.environment == (if f.environment.Some? then f.environment.value else "dev")
    ensures d.replicas == (if f.replicas.Some? then f.replicas.value else 1)
    ensures d.ports.None? <==> Strip(f.ports.GetOr("")) == ""
    ensures d.ports.Some? ==> d.ports.value == Strip(f.ports.GetOr(""))
  {
    var name := Strip(f.name.GetOr(""));
    var ports := Strip(f.ports.GetOr(""));
    Deployment(
      id,
      imageId,
      if name == "" then DefaultName(imageId, userId) else name,
      f.environment.GetOr("dev"),
      Deploying,
      f.replicas.GetOr(1),
      if ports == "" then None else Some(ports),
      false,
      false,
      now)
  }

  /** `create_deployment_from_image`: staff only; 404 when the image row is
      missing (the request is not consulted); otherwise one new deployment
      with a fresh id. */
  function CreateDeployment(db: Db, user: User, imageId: int, f: DeploymentForm, now: string): (r: Outcome<(Db, int)>)
    ensures r == Fail(403) <==> !IsStaff(user.role)
    ensures r == Fail(404) <==> IsStaff(user.role) && FindImage(db.images, imageId).None?
    ensures r.Fail? ==> r.code in {403, 404}
    ensures r.Ok? ==>
              var (db', id) := r.value;
              var n := |db.deployments|;
              && db' == db.(deployments := db'.deployments)
              && |db'.deployments| == n + 1 && db'.deployments[..n] == db.deployments
              && (forall i :: 0 <= i < n ==> db.deployments[i].id != id)
              && db'.deployments[n] == NewDeployment(id, imageId, user.id, f, now)
  {
    if !IsStaff(user.role) then Fail(403)
    else if FindImage(db.images, imageId).None? then Fail(404)
    else
      var id := NextKey(db.deployments, DeploymentKey);
      var ds := db.deployments + [NewDeployment(id, imageId, user.id, f, now)];
      assert ds[..|db.deployments|] == db.deployments;
      Ok((db.(deployments := ds), id))
  }

  /** Creating a deployment keeps deployment ids distinct, and the new row
      refers to an existing image. */
  lemma CreateDeploymentKeepsKeys(db: Db, user: User, imageId: int, f: DeploymentForm, now: string)
    requires UniqueKeys(db.deployments, DeploymentKey)
    requires CreateDeployment(db, user, imageId, f, now).Ok?
    ensures var db' := CreateDeployment(db, user, imageId, f, now).value.0;
            && UniqueKeys(db'.deployments, DeploymentKey)
            && FindImage(db'.images, db'.deployments[|db.deployments|].imageId).Some?
  {
    var db' := CreateDeployment(db, user, imageId, f, now).value.0;
    assert db'.deployments == db.deployments + [db'.deployments[|db.deployments|]];
    InsertKeepsUnique(db.deployments, db'.deployments[|db.deployments|], DeploymentKey);
  }

  /** The default name is the dash-join of "deploy" and the two ids. */
  lemma DefaultNameIsJoin(a: nat, b: nat)
    ensures DefaultName(a, b) == Join(["deploy", NatToString(a), NatToString(b)], '-')
  {
    var x, y := NatToString(a), NatToString(b);
    var parts := ["deploy", x, y];
    assert parts[1..] == [x, y];
    assert [x, y][1..] == [y];
    assert Join(parts[1..], '-') == x + ['-'] + y;
    assert "deploy" + ['-'] == "deploy-";
    assert Join(parts, '-') == "deploy-" + (x + ['-'] + y);
    assert "deploy-" + (x + ['-'] + y) == "deploy-" + x + "-" + y;
  }

  /** Default names of distinct (image, user) pairs differ. */
  lemma DefaultNamesDistinct(a1: nat, b1: nat, a2: nat, b2: nat)
    requires DefaultName(a1, b1) == DefaultName(a2, b2)
    ensures a1 == a2 && b1 == b2
  {
    var p1 := ["deploy", NatToString(a1), NatToString(b1)];
    var p2 := ["deploy", NatToString(a2), NatToString(b2)];
    DefaultNameIsJoin(a1, b1);
    DefaultNameIsJoin(a2, b2);
    assert forall i :: 0 <= i < 3 ==> '-' !in p1[i] && '-' !in p2[i];
    SplitJoin(p1, '-');
    SplitJoin(p2, '-');
    assert p1 == p2;
    NatToStringInjective(a1, a2);
    NatToStringInjective(b1, b2);
  }
}
