/** The deployment pages and controls (`samosval/routes/deployment_routes.py`):
    list and detail visibility, the manage guard, and start, stop, restart
    and delete. Every query joins the deployment to its image and request,
    so a deployment whose image or request row is gone is "not found". */
module DeploymentRoutes {
  import opened Common
  import opened Records
  import opened Access
  import opened Telemetry

  /** One row of the deployments/images/image_requests join. */
  datatype Joined = Joined(d: Deployment, image: Image, req: ImageRequest)

  /** The join for one deployment id. */
  function JoinDeployment(db: Db, id: int): (r: Option<Joined>)
    ensures r.None? <==> FindDeployment(db.deployments, id).None? || RequestOfDeployment(db, FindDeployment(db.deployments, id).value).None?
    ensures r.Some? ==> && r.value.d in db.deployments && r.value.d.id == id
                        && r.value.image in db.images && r.value.image.id == r.value.d.imageId
                        && r.value.req in db.requests && r.value.req.id == r.value.image.requestId
  {
    match FindDeployment(db.deployments, id)
    case None => None
    case Some(d) =>
      match FindImage(db.images, d.imageId)
      case None => None
      case Some(img) =>
        match FindRequest(db.requests, img.requestId)
        case None => None
        case Some(req) => Some(Joined(d, img, req))
  }

  /** The visibility test written out inline in `list_deployments` and
      `view_deployment`, over the joined request's columns. */
  function InlineCanView(user: User, req: ImageRequest): bool {
    var allowed :=
      if user.role == Admin || user.role == Operator then true
      else if user.role == Developer then
        if user.id in {req.ownerId, req.createdBy} then true
        else user.username in NormalizeCollaborators(req.collaborators)
      else false;
    allowed
  }

  /** The inline copy agrees with `can_view_request` on every user and row. */
  lemma InlineViewIsCanView(user: User, req: ImageRequest)
    ensures InlineCanView(user, req) == CanViewRequest(user, OwnershipOf(req))
  {
  }

  /** The rows of the list page's join, in table order. */
  function JoinedRows(db: Db, ds: seq<Deployment>): (rows: seq<Joined>)
    ensures forall i :: 0 <= i < |rows| ==> rows[i].d in ds && rows[i].image in db.images && rows[i].req in db.requests
    decreases |ds|
  {
    if |ds| == 0 then []
    else
      var rest := JoinedRows(db, ds[1..]);
      match FindImage(db.images, ds[0].imageId)
      case None => rest
      case Some(img) =>
        match FindRequest(db.requests, img.requestId)
        case None => rest
        case Some(req) => [Joined(ds[0], img, req)] + rest
  }

  /** `list_deployments`: the joined rows the user may see. */
  function ListDeployments(db: Db, user: User): (r: seq<Joined>)
    ensures forall x :: multiset(r)[x] ==
              if CanViewRequest(user, OwnershipOf(x.req)) then multiset(JoinedRows(db, db.deployments))[x] else 0
    ensures IsSubsequence(r, JoinedRows(db, db.deployments))
  {
    var keep := (x: Joined) => InlineCanView(user, x.req);
    FilterSpec(JoinedRows(db, db.deployments), keep);
    Filter(JoinedRows(db, db.deployments), keep)
  }

  /** The detail page shows at most this many recent log lines. */
  const DetailLogLimit := 200

  datatype DeploymentPage = DeploymentPage(row: Joined, recentLogs: seq<string>, canControl: bool)

  /** `view_deployment`: 404 before any check, then 403 for a user who may
      not see the owning request, else the page. */
  function ViewDeployment(db: Db, s: Store, user: User, id: int): (r: Outcome<DeploymentPage>)
    ensures r == Fail(404) <==> JoinDeployment(db, id).None?
    ensures r == Fail(403) <==> JoinDeployment(db, id).Some? && !CanViewRequest(user, OwnershipOf(JoinDeployment(db, id).value.req))
    ensures r.Fail? ==> r.code in {403, 404}
    ensures r.Ok? ==>
              var logs := LogsOf(s, id);
              var page := r.value;
              && page.row == JoinDeployment(db, id).value
              && |page.recentLogs| == (if |logs| <= DetailLogLimit then |logs| else DetailLogLimit)
              && page.recentLogs == logs[|logs| - |page.recentLogs|..]
              && page.canControl == CanManageDeployment(user, page.row.d.stoppedByOperator, page.row.req.ownerId)
  {
    match JoinDeployment(db, id)
    case None => Fail(404)
    case Some(row) =>
      InlineViewIsCanView(user, row.req);
      if !InlineCanView(user, row.req) then Fail(403)
      else Ok(DeploymentPage(row, GetRecentLogs(s, id, DetailLogLimit),
                             CanManageDeployment(user, row.d.stoppedByOperator, row.req.ownerId)))
  }

  /** `_ensure_can_manage`: 404 when the join finds nothing, 403 when
      `can_manage_deployment` refuses, else the joined row. */
  function EnsureCanManage(db: Db, user: User, id: int): (r: Outcome<Joined>)
    ensures r == Fail(404) <==> JoinDeployment(db, id).None?
    ensures r == Fail(403) <==> JoinDeployment(db, id).Some? &&
                                !CanManageDeployment(user, JoinDeployment(db, id).value.d.stoppedByOperator, JoinDeployment(db, id).value.req.ownerId)
    ensures r.Ok? ==> r.value == JoinDeployment(db, id).value
  {
    match JoinDeployment(db, id)
    case None => Fail(404)
    case Some(row) =>
      if !CanManageDeployment(user, row.d.stoppedByOperator, row.req.ownerId) then Fail(403) else Ok(row)
  }

  /** The guard passes only for staff, or for the owning developer of a
      deployment no operator stopped. */
  lemma ManageGuardPasses(db: Db, user: User, id: int)
    requires EnsureCanManage(db, user, id).Ok?
    ensures var row := EnsureCanManage(db, user, id).value;
            IsStaff(user.role) || (user.role == Developer && user.id == row.req.ownerId && !row.d.stoppedByOperator)
  {
  }

  /** The row written by start and restart. */
  function Relaunched(d: Deployment, now: string): Deployment {
    d.(status := Deploying, updatedAt := now, needsRestart := false)
  }

  /** The row written by stop: the flag records whether staff stopped it. */
  function StopRow(d: Deployment, user: User, now: string): Deployment {
    d.(status := Stopped, updatedAt := now, stoppedByOperator := IsStaff(user.role))
  }

  /** The database after a successful start or restart of `id`: every row
      with that id is deploying again with the restart flag cleared and the
      operator flag kept, every other row and every other table is as it
      was, and one audit record is appended. */
  ghost predicate RelaunchedBy(db: Db, db': Db, user: User, id: int, now: string, action: string, details: string) {
    && db' == db.(deployments := db'.deployments, audit := db'.audit)
    && db'.audit == db.audit + [AuditEvent(Some(user.id), action, Some(id), details)]
    && |db'.deployments| == |db.deployments|
    && forall j :: 0 <= j < |db.deployments| ==>
         var d, d' := db.deployments[j], db'.deployments[j];
         if d.id == id then
           && d'.status == Deploying && !d'.needsRestart && d'.updatedAt == now
           && d'.stoppedByOperator == d.stoppedByOperator
           && d' == d.(status := d'.status, needsRestart := d'.needsRestart, updatedAt := d'.updatedAt)
         else d' == d
  }

  /** The common shape of start and restart. */
  function Relaunch(db: Db, user: User, id: int, now: string, action: string, details: string): (r: Outcome<Db>)
    ensures r.Fail? <==> EnsureCanManage(db, user, id).Fail?
    ensures r.Fail? ==> r == Fail(EnsureCanManage(db, user, id).code)
    ensures r.Ok? ==> RelaunchedBy(db, r.value, user, id, now, action, details)
  {
    match EnsureCanManage(db, user, id)
    case Fail(c) => Fail(c)
    case Ok(_) =>
      var ds := UpdateWhere(db.deployments, id, DeploymentKey, (d: Deployment) => Relaunched(d, now));
      Ok(Audit(db.(deployments := ds), Some(user.id), action, Some(id), details))
  }

  /** `start_deployment` */
  function Start(db: Db, user: User, id: int, now: string): (r: Outcome<Db>)
    ensures r.Fail? <==> EnsureCanManage(db, user, id).Fail?
    ensures r.Fail? ==> r == Fail(EnsureCanManage(db, user, id).code)
    ensures r.Ok? ==> RelaunchedBy(db, r.value, user, id, now, "deployment_start", "Deployment " + IntToString(id) + " start requested")
  {
    Relaunch(db, user, id, now, "deployment_start", "Deployment " + IntToString(id) + " start requested")
  }

  /** `restart_deployment`: start under another name. It fails exactly when
      start does, and otherwise leaves the database start leaves but for
      the audit record it appends. */
  function Restart(db: Db, user: User, id: int, now: string): (r: Outcome<Db>)
    ensures r.Fail? <==> Start(db, user, id, now).Fail?
    ensures r.Fail? ==> r == Start(db, user, id, now)
    ensures r.Ok? ==> r.value == Start(db, user, id, now).value.(audit := r.value.audit)
    ensures r.Ok? ==> RelaunchedBy(db, r.value, user, id, now, "deployment_restart", "Deployment " + IntToString(id) + " restart requested")
  {
    Relaunch(db, user, id, now, "deployment_restart", "Deployment " + IntToString(id) + " restart requested")
  }

  /** Start and restart are the same operation on the deployments table;
      only the audit record tells them apart. After either, the deployment
      reads back deploying, with the restart flag cleared and the operator
      flag as it was. */
  lemma StartIsRestart(db: Db, user: User, id: int, now: string)
    requires Start(db, user, id, now).Ok?
    ensures Restart(db, user, id, now).Ok?
    ensures Restart(db, user, id, now).value.deployments == Start(db, user, id, now).value.deployments
    ensures var d := FindDeployment(Start(db, user, id, now).value.deployments, id);
            && d.Some? && d.value.status == Deploying && !d.value.needsRestart
            && d.value.stoppedByOperator == FindDeployment(db.deployments, id).value.stoppedByOperator
  {
    var a := Start(db, user, id, now).value.deployments;
    var b := Restart(db, user, id, now).value.deployments;
    assert a == b by {
      forall j | 0 <= j < |a| ensures a[j] == b[j] {
        var d := db.deployments[j];
        if d.id == id {
          assert a[j] == d.(status := Deploying, needsRestart := false, updatedAt := now);
        }
      }
    }
    assert JoinDeployment(db, id).Some?;
    FindSameKeys(db.deployments, a, id, DeploymentKey);
    var k := Find(db.deployments, id, DeploymentKey).value;
    assert FindDeployment(a, id) == Some(a[k]);
  }

  /** `stop_deployment` */
  function Stop(db: Db, user: User, id: int, now: string): (r: Outcome<Db>)
    ensures r.Fail? <==> EnsureCanManage(db, user, id).Fail?
    ensures r.Fail? ==> r == Fail(EnsureCanManage(db, user, id).code)
    ensures r.Ok? ==>
              && r.value == db.(deployments := r.value.deployments, audit := r.value.audit)
              && r.value.audit == db.audit + [AuditEvent(Some(user.id), "deployment_stop", Some(id), "Deployment " + IntToString(id) + " stopped")]
              && |r.value.deployments| == |db.deployments|
              && forall j :: 0 <= j < |db.deployments| ==>
                   var d, d' := db.deployments[j], r.value.deployments[j];
                   if d.id == id then
                     && d'.status == Stopped && d'.updatedAt == now
                     && (d'.stoppedByOperator <==> user.role in {Admin, Operator})
                     && d' == d.(status := d'.status, updatedAt := d'.updatedAt, stoppedByOperator := d'.stoppedByOperator)
                   else d' == d
  {
    match EnsureCanManage(db, user, id)
    case Fail(c) => Fail(c)
    case Ok(_) =>
      var ds := UpdateWhere(db.deployments, id, DeploymentKey, (d: Deployment) => StopRow(d, user, now));
      Ok(Audit(db.(deployments := ds), Some(user.id), "deployment_stop", Some(id), "Deployment " + IntToString(id) + " stopped"))
  }

  /** `delete_deployment`: the rows with that id go, all others stay in
      order. */
  function Delete(db: Db, user: User, id: int): (r: Outcome<Db>)
    ensures r.Fail? <==> EnsureCanManage(db, user, id).Fail?
    ensures r.Fail? ==> r == Fail(EnsureCanManage(db, user, id).code)
    ensures r.Ok? ==>
              && r.value == db.(deployments := r.value.deployments, audit := r.value.audit)
              && r.value.audit == db.audit + [AuditEvent(Some(user.id), "deployment_delete", Some(id), "Deployment " + IntToString(id) + " deleted")]
              && (forall x :: multiset(r.value.deployments)[x] == if x.id == id then 0 else multiset(db.deployments)[x])
              && IsSubsequence(r.value.deployments, db.deployments)
  {
    match EnsureCanManage(db, user, id)
    case Fail(c) => Fail(c)
    case Ok(_) =>
      var ds := DeleteWhere(db.deployments, id, DeploymentKey);
      Ok(Audit(db.(deployments := ds), Some(user.id), "deployment_delete", Some(id), "Deployment " + IntToString(id) + " deleted"))
  }

  /** A stop that succeeds never clears the operator flag: a developer's
      stop, the only one that writes 0, is only allowed while the flag is
      already 0. */
  lemma StopKeepsOperatorFlag(db: Db, user: User, id: int, now: string)
    requires UniqueKeys(db.deployments, DeploymentKey)
    requires Stop(db, user, id, now).Ok?
    ensures forall j :: 0 <= j < |db.deployments| && db.deployments[j].stoppedByOperator ==>
              Stop(db, user, id, now).value.deployments[j].stoppedByOperator
  {
    var ds := db.deployments;
    var row := EnsureCanManage(db, user, id).value;
    forall j | 0 <= j < |ds| && ds[j].stoppedByOperator && ds[j].id == id
      ensures IsStaff(user.role)
    {
      var k := Find(ds, id, DeploymentKey).value;
      SameKeySameRow(ds, DeploymentKey, j, k);
    }
  }
}
