/** The persistent entities of the platform (users, image requests, builds,
    images, deployments, alerts, audit events) and the database that holds
    them. Every table is a sequence of rows in rowid order, which is the
    order SQLite returns rows in when a query has no ORDER BY. */
module Records {
  import opened Common

  /** User roles. Role strings outside the three known ones are kept as
      `Other` so that every access rule has to say what it does with them. */
  datatype Role = Admin | Operator | Developer | Other(name: string)

  function ParseRole(s: string): (r: Role)
    ensures r.Other? <==> s !in {"admin", "operator", "developer"}
  {
    if s == "admin" then Admin
    else if s == "operator" then Operator
    else if s == "developer" then Developer
    else Other(s)
  }

  function RoleName(r: Role): string {
    match r
    case Admin => "admin"
    case Operator => "operator"
    case Developer => "developer"
    case Other(n) => n
  }

  /** Role strings survive a parse and render unchanged. */
  lemma RoleNameParse(s: string)
    ensures RoleName(ParseRole(s)) == s
  {
  }

  /** `Other` never carries one of the three known names. Roles are made
      only by `ParseRole`, which keeps this; the source compares the raw
      string, and on such roles the comparison and the constructor agree. */
  predicate CanonicalRole(r: Role) {
    r.Other? ==> r.name !in {"admin", "operator", "developer"}
  }

  /** Parsing makes only such roles, and on them render then parse is the
      identity. */
  lemma RoleParseName(r: Role, s: string)
    ensures CanonicalRole(ParseRole(s))
    ensures CanonicalRole(r) ==> ParseRole(RoleName(r)) == r
  {
  }

  /** `role in {"admin", "operator"}` */
  predicate IsStaff(r: Role) {
    r == Admin || r == Operator
  }

  datatype User = User(id: int, username: string, passwordHash: string, role: Role, isActive: bool, createdAt: string)

  datatype RequestStatus = Draft | Submitted | InReview | Approved | Rejected

  /** The status strings `change_status` accepts. */
  function ParseRequestStatus(s: string): (r: Option<RequestStatus>)
    ensures r.Some? <==> s in {"draft", "submitted", "in_review", "approved", "rejected"}
  {
    if s == "draft" then Some(Draft)
    else if s == "submitted" then Some(Submitted)
    else if s == "in_review" then Some(InReview)
    else if s == "approved" then Some(Approved)
    else if s == "rejected" then Some(Rejected)
    else None
  }

  /** The status column's text. */
  function StatusName(s: RequestStatus): string {
    match s
    case Draft => "draft"
    case Submitted => "submitted"
    case InReview => "in_review"
    case Approved => "approved"
    case Rejected => "rejected"
  }

  /** Every status is stored as text `change_status` accepts and reads back
      as the same status. */
  lemma StatusNameParse(s: RequestStatus)
    ensures ParseRequestStatus(StatusName(s)) == Some(s)
  {
  }

  datatype ImageRequest = ImageRequest(
    id: int,
    imageName: string,
    repoUrl: string,
    repoBranch: string,
    updateMode: string,
    targetCommit: Option<string>,
    baseImage: string,
    runCommands: Option<string>,
    entrypoint: Option<string>,
    ramMb: int,
    vcpu: real,
    versionTag: string,
    ownerId: int,
    createdBy: int,
    collaborators: Option<string>,
    status: RequestStatus,
    createdAt: string,
    updatedAt: string)

  datatype BuildStatus = Queued | Building | Success | Failed

  datatype Build = Build(
    id: int,
    requestId: int,
    imageId: Option<int>,
    status: BuildStatus,
    log: string,
    errorMessage: Option<string>,
    builtBy: int,
    createdAt: string)

  datatype Image = Image(id: int, requestId: int, name: string, version: string, tag: string, createdAt: string)

  datatype DeploymentStatus = Deploying | Running | Stopped | DeploymentFailed

  datatype Deployment = Deployment(
    id: int,
    imageId: int,
    name: string,
    environment: string,
    status: DeploymentStatus,
    replicas: int,
    ports: Option<string>,
    stoppedByOperator: bool,
    needsRestart: bool,
    updatedAt: string)

  datatype Alert = Alert(id: int, alertType: string, targetId: int, message: string, resolved: bool, createdAt: string)

  /** One `write_audit` record. */
  datatype AuditEvent = AuditEvent(userId: Option<int>, action: string, targetId: Option<int>, details: string)

  datatype Db = Db(
    users: seq<User>,
    requests: seq<ImageRequest>,
    builds: seq<Build>,
    images: seq<Image>,
    deployments: seq<Deployment>,
    alerts: seq<Alert>,
    audit: seq<AuditEvent>)

  // Primary keys of each table.
  function UserKey(u: User): int { u.id }
  function RequestKey(r: ImageRequest): int { r.id }
  function BuildKey(b: Build): int { b.id }
  function ImageKey(i: Image): int { i.id }
  function DeploymentKey(d: Deployment): int { d.id }
  function AlertKey(a: Alert): int { a.id }

  function FindUser(db: Db, id: int): Option<User> {
    match Find(db.users, id, UserKey)
    case Some(i) => Some(db.users[i])
    case None => None
  }

  function Username(u: User): string { u.username }

  /** `SELECT ... FROM users WHERE username = ?` (first row). */
  function FindUserByName(users: seq<User>, name: string): Option<User> {
    FindFirst(users, name, Username)
  }

  function FindRequest(requests: seq<ImageRequest>, id: int): (r: Option<ImageRequest>)
    ensures r.Some? ==> r.value in requests && r.value.id == id
    ensures r.None? <==> forall i :: 0 <= i < |requests| ==> requests[i].id != id
  {
    match Find(requests, id, RequestKey)
    case Some(i) => Some(requests[i])
    case None => None
  }

  function FindImage(images: seq<Image>, id: int): (r: Option<Image>)
    ensures r.Some? ==> r.value in images && r.value.id == id
    ensures r.None? <==> forall i :: 0 <= i < |images| ==> images[i].id != id
  {
    match Find(images, id, ImageKey)
    case Some(i) => Some(images[i])
    case None => None
  }

  function FindBuild(builds: seq<Build>, id: int): (r: Option<Build>)
    ensures r.Some? ==> r.value in builds && r.value.id == id
    ensures r.None? <==> forall i :: 0 <= i < |builds| ==> builds[i].id != id
  {
    match Find(builds, id, BuildKey)
    case Some(i) => Some(builds[i])
    case None => None
  }

  function FindDeployment(deployments: seq<Deployment>, id: int): (r: Option<Deployment>)
    ensures r.Some? ==> r.value in deployments && r.value.id == id
    ensures r.None? <==> forall i :: 0 <= i < |deployments| ==> deployments[i].id != id
  {
    match Find(deployments, id, DeploymentKey)
    case Some(i) => Some(deployments[i])
    case None => None
  }

  /** The ids occurring in a list of deployment rows. */
  function DeploymentIds(ds: seq<Deployment>): (ids: set<int>)
    ensures forall j :: 0 <= j < |ds| ==> ds[j].id in ids
    ensures forall k :: k in ids ==> exists j :: 0 <= j < |ds| && ds[j].id == k
  {
    if |ds| == 0 then {}
    else
      var rest := DeploymentIds(ds[1..]);
      assert forall j :: 1 <= j < |ds| ==> ds[j] == ds[1..][j - 1];
      {ds[0].id} + rest
  }

  /** The request a deployment traces back to through its image: the
      `JOIN images i ON d.image_id = i.id JOIN image_requests r ON
      i.request_id = r.id` every deployment route uses. */
  function RequestOfDeployment(db: Db, d: Deployment): (r: Option<ImageRequest>)
    ensures r.Some? ==> r.value in db.requests
  {
    match FindImage(db.images, d.imageId)
    case None => None
    case Some(img) => FindRequest(db.requests, img.requestId)
  }

  /** Appends an audit record: the new record comes last and the earlier
      ones keep their order; no other table changes. */
  function Audit(db: Db, userId: Option<int>, action: string, targetId: Option<int>, details: string): (r: Db)
    ensures |r.audit| == |db.audit| + 1 && r.audit[..|db.audit|] == db.audit
    ensures r.audit[|db.audit|] == AuditEvent(userId, action, targetId, details)
    ensures r == db.(audit := r.audit)
  {
    db.(audit := db.audit + [AuditEvent(userId, action, targetId, details)])
  }
}
