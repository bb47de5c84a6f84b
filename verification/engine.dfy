/** The lifecycle simulation engine (`samosval/simulator/engine.py`). One
    tick runs three phases in order: builds, deployments, runtime telemetry.
    Every random choice of the original is an argument here: an oracle per
    row id says how many log lines to write, which catalogue message to
    pick, whether a build or deployment concludes and whether it succeeds,
    and how far cpu and ram move. Timestamps are opaque text supplied with
    the tick. */
module Engine {
  import opened Common
  import opened Records
  import opened Telemetry

  // ---------------------------------------------------------------------
  // Catalogues and oracle inputs
  // ---------------------------------------------------------------------

  /** The build-progress messages `_random_build_log_line` picks from. */
  datatype BuildMessage = Cloning | CheckingOut | DockerStep | Installing | Optimizing | Pushing

  function BuildMessageText(m: BuildMessage): string {
    match m
    case Cloning => "Cloning repository..."
    case CheckingOut => "Checking out commit..."
    case DockerStep => "Running Docker build step..."
    case Installing => "Installing dependencies..."
    case Optimizing => "Optimizing layers..."
    case Pushing => "Pushing image to registry (simulated)..."
  }

  function BuildLogLine(m: BuildMessage): string {
    "[engine] " + BuildMessageText(m) + "\n"
  }

  /** `random.randint(1, 3)` picks of build messages. */
  type BuildLineDraws = s: seq<BuildMessage> | 1 <= |s| <= 3 witness [Cloning]

  /** One building row's draws: its progress lines, `random.random() < 0.3`
      (the build concludes) and `random.random() < 0.85` (it succeeds). */
  datatype BuildDraw = BuildDraw(lines: BuildLineDraws, concludes: bool, succeeds: bool)

  /** One deploying row's draws: `random.random() < 0.4` (it resolves) and
      `random.random() < 0.85` (it comes up running). */
  datatype DeployDraw = DeployDraw(resolves: bool, succeeds: bool)

  datatype Level = Info | Warn | Error

  function LevelText(l: Level): string {
    match l
    case Info => "INFO"
    case Warn => "WARN"
    case Error => "ERROR"
  }

  /** The per-level runtime messages of `_random_runtime_log_line`. */
  datatype RuntimeMessage =
    | HandlingRequest | BackgroundJob | HealthCheck
    | SlowResponse | RetryingCall
    | UnhandledException | DatabaseTimeout

  function LevelOf(m: RuntimeMessage): Level {
    match m
    case HandlingRequest | BackgroundJob | HealthCheck => Info
    case SlowResponse | RetryingCall => Warn
    case UnhandledException | DatabaseTimeout => Error
  }

  function RuntimeMessageText(m: RuntimeMessage): string {
    match m
    case HandlingRequest => "Handling request"
    case BackgroundJob => "Background job executed"
    case HealthCheck => "Health check OK"
    case SlowResponse => "Slow response detected"
    case RetryingCall => "Retrying external call"
    case UnhandledException => "Unhandled exception in worker"
    case DatabaseTimeout => "Database connection timeout"
  }

  type RuntimeLineDraws = s: seq<RuntimeMessage> | 1 <= |s| <= 3 witness [HealthCheck]

  /** `random.uniform(-5.0, 5.0)` */
  type Perturbation = x: real | -5.0 <= x <= 5.0

  datatype RuntimeDraw = RuntimeDraw(lines: RuntimeLineDraws, cpuDelta: Perturbation, ramDelta: Perturbation)

  /** Everything random or time-dependent about one tick. */
  datatype TickDraws = TickDraws(
    build: int -> BuildDraw,
    deploy: int -> DeployDraw,
    runtime: int -> RuntimeDraw,
    now: string)

  // ---------------------------------------------------------------------
  // Build phase
  // ---------------------------------------------------------------------

  const QueuedLine := "[engine] Build queued, starting...\n"
  const SuccessLine := "[engine] Build SUCCESS\n"
  const FailedLine := "[engine] Build FAILED\n"
  const BuildFailureMessage := "Simulated build failure"

  /** The text `f"{x}"` renders for an optional id. */
  function OptionalIdText(x: Option<int>): string {
    match x
    case None => "None"
    case Some(v) => IntToString(v)
  }

  function Concat(lines: seq<string>): string {
    if |lines| == 0 then "" else lines[0] + Concat(lines[1..])
  }

  function BuildLines(ms: seq<BuildMessage>): seq<string> {
    if |ms| == 0 then [] else [BuildLogLine(ms[0])] + BuildLines(ms[1..])
  }

  /** `image_tag = f"{image_name}:{version}"` */
  function ImageTag(req: ImageRequest): string {
    req.imageName + ":" + req.versionTag
  }

  /** The build has the image its success promises: none when its request
      row is missing, otherwise an image of that request tagged
      `image_name:version_tag`. */
  ghost predicate SuccessLinked(b: Build, requests: seq<ImageRequest>, images: seq<Image>) {
    b.status == Success ==>
      match b.imageId
      case None => FindRequest(requests, b.requestId).None?
      case Some(k) =>
        && FindRequest(requests, b.requestId).Some?
        && exists img :: img in images && img.id == k && img.requestId == b.requestId
                         && img.name == FindRequest(requests, b.requestId).value.imageName
                         && img.version == FindRequest(requests, b.requestId).value.versionTag
                         && img.tag == ImageTag(FindRequest(requests, b.requestId).value)
  }

  /** `_create_image_for_build`: insert an image for the build's request,
      or nothing when the request row is gone. */
  function CreateImageForBuild(b: Build, requests: seq<ImageRequest>, images: seq<Image>, now: string): (r: (Option<int>, seq<Image>))
    ensures r.0.None? <==> FindRequest(requests, b.requestId).None?
    ensures r.0.None? ==> r.1 == images
    ensures r.0.Some? ==> forall i :: 0 <= i < |images| ==> images[i].id != r.0.value
    ensures images <= r.1 && |r.1| <= |images| + 1
    ensures SuccessLinked(b.(status := Success, imageId := r.0), requests, r.1)
    ensures UniqueKeys(images, ImageKey) ==> UniqueKeys(r.1, ImageKey)
  {
    match FindRequest(requests, b.requestId)
    case None => (None, images)
    case Some(req) =>
      var id := NextKey(images, ImageKey);
      var img := Image(id, req.id, req.imageName, req.versionTag, ImageTag(req), now);
      InsertKeepsUnique(images, img, ImageKey);
      assert img in images + [img];
      (Some(id), images + [img])
  }

  /** What one build phase does to a row, given the row's draws: a queued
      row starts building and gets the queued line; a building row gets its
      progress lines and, when it concludes, either succeeds (success line,
      image id set) or fails (failure line and message); a finished row is
      not selected and stays as it is. */
  ghost predicate BuildPhaseStep(b: Build, b': Build, d: BuildDraw) {
    match b.status
    case Queued => b' == b.(status := Building, log := b.log + QueuedLine)
    case Building =>
      var log := b.log + Concat(BuildLines(d.lines));
      if !d.concludes then b' == b.(log := log)
      else if d.succeeds then b' == b.(status := Success, imageId := b'.imageId, log := log + SuccessLine)
      else b' == b.(status := Failed, errorMessage := Some(BuildFailureMessage), log := log + FailedLine)
    case Success => b' == b
    case Failed => b' == b
  }

  /** A step keeps the row's identity and only appends to its log. */
  lemma BuildStepGrowsLog(b: Build, b': Build, d: BuildDraw)
    requires BuildPhaseStep(b, b', d)
    ensures b'.id == b.id && b'.requestId == b.requestId && b'.builtBy == b.builtBy
    ensures b.log <= b'.log
  {
    var log := b.log + Concat(BuildLines(d.lines));
    assert b.log <= log;
    assert log <= log + SuccessLine && log <= log + FailedLine;
    assert b.log <= b.log + QueuedLine;
  }

  /** The audit records a row's step writes: one when the build starts and
      one when it finishes, naming the build and who asked for it. */
  function BuildEvents(b: Build, b': Build): seq<AuditEvent> {
    var idText := IntToString(b.id);
    if b.status == Queued then
      [AuditEvent(Some(b.builtBy), "build_start", Some(b.id), "Build " + idText + " started by simulation engine")]
    else if b.status == Building && b'.status == Success then
      [AuditEvent(Some(b.builtBy), "build_finish", Some(b.id),
                  "Build " + idText + " finished successfully (image_id=" + OptionalIdText(b'.imageId) + ")")]
    else if b.status == Building && b'.status == Failed then
      [AuditEvent(Some(b.builtBy), "build_finish", Some(b.id), "Build " + idText + " failed")]
    else []
  }

  /** The audit records of a whole phase, row by row in table order. */
  ghost function PhaseEvents(bs: seq<Build>, bs': seq<Build>): seq<AuditEvent>
    requires |bs| == |bs'|
  {
    if |bs| == 0 then [] else BuildEvents(bs[0], bs'[0]) + PhaseEvents(bs[1..], bs'[1..])
  }

  datatype BuildResult = BuildResult(build: Build, images: seq<Image>, audit: seq<AuditEvent>)

  /** One iteration of `_process_builds` for a selected row. */
  function StepBuild(b: Build, requests: seq<ImageRequest>, images: seq<Image>, draw: BuildDraw, now: string): (r: BuildResult)
    requires b.status == Queued || b.status == Building
    ensures BuildPhaseStep(b, r.build, draw)
    ensures r.audit == BuildEvents(b, r.build)
    ensures SuccessLinked(r.build, requests, r.images)
    ensures images <= r.images
    ensures r.build.status != Success ==> r.images == images
    ensures UniqueKeys(images, ImageKey) ==> UniqueKeys(r.images, ImageKey)
  {
    var idText := IntToString(b.id);
    if b.status == Queued then
      var b' := b.(status := Building, log := b.log + QueuedLine);
      BuildResult(b', images, [AuditEvent(Some(b.builtBy), "build_start", Some(b.id),
                                          "Build " + idText + " started by simulation engine")])
    else
      var log := b.log + Concat(BuildLines(draw.lines));
      if !draw.concludes then
        BuildResult(b.(log := log), images, [])
      else if draw.succeeds then
        var (imageId, images') := CreateImageForBuild(b, requests, images, now);
        var b' := b.(status := Success, imageId := imageId, log := log + SuccessLine);
        BuildResult(b', images', [AuditEvent(Some(b.builtBy), "build_finish", Some(b.id),
                                             "Build " + idText + " finished successfully (image_id=" + OptionalIdText(imageId) + ")")])
      else
        var b' := b.(status := Failed, errorMessage := Some(BuildFailureMessage), log := log + FailedLine);
        BuildResult(b', images, [AuditEvent(Some(b.builtBy), "build_finish", Some(b.id), "Build " + idText + " failed")])
  }

  /** The loop body: rows in queued or building advance, the others are
      not selected. */
  function AdvanceBuild(b: Build, requests: seq<ImageRequest>, images: seq<Image>, draw: BuildDraw, now: string): (r: BuildResult)
    ensures BuildPhaseStep(b, r.build, draw)
    ensures r.audit == BuildEvents(b, r.build)
    ensures b.status != Success ==> SuccessLinked(r.build, requests, r.images)
    ensures images <= r.images
    ensures UniqueKeys(images, ImageKey) ==> UniqueKeys(r.images, ImageKey)
  {
    if b.status == Queued || b.status == Building then StepBuild(b, requests, images, draw, now)
    else BuildResult(b, images, [])
  }

  datatype BuildPhase = BuildPhase(builds: seq<Build>, images: seq<Image>, audit: seq<AuditEvent>)

  /** `_process_builds`: rows in queued or building advance, in table order,
      each by its own draws; every other row is left as it is. The audit
      trail gets exactly the start and finish records of the rows that
      moved, in table order. */
  function ProcessBuilds(bs: seq<Build>, requests: seq<ImageRequest>, images: seq<Image>, audit: seq<AuditEvent>,
                         draw: int -> BuildDraw, now: string): (r: BuildPhase)
    ensures |r.builds| == |bs|
    ensures forall j :: 0 <= j < |bs| ==> BuildPhaseStep(bs[j], r.builds[j], draw(bs[j].id))
    ensures forall j :: 0 <= j < |bs| && bs[j].status != Success ==> SuccessLinked(r.builds[j], requests, r.images)
    ensures images <= r.images
    ensures audit <= r.audit
    ensures UniqueKeys(images, ImageKey) ==> UniqueKeys(r.images, ImageKey)
    decreases |bs|
  {
    if |bs| == 0 then BuildPhase([], images, audit)
    else
      var b := bs[0];
      var head := AdvanceBuild(b, requests, images, draw(b.id), now);
      var tail := ProcessBuilds(bs[1..], requests, head.images, audit + head.audit, draw, now);
      var r := BuildPhase([head.build] + tail.builds, tail.images, tail.audit);
      SuccessLinkedGrows(head.build, requests, head.images, tail.images);
      assert forall j :: 0 < j < |bs| ==> r.builds[j] == tail.builds[j - 1] && bs[j] == bs[1..][j - 1];
      assert BuildPhaseStep(b, head.build, draw(b.id));
      assert r.builds[1..] == tail.builds;
      assert audit <= audit + head.audit <= r.audit;
      r
  }

  /** The audit trail of a build phase gets exactly the start and finish
      records of the rows that moved, in table order, after what it held. */
  lemma {:induction false} BuildPhaseAudit(bs: seq<Build>, requests: seq<ImageRequest>, images: seq<Image>,
                                           audit: seq<AuditEvent>, draw: int -> BuildDraw, now: string)
    ensures var r := ProcessBuilds(bs, requests, images, audit, draw, now);
            r.audit == audit + PhaseEvents(bs, r.builds)
    decreases |bs|
  {
    var r := ProcessBuilds(bs, requests, images, audit, draw, now);
    if |bs| > 0 {
      var head := AdvanceBuild(bs[0], requests, images, draw(bs[0].id), now);
      var tail := ProcessBuilds(bs[1..], requests, head.images, audit + head.audit, draw, now);
      BuildPhaseAudit(bs[1..], requests, head.images, audit + head.audit, draw, now);
      assert r.audit == tail.audit && r.builds == [head.build] + tail.builds;
      assert r.builds[1..] == tail.builds;
      var rest := PhaseEvents(bs[1..], tail.builds);
      assert PhaseEvents(bs, r.builds) == head.audit + rest;
      SeqAssoc(audit, head.audit, rest);
    }
  }

  /** `SuccessLinked` survives the image table growing. */
  lemma SuccessLinkedGrows(b: Build, requests: seq<ImageRequest>, images: seq<Image>, images': seq<Image>)
    requires images <= images'
    ensures SuccessLinked(b, requests, images) ==> SuccessLinked(b, requests, images')
  {
    if SuccessLinked(b, requests, images) && b.status == Success && b.imageId.Some? {
      var req := FindRequest(requests, b.requestId).value;
      var img :| img in images && img.id == b.imageId.value && img.requestId == b.requestId
                 && img.name == req.imageName && img.version == req.versionTag && img.tag == ImageTag(req);
      assert img in images';
    }
  }

  // ---------------------------------------------------------------------
  // Deployment phase
  // ---------------------------------------------------------------------

  const DeploymentFailureAlert := "Deployment failed during startup (simulated)"

  /** What one deployment phase does to a row with draw `d`: a deploying
      row whose first draw resolves becomes running or failed, as the second
      draw says, stamped with the tick's time; every other row is kept. */
  ghost predicate DeployPhaseStep(d: Deployment, d': Deployment, draw: DeployDraw, now: string) {
    if d.status != Deploying || !draw.resolves then d' == d
    else d' == d.(status := if draw.succeeds then Running else DeploymentFailed, updatedAt := now)
  }

  /** The deployment phase rewrites rows in place: ids stay where they were. */
  lemma DeployPhaseKeepsIds(ds: seq<Deployment>, ds': seq<Deployment>, draw: int -> DeployDraw, now: string)
    requires |ds| == |ds'| && forall j :: 0 <= j < |ds| ==> DeployPhaseStep(ds[j], ds'[j], draw(ds[j].id), now)
    ensures forall j :: 0 <= j < |ds| ==> DeploymentKey(ds'[j]) == DeploymentKey(ds[j])
  {
  }

  /** The audit records the phase writes for a row that went from `d` to
      `d'`: one for coming up running, one for failing, none otherwise. */
  function DeployEvents(d: Deployment, d': Deployment): seq<AuditEvent> {
    if d.status != Deploying then []
    else if d'.status == Running then [AuditEvent(None, "deployment_running", Some(d.id), "Deployment is now running")]
    else if d'.status == DeploymentFailed then [AuditEvent(None, "deployment_failed", Some(d.id), DeploymentFailureAlert)]
    else []
  }

  /** The records of a whole deployment phase, row by row in table order. */
  ghost function DeployPhaseEvents(ds: seq<Deployment>, ds': seq<Deployment>): seq<AuditEvent>
    requires |ds| == |ds'|
  {
    if |ds| == 0 then [] else DeployEvents(ds[0], ds'[0]) + DeployPhaseEvents(ds[1..], ds'[1..])
  }

  /** Ids of the rows this phase moved from deploying to failed, in order. */
  ghost function FailedIds(ds: seq<Deployment>, ds': seq<Deployment>): seq<int>
    requires |ds| == |ds'|
  {
    if |ds| == 0 then []
    else (if ds[0].status == Deploying && ds'[0].status == DeploymentFailed then [ds[0].id] else [])
         + FailedIds(ds[1..], ds'[1..])
  }

  ghost function AlertTargets(alerts: seq<Alert>): seq<int> {
    if |alerts| == 0 then [] else [alerts[0].targetId] + AlertTargets(alerts[1..])
  }

  lemma {:induction false} AlertTargetsAppend(a: seq<Alert>, b: seq<Alert>)
    ensures AlertTargets(a + b) == AlertTargets(a) + AlertTargets(b)
    decreases |a|
  {
    if |a| > 0 {
      assert (a + b)[1..] == a[1..] + b;
      AlertTargetsAppend(a[1..], b);
    } else {
      assert a + b == b;
    }
  }

  /** An alert of the kind a failed deployment raises. */
  predicate DeploymentAlert(a: Alert) {
    a.alertType == "deployment" && !a.resolved && a.message == DeploymentFailureAlert
  }

  datatype DeployResult = DeployResult(deployment: Deployment, alerts: seq<Alert>, audit: seq<AuditEvent>)

  /** One iteration of `_process_deployments` for a deploying row. */
  function StepDeployment(d: Deployment, alerts: seq<Alert>, draw: DeployDraw, now: string): (r: DeployResult)
    requires d.status == Deploying
    ensures DeployPhaseStep(d, r.deployment, draw, now)
    ensures r.audit == DeployEvents(d, r.deployment)
    ensures !draw.resolves <==> r.deployment == d
    ensures r.deployment.status == DeploymentFailed <==> draw.resolves && !draw.succeeds
    ensures r.deployment.status == DeploymentFailed ==>
              |r.alerts| == |alerts| + 1 && r.alerts[..|alerts|] == alerts
              && r.alerts[|alerts|].targetId == d.id && DeploymentAlert(r.alerts[|alerts|])
    ensures r.deployment.status != DeploymentFailed ==> r.alerts == alerts
    ensures UniqueKeys(alerts, AlertKey) ==> UniqueKeys(r.alerts, AlertKey)
  {
    if !draw.resolves then DeployResult(d, alerts, [])
    else if draw.succeeds then
      DeployResult(d.(status := Running, updatedAt := now), alerts,
                   [AuditEvent(None, "deployment_running", Some(d.id), "Deployment is now running")])
    else
      var a := Alert(NextKey(alerts, AlertKey), "deployment", d.id, DeploymentFailureAlert, false, now);
      InsertKeepsUnique(alerts, a, AlertKey);
      DeployResult(d.(status := DeploymentFailed, updatedAt := now), alerts + [a],
                   [AuditEvent(None, "deployment_failed", Some(d.id), DeploymentFailureAlert)])
  }

  /** The loop body: only deploying rows are selected. */
  function AdvanceDeployment(d: Deployment, alerts: seq<Alert>, draw: DeployDraw, now: string): (r: DeployResult)
    ensures DeployPhaseStep(d, r.deployment, draw, now)
    ensures r.audit == DeployEvents(d, r.deployment)
    ensures alerts <= r.alerts
    ensures forall k :: |alerts| <= k < |r.alerts| ==> DeploymentAlert(r.alerts[k])
    ensures UniqueKeys(alerts, AlertKey) ==> UniqueKeys(r.alerts, AlertKey)
    ensures AlertTargets(r.alerts[|alerts|..]) ==
            if d.status == Deploying && r.deployment.status == DeploymentFailed then [d.id] else []
  {
    if d.status == Deploying then
      var r := StepDeployment(d, alerts, draw, now);
      assert r.alerts[|alerts|..] == if r.deployment.status == DeploymentFailed then [r.alerts[|alerts|]] else [];
      r
    else DeployResult(d, alerts, [])
  }

  datatype DeployPhase = DeployPhase(deployments: seq<Deployment>, alerts: seq<Alert>, audit: seq<AuditEvent>)

  /** `_process_deployments`: every row takes the step its own draws
      dictate; the alert table only grows, by deployment alerts. */
  function ProcessDeployments(ds: seq<Deployment>, alerts: seq<Alert>, audit: seq<AuditEvent>,
                              draw: int -> DeployDraw, now: string): (r: DeployPhase)
    ensures |r.deployments| == |ds|
    ensures forall j :: 0 <= j < |ds| ==> DeployPhaseStep(ds[j], r.deployments[j], draw(ds[j].id), now)
    ensures alerts <= r.alerts
    ensures forall k :: |alerts| <= k < |r.alerts| ==> DeploymentAlert(r.alerts[k])
    ensures audit <= r.audit
    ensures UniqueKeys(alerts, AlertKey) ==> UniqueKeys(r.alerts, AlertKey)
    decreases |ds|
  {
    if |ds| == 0 then DeployPhase([], alerts, audit)
    else
      var d := ds[0];
      var head := AdvanceDeployment(d, alerts, draw(d.id), now);
      var tail := ProcessDeployments(ds[1..], head.alerts, audit + head.audit, draw, now);
      var r := DeployPhase([head.deployment] + tail.deployments, tail.alerts, tail.audit);
      assert forall j :: 0 < j < |ds| ==> r.deployments[j] == tail.deployments[j - 1] && ds[j] == ds[1..][j - 1];
      assert alerts <= head.alerts;
      assert forall k :: |alerts| <= k < |head.alerts| ==> r.alerts[k] == head.alerts[k];
      r
  }

  /** Every row the phase moves from deploying to failed raises exactly one
      alert, in table order, and no other alert is raised. */
  lemma {:induction false} FailuresRaiseAlerts(ds: seq<Deployment>, alerts: seq<Alert>, audit: seq<AuditEvent>,
                                               draw: int -> DeployDraw, now: string)
    ensures var r := ProcessDeployments(ds, alerts, audit, draw, now);
            AlertTargets(r.alerts[|alerts|..]) == FailedIds(ds, r.deployments)
    decreases |ds|
  {
    var r := ProcessDeployments(ds, alerts, audit, draw, now);
    if |ds| == 0 {
      assert r.alerts[|alerts|..] == [];
    } else {
      var d := ds[0];
      var head := AdvanceDeployment(d, alerts, draw(d.id), now);
      var tail := ProcessDeployments(ds[1..], head.alerts, audit + head.audit, draw, now);
      FailuresRaiseAlerts(ds[1..], head.alerts, audit + head.audit, draw, now);
      assert r.deployments[1..] == tail.deployments;
      GrowthSplits(alerts, head.alerts, tail.alerts);
      AlertTargetsAppend(head.alerts[|alerts|..], tail.alerts[|head.alerts|..]);
    }
  }

  /** The audit trail of a deployment phase gets exactly the running and
      failed records of the rows that moved, in table order, after what it
      held. */
  lemma {:induction false} DeployPhaseAudit(ds: seq<Deployment>, alerts: seq<Alert>, audit: seq<AuditEvent>,
                                            draw: int -> DeployDraw, now: string)
    ensures var r := ProcessDeployments(ds, alerts, audit, draw, now);
            r.audit == audit + DeployPhaseEvents(ds, r.deployments)
    decreases |ds|
  {
    var r := ProcessDeployments(ds, alerts, audit, draw, now);
    if |ds| > 0 {
      var head := AdvanceDeployment(ds[0], alerts, draw(ds[0].id), now);
      var tail := ProcessDeployments(ds[1..], head.alerts, audit + head.audit, draw, now);
      DeployPhaseAudit(ds[1..], head.alerts, audit + head.audit, draw, now);
      assert r.audit == tail.audit && r.deployments == [head.deployment] + tail.deployments;
      assert r.deployments[1..] == tail.deployments;
      var rest := DeployPhaseEvents(ds[1..], tail.deployments);
      assert DeployPhaseEvents(ds, r.deployments) == head.audit + rest;
      SeqAssoc(audit, head.audit, rest);
    }
  }

  // ---------------------------------------------------------------------
  // Runtime telemetry phase
  // ---------------------------------------------------------------------

  /** `max(0.0, min(100.0, x))` */
  function Clamp(x: real): (r: real)
    ensures 0.0 <= r <= 100.0
    ensures 0.0 <= x <= 100.0 ==> r == x
    ensures x < 0.0 ==> r == 0.0
    ensures x > 100.0 ==> r == 100.0
  {
    if x < 0.0 then 0.0 else if x > 100.0 then 100.0 else x
  }

  /** Every stored random-walk seed is a percentage. */
  predicate SeedsInRange(s: Store) {
    forall k :: k in s.seeds ==> 0.0 <= s.seeds[k].cpu <= 100.0 && 0.0 <= s.seeds[k].ram <= 100.0
  }

  /** `_generate_metrics_for_deployment`: move the seed by the drawn
      perturbation, clamp to [0, 100], store it and record it as a point. */
  function GenerateMetrics(s: Store, id: int, draw: RuntimeDraw, now: string): (r: Store)
    ensures id in r.seeds && 0.0 <= r.seeds[id].cpu <= 100.0 && 0.0 <= r.seeds[id].ram <= 100.0
    ensures r.seeds[id] == Seed(Clamp(SeedOf(s, id).cpu + draw.cpuDelta), Clamp(SeedOf(s, id).ram + draw.ramDelta))
    ensures MetricsOf(r, id) == BoundedAppend(MetricsOf(s, id), MetricPoint(now, r.seeds[id].cpu, r.seeds[id].ram), MetricsMaxPoints)
    ensures SeedsInRange(s) && id in s.seeds ==>
              -5.0 <= r.seeds[id].cpu - s.seeds[id].cpu <= 5.0 && -5.0 <= r.seeds[id].ram - s.seeds[id].ram <= 5.0
    ensures r.metrics == s.metrics[id := r.metrics[id]] && r.seeds == s.seeds[id := r.seeds[id]]
    ensures r.logs == s.logs
    ensures SeedsInRange(s) ==> SeedsInRange(r)
    ensures Bounded(s) ==> Bounded(r)
  {
    var got := GetOrCreateMetricState(s, id);
    var seed := got.1;
    var cpu := Clamp(seed.cpu + draw.cpuDelta);
    var ram := Clamp(seed.ram + draw.ramDelta);
    var s2 := UpdateMetricState(got.0, id, cpu, ram);
    assert s2 == s.(seeds := s.seeds[id := Seed(cpu, ram)]);
    SetSeedFacts(s, id, cpu, ram);
    assert id in s.seeds ==> seed == s.seeds[id];
    ClampedStep(seed.cpu, draw.cpuDelta);
    ClampedStep(seed.ram, draw.ramDelta);
    var r := AppendMetricPoint(s2, id, MetricPoint(now, cpu, ram));
    assert r.seeds[id] == Seed(cpu, ram);
    r
  }

  /** A clamped perturbation of a percentage moves it by at most five. */
  lemma ClampedStep(x: real, d: Perturbation)
    ensures 0.0 <= x <= 100.0 ==> -5.0 <= Clamp(x + d) - x <= 5.0
  {
  }

  /** Storing an in-range seed keeps every seed in range, leaves the
      buffers alone and keeps them bounded. */
  lemma SetSeedFacts(s: Store, id: int, cpu: real, ram: real)
    requires 0.0 <= cpu <= 100.0 && 0.0 <= ram <= 100.0
    ensures var s' := s.(seeds := s.seeds[id := Seed(cpu, ram)]);
            && (SeedsInRange(s) ==> SeedsInRange(s'))
            && (Bounded(s) ==> Bounded(s'))
            && MetricsOf(s', id) == MetricsOf(s, id)
  {
  }

  /** `_random_runtime_log_line` */
  function RuntimeLogLine(now: string, m: RuntimeMessage, name: string, tag: string): string {
    now + " [" + LevelText(LevelOf(m)) + "] " + name + " (" + tag + ") - " + RuntimeMessageText(m)
  }

  function RuntimeLines(now: string, ms: seq<RuntimeMessage>, name: string, tag: string): (r: seq<string>)
    ensures |r| == |ms|
  {
    if |ms| == 0 then [] else [RuntimeLogLine(now, ms[0], name, tag)] + RuntimeLines(now, ms[1..], name, tag)
  }

  /** Telemetry for one running deployment: one to three log lines, then
      exactly one metric point. */
  function RuntimeForDeployment(s: Store, d: Deployment, tag: string, draw: RuntimeDraw, now: string): (r: Store)
    ensures var lines := RuntimeLines(now, draw.lines, d.name, tag);
            1 <= |lines| <= 3 && LogsOf(r, d.id) == AppendAll(LogsOf(s, d.id), lines, LogMaxLines)
    ensures |MetricsOf(r, d.id)| == if |MetricsOf(s, d.id)| < MetricsMaxPoints then |MetricsOf(s, d.id)| + 1 else MetricsMaxPoints
    ensures forall k :: k != d.id ==> LogsOf(r, k) == LogsOf(s, k) && MetricsOf(r, k) == MetricsOf(s, k)
    ensures SeedsInRange(s) ==> SeedsInRange(r)
    ensures Bounded(s) ==> Bounded(r)
  {
    var lines := RuntimeLines(now, draw.lines, d.name, tag);
    RuntimeLogsAppended(s, d.id, lines, draw, now);
    RuntimeMetricAppended(s, d.id, lines, draw, now);
    RuntimeOthersUntouched(s, d.id, lines, draw, now);
    RuntimeSeedsInRange(s, d.id, lines, draw, now);
    GenerateMetrics(AppendLogs(s, d.id, lines), d.id, draw, now)
  }

  lemma RuntimeLogsAppended(s: Store, id: int, lines: seq<string>, draw: RuntimeDraw, now: string)
    ensures LogsOf(GenerateMetrics(AppendLogs(s, id, lines), id, draw, now), id) == AppendAll(LogsOf(s, id), lines, LogMaxLines)
  {
    var s1 := AppendLogs(s, id, lines);
    SameLogs(s1, GenerateMetrics(s1, id, draw, now));
  }

  lemma RuntimeMetricAppended(s: Store, id: int, lines: seq<string>, draw: RuntimeDraw, now: string)
    ensures var m := MetricsOf(GenerateMetrics(AppendLogs(s, id, lines), id, draw, now), id);
            |m| == if |MetricsOf(s, id)| < MetricsMaxPoints then |MetricsOf(s, id)| + 1 else MetricsMaxPoints
  {
    var s1 := AppendLogs(s, id, lines);
    var r := GenerateMetrics(s1, id, draw, now);
    SameMetricsAndSeeds(s, s1);
  }

  lemma RuntimeOthersUntouched(s: Store, id: int, lines: seq<string>, draw: RuntimeDraw, now: string)
    ensures var r := GenerateMetrics(AppendLogs(s, id, lines), id, draw, now);
            forall k :: k != id ==> LogsOf(r, k) == LogsOf(s, k) && MetricsOf(r, k) == MetricsOf(s, k)
  {
    var s1 := AppendLogs(s, id, lines);
    var r := GenerateMetrics(s1, id, draw, now);
    SameLogs(s1, r);
    LogsFrame(s, s1, id);
    SameMetricsAndSeeds(s, s1);
    MetricsFrame(s1, r, id);
  }

  lemma RuntimeSeedsInRange(s: Store, id: int, lines: seq<string>, draw: RuntimeDraw, now: string)
    ensures SeedsInRange(s) ==> SeedsInRange(GenerateMetrics(AppendLogs(s, id, lines), id, draw, now))
  {
    SameMetricsAndSeeds(s, AppendLogs(s, id, lines));
  }

  lemma LogsFrame(a: Store, b: Store, id: int)
    requires forall k :: k != id ==> (k in b.logs <==> k in a.logs) && (k in a.logs ==> b.logs[k] == a.logs[k])
    ensures forall k :: k != id ==> LogsOf(b, k) == LogsOf(a, k)
  {
  }

  lemma MetricsFrame(a: Store, b: Store, id: int)
    requires forall k :: k != id ==> (k in b.metrics <==> k in a.metrics) && (k in a.metrics ==> b.metrics[k] == a.metrics[k])
    ensures forall k :: k != id ==> MetricsOf(b, k) == MetricsOf(a, k)
  {
  }

  lemma SameLogs(a: Store, b: Store)
    requires a.logs == b.logs
    ensures forall k :: LogsOf(a, k) == LogsOf(b, k)
  {
  }

  lemma SameMetricsAndSeeds(a: Store, b: Store)
    requires a.metrics == b.metrics && a.seeds == b.seeds
    ensures forall k :: MetricsOf(a, k) == MetricsOf(b, k)
    ensures SeedsInRange(a) <==> SeedsInRange(b)
  {
  }

  /** Ids of the rows with status running. */
  function RunningIds(ds: seq<Deployment>): (ids: set<int>)
    ensures forall j :: 0 <= j < |ds| && ds[j].status == Running ==> ds[j].id in ids
    ensures forall k :: k in ids ==> exists j :: 0 <= j < |ds| && ds[j].status == Running && ds[j].id == k
  {
    if |ds| == 0 then {}
    else
      var rest := RunningIds(ds[1..]);
      assert forall j :: 1 <= j < |ds| ==> ds[j] == ds[1..][j - 1];
      (if ds[0].status == Running then {ds[0].id} else {}) + rest
  }

  /** `_generate_runtime`: deployments that are running and whose image row
      exists (the query joins images) get telemetry; the database is not
      touched, and no other deployment's buffers change. */
  function GenerateRuntime(ds: seq<Deployment>, images: seq<Image>, s: Store, draw: int -> RuntimeDraw, now: string): (r: Store)
    ensures SeedsInRange(s) ==> SeedsInRange(r)
    ensures Bounded(s) ==> Bounded(r)
    ensures forall k :: k !in RunningIds(ds) ==> LogsOf(r, k) == LogsOf(s, k) && MetricsOf(r, k) == MetricsOf(s, k)
    decreases |ds|
  {
    if |ds| == 0 then s
    else GenerateRuntime(ds[1..], images, RuntimeStep(s, ds[0], images, draw(ds[0].id), now), draw, now)
  }

  /** One row of `_generate_runtime`. */
  function RuntimeStep(s: Store, d: Deployment, images: seq<Image>, draw: RuntimeDraw, now: string): Store {
    if d.status == Running && FindImage(images, d.imageId).Some? then
      RuntimeForDeployment(s, d, FindImage(images, d.imageId).value.tag, draw, now)
    else s
  }

  /** What the runtime phase does for one deployment row whose buffers
      held `logs` and `metrics` before the phase: a running row whose image
      row exists gets its drawn log lines, tagged with the image, and one
      more metric point; any other row's buffers are left alone. */
  ghost predicate RuntimeServed(logs: seq<string>, metrics: seq<MetricPoint>, r: Store, d: Deployment,
                                images: seq<Image>, draw: RuntimeDraw, now: string) {
    if d.status == Running && FindImage(images, d.imageId).Some? then
      var lines := RuntimeLines(now, draw.lines, d.name, FindImage(images, d.imageId).value.tag);
      && LogsOf(r, d.id) == AppendAll(logs, lines, LogMaxLines)
      && |MetricsOf(r, d.id)| == (if |metrics| < MetricsMaxPoints then |metrics| + 1 else MetricsMaxPoints)
    else LogsOf(r, d.id) == logs && MetricsOf(r, d.id) == metrics
  }

  /** The head row's id is not among the tail's, nor among its running ids. */
  lemma HeadApartFromTail(ds: seq<Deployment>)
    requires |ds| > 0 && UniqueKeys(ds, DeploymentKey)
    ensures UniqueKeys(ds[1..], DeploymentKey)
    ensures forall j :: 1 <= j < |ds| ==> ds[1..][j - 1] == ds[j] && ds[j].id != ds[0].id
    ensures ds[0].id !in RunningIds(ds[1..])
  {
    assert forall j :: 1 <= j < |ds| ==> ds[1..][j - 1] == ds[j] && DeploymentKey(ds[j]) != DeploymentKey(ds[0]);
  }

  /** The row a runtime step serves ends up as `RuntimeServed` says, when
      nothing later touches its buffers. */
  lemma StepServesRow(s: Store, r: Store, d: Deployment, images: seq<Image>, draw: RuntimeDraw, now: string)
    requires var s1 := RuntimeStep(s, d, images, draw, now);
             LogsOf(r, d.id) == LogsOf(s1, d.id) && MetricsOf(r, d.id) == MetricsOf(s1, d.id)
    ensures RuntimeServed(LogsOf(s, d.id), MetricsOf(s, d.id), r, d, images, draw, now)
  {
    if d.status == Running && FindImage(images, d.imageId).Some? {
      ServedRowBuffers(s, r, d, FindImage(images, d.imageId).value.tag, draw, now);
    }
  }

  lemma ServedRowBuffers(s: Store, r: Store, d: Deployment, tag: string, draw: RuntimeDraw, now: string)
    requires var s1 := RuntimeForDeployment(s, d, tag, draw, now);
             LogsOf(r, d.id) == LogsOf(s1, d.id) && MetricsOf(r, d.id) == MetricsOf(s1, d.id)
    ensures LogsOf(r, d.id) == AppendAll(LogsOf(s, d.id), RuntimeLines(now, draw.lines, d.name, tag), LogMaxLines)
    ensures |MetricsOf(r, d.id)| ==
            if |MetricsOf(s, d.id)| < MetricsMaxPoints then |MetricsOf(s, d.id)| + 1 else MetricsMaxPoints
  {
  }

  /** Served from buffers equal to the ones the phase started from. */
  lemma ServedFromEqualBuffers(s: Store, s1: Store, r: Store, d: Deployment, images: seq<Image>, draw: RuntimeDraw, now: string)
    requires RuntimeServed(LogsOf(s1, d.id), MetricsOf(s1, d.id), r, d, images, draw, now)
    requires LogsOf(s1, d.id) == LogsOf(s, d.id) && MetricsOf(s1, d.id) == MetricsOf(s, d.id)
    ensures RuntimeServed(LogsOf(s, d.id), MetricsOf(s, d.id), r, d, images, draw, now)
  {
  }

  /** With distinct deployment ids, every row of the runtime phase is served
      as `RuntimeServed` says, with its own draws. */
  lemma {:induction false} RuntimeServesEachRow(ds: seq<Deployment>, images: seq<Image>, s: Store,
                                                draw: int -> RuntimeDraw, now: string)
    requires UniqueKeys(ds, DeploymentKey)
    ensures var r := GenerateRuntime(ds, images, s, draw, now);
            forall j :: 0 <= j < |ds| ==>
              RuntimeServed(LogsOf(s, ds[j].id), MetricsOf(s, ds[j].id), r, ds[j], images, draw(ds[j].id), now)
    decreases |ds|
  {
    var r := GenerateRuntime(ds, images, s, draw, now);
    if |ds| > 0 {
      var d := ds[0];
      var s1 := RuntimeStep(s, d, images, draw(d.id), now);
      HeadApartFromTail(ds);
      RuntimeServesEachRow(ds[1..], images, s1, draw, now);
      StepServesRow(s, r, d, images, draw(d.id), now);
      forall j | 1 <= j < |ds|
        ensures RuntimeServed(LogsOf(s, ds[j].id), MetricsOf(s, ds[j].id), r, ds[j], images, draw(ds[j].id), now)
      {
        ServedFromEqualBuffers(s, s1, r, ds[1..][j - 1], images, draw(ds[j].id), now);
      }
    }
  }

  // ---------------------------------------------------------------------
  // Ticks
  // ---------------------------------------------------------------------

  datatype World = World(db: Db, store: Store)

  /** `_tick`: builds, then deployments, then runtime telemetry computed
      from the deployments as the deployment phase left them. */
  function Tick(w: World, t: TickDraws): (r: World)
    ensures r.db.users == w.db.users && r.db.requests == w.db.requests
    ensures |r.db.builds| == |w.db.builds| && |r.db.deployments| == |w.db.deployments|
    ensures forall j :: 0 <= j < |w.db.builds| ==> BuildPhaseStep(w.db.builds[j], r.db.builds[j], t.build(w.db.builds[j].id))
    ensures forall j :: 0 <= j < |w.db.builds| && w.db.builds[j].status != Success ==>
              SuccessLinked(r.db.builds[j], w.db.requests, r.db.images)
    ensures forall j :: 0 <= j < |w.db.deployments| ==>
              DeployPhaseStep(w.db.deployments[j], r.db.deployments[j], t.deploy(w.db.deployments[j].id), t.now)
    ensures w.db.images <= r.db.images && w.db.alerts <= r.db.alerts && w.db.audit <= r.db.audit
    ensures SeedsInRange(w.store) ==> SeedsInRange(r.store)
    ensures Bounded(w.store) ==> Bounded(r.store)
  {
    var db := w.db;
    var bp := ProcessBuilds(db.builds, db.requests, db.images, db.audit, t.build, t.now);
    var db1 := db.(builds := bp.builds, images := bp.images, audit := bp.audit);
    var dp := ProcessDeployments(db1.deployments, db1.alerts, db1.audit, t.deploy, t.now);
    var db2 := db1.(deployments := dp.deployments, alerts := dp.alerts, audit := dp.audit);
    var store := GenerateRuntime(db2.deployments, db2.images, w.store, t.runtime, t.now);
    World(db2, store)
  }

  function Run(w: World, ticks: seq<TickDraws>): World
    decreases |ticks|
  {
    if |ticks| == 0 then w else Run(Tick(w, ticks[0]), ticks[1..])
  }

  /** After any number of ticks every stored cpu and ram value lies in
      [0, 100] and every buffer respects its capacity. */
  lemma {:induction false} TelemetryStaysInRange(w: World, ticks: seq<TickDraws>)
    requires SeedsInRange(w.store) && Bounded(w.store)
    ensures SeedsInRange(Run(w, ticks).store) && Bounded(Run(w, ticks).store)
    decreases |ticks|
  {
    if |ticks| > 0 {
      TelemetryStaysInRange(Tick(w, ticks[0]), ticks[1..]);
    }
  }

  /** A finished build (success or failed) is never changed by any later
      tick, and every build's log only ever grows. */
  lemma {:induction false} FinishedBuildsAreFinal(w: World, ticks: seq<TickDraws>, j: nat)
    requires j < |w.db.builds|
    ensures |Run(w, ticks).db.builds| == |w.db.builds|
    ensures w.db.builds[j].log <= Run(w, ticks).db.builds[j].log
    ensures w.db.builds[j].status in {Success, Failed} ==> Run(w, ticks).db.builds[j] == w.db.builds[j]
    decreases |ticks|
  {
    if |ticks| > 0 {
      var w1 := Tick(w, ticks[0]);
      BuildStepGrowsLog(w.db.builds[j], w1.db.builds[j], ticks[0].build(w.db.builds[j].id));
      FinishedBuildsAreFinal(w1, ticks[1..], j);
    }
  }

  /** The runtime phase of a tick serves the deployments as the deployment
      phase left them, with the image table as the build phase left it: a
      deployment that came up running in this tick already gets telemetry,
      and so can one whose image was created in this tick. */
  lemma TickServesRunning(w: World, t: TickDraws)
    requires UniqueKeys(w.db.deployments, DeploymentKey)
    ensures var r := Tick(w, t);
            forall j :: 0 <= j < |r.db.deployments| ==>
              var d := r.db.deployments[j];
              RuntimeServed(LogsOf(w.store, d.id), MetricsOf(w.store, d.id), r.store, d, r.db.images, t.runtime(d.id), t.now)
  {
    var r := Tick(w, t);
    DeployPhaseKeepsIds(w.db.deployments, r.db.deployments, t.deploy, t.now);
    SameKeysStayUnique(w.db.deployments, r.db.deployments, DeploymentKey);
    RuntimeServesEachRow(r.db.deployments, r.db.images, w.store, t.runtime, t.now);
  }

  /** The audit trail a tick leaves is the old one, then the build phase's
      start and finish records, then the deployment phase's running and
      failed records; the runtime phase writes none. */
  lemma TickAudit(w: World, t: TickDraws)
    ensures var r := Tick(w, t);
            r.db.audit == w.db.audit + PhaseEvents(w.db.builds, r.db.builds)
                          + DeployPhaseEvents(w.db.deployments, r.db.deployments)
  {
    var db := w.db;
    var bp := ProcessBuilds(db.builds, db.requests, db.images, db.audit, t.build, t.now);
    BuildPhaseAudit(db.builds, db.requests, db.images, db.audit, t.build, t.now);
    var dp := ProcessDeployments(db.deployments, db.alerts, bp.audit, t.deploy, t.now);
    DeployPhaseAudit(db.deployments, db.alerts, bp.audit, t.deploy, t.now);
  }

  /** Only a deploying row is ever moved by the engine: over any number of
      ticks, a row that is running, stopped or failed stays exactly as it
      is. */
  lemma {:induction false} SettledDeploymentsStay(w: World, ticks: seq<TickDraws>, j: nat)
    requires j < |w.db.deployments| && w.db.deployments[j].status != Deploying
    ensures |Run(w, ticks).db.deployments| == |w.db.deployments|
    ensures Run(w, ticks).db.deployments[j] == w.db.deployments[j]
    decreases |ticks|
  {
    if |ticks| > 0 {
      SettledDeploymentsStay(Tick(w, ticks[0]), ticks[1..], j);
    }
  }
}
