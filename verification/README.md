# samosval in Dafny

samosval simulates a small platform-as-a-service. Developers file image
requests, which say what to build from which git repository and branch.
Operators review the requests and trigger builds. A background engine moves
builds from queued to building to success or failure, and creates an image
for each successful build. Deployments of images go from deploying to
running, or to failed, which raises an alert. Running deployments produce
log lines and cpu/ram samples. These go into bounded in-memory buffers,
which pages and a log stream read. A commit hook restarts continuous
deployments when a matching commit arrives. Admins manage users. A separate
legacy JSON application (`app.py`) has its own tables of users,
applications, images and deployments, and generates Dockerfiles.

This project models that core as pure functions over immutable records.

- **Tables.** Each database table is a sequence of rows in rowid order, and
  a new row takes the id one past the largest id present. The audit log is
  a sequence of events.
- **Randomness and time.** Every call to `random.*` is an oracle argument,
  so any branch can be forced. Every timestamp is an opaque string
  argument.
- **Outcomes.** A route's HTTP error is `Fail(code)`. Its success is
  `Ok(value)`, holding the new database and, when the route returns one,
  a new id.

The modules follow the source files:

| module | file | content |
|---|---|---|
| `Common` | — | Python string operations, table helpers |
| `Records` | — | the rows of the database |
| `Access` | `samosval/access.py` | who may view or edit a request, or manage a deployment |
| `Telemetry` | `samosval/simulator/state.py` | bounded log and metric buffers, random-walk seeds |
| `Engine` | `samosval/simulator/engine.py` | one engine tick: builds, deployments, runtime telemetry |
| `Api` | `samosval/routes/api_routes.py` | build log, metrics, log-stream cursor, commit hook |
| `DeploymentRoutes` | `samosval/routes/deployment_routes.py` | deployment pages and controls |
| `RequestRoutes` | `samosval/routes/request_routes.py` | request form, validation, workflow |
| `ImageRoutes` | `samosval/routes/image_routes.py` | image page and creating a deployment |
| `AdminRoutes` | `samosval/routes/admin_routes.py` | user administration |
| `Legacy` | `app.py` | the legacy application and its own data model |

In `Common`:

- **Strings.** `Strip` is Python's `str.strip()`: it removes the characters
  `str.isspace()` accepts, ASCII and Unicode.
  `Split` and `Join` are `str.split(sep)` and `sep.join(...)` with one
  separator character, and are proved inverse.
- **Numbers.** `IntToString` is `str(int)` and is proved injective.

The model follows the code in these places, where the code departs from
the documented design:

- **Edit permission.** `can_edit_request` does not admit collaborators,
  although they may view the request.
- **Operator stop.** No route ever clears `stopped_by_operator`.
  Re-entering deploying keeps the flag.
- **Missing request.** A request that does not exist yields 403, not 404,
  on the view, edit and submit routes.
- **Build without a request.** A build whose request row is missing still
  succeeds, with no image.
- **Submit permission.** `submit_request` checks `can_view_request`, so a
  collaborator may submit.
- **Status change on a missing request.** `change_status` for a missing
  request id changes nothing and reports no error.

## Model

| member | source | states |
|---|---|---|
| Access.NormalizeCollaborators | samosval/access.py:27-34 | a missing or empty list gives no names; every name is non-empty, comma-free and has no surrounding whitespace |
| Access.CollaboratorMembership | samosval/access.py:27-34 | a name is a collaborator iff it is the stripped form of some comma-separated piece of the list and is non-empty |
| Access.CollaboratorsRoundTrip | samosval/access.py:27-34 | storing clean names joined by commas and normalising gives back exactly that set of names |
| Access.StaffAlwaysAllowed | samosval/access.py:37-83 | admins and operators may view, edit and manage, whatever the ownership and the operator flag |
| Access.OtherRolesDenied | samosval/access.py:37-83 | any role other than admin, operator and developer is refused by all three predicates |
| Access.DeveloperView | samosval/access.py:46-52 | a developer may view iff they created or own the request or their username is among the collaborators |
| Access.EditImpliesView | samosval/access.py:37-63 | whoever may edit a request may view it |
| Access.CollaboratorViewsButCannotEdit | samosval/access.py:55-63 | a developer who is only a collaborator may view but not edit |
| Access.StrangerDenied | samosval/access.py:37-63 | a developer with no tie to the request may neither view nor edit it |
| Access.DeveloperManage | samosval/access.py:78-83 | a developer may manage a deployment iff they own it and no operator stopped it |
| Access.FilterRequestsForUser | samosval/access.py:86-88 | exactly the viewable rows, each as often as in the input, in input order |
| Access.CanViewRequest | samosval/access.py:37-52 | the view rule, defined here; its contract is stated by StaffAlwaysAllowed, OtherRolesDenied, DeveloperView and StrangerDenied |
| Access.CanEditRequest | samosval/access.py:55-63 | the edit rule, defined here; its contract is stated by StaffAlwaysAllowed, EditImpliesView and CollaboratorViewsButCannotEdit |
| Access.CanManageDeployment | samosval/access.py:66-83 | the manage rule, defined here; its contract is stated by StaffAlwaysAllowed, OtherRolesDenied and DeveloperManage |
| Access.RoleRequired | samosval/access.py:17-19 | no contract of its own; characterised by RoleGates |
| Access.RoleGates | samosval/access.py:17-19 | the staff gate passes iff the role is admin or operator, and then viewing, editing and managing are all allowed; the developer gate passes iff the role is developer, and then the staff gate refuses |
| Telemetry.BoundedAppend | samosval/simulator/state.py:30-33 | appending to a full buffer drops exactly the oldest entry; otherwise it appends; the new entry is last |
| Telemetry.AppendAllKeepsNewest | samosval/simulator/state.py:30-33 | appending lines one at a time leaves the newest capacity-many of old and new lines, in order |
| Telemetry.AppendLog | samosval/simulator/state.py:24-33 | only the target deployment's log buffer changes; metrics and seeds are untouched; capacities hold |
| Telemetry.AppendLogs | samosval/simulator/state.py:30-33 | a run of appends to one buffer leaves every other buffer and all metric state unchanged |
| Telemetry.AppendMetricPoint | samosval/simulator/state.py:55-60 | only the target deployment's metric buffer changes, by the same eviction rule with capacity 900 |
| Telemetry.GetRecentLogs | samosval/simulator/state.py:36-43 | empty for an unknown buffer; the whole buffer when the limit is non-positive or too large; else the last `limit` lines in order |
| Telemetry.LogSnapshot | samosval/simulator/state.py:46-52 | empty for a deployment with no buffer; never longer than 1000 lines while the store is bounded |
| Telemetry.GetMetrics | samosval/simulator/state.py:63-68 | empty for a deployment with no series; never longer than 900 points while the store is bounded |
| Telemetry.GetOrCreateMetricState | samosval/simulator/state.py:71-75 | an unseen id gets (50.0, 50.0) and records it; a seen id returns its stored pair and changes nothing; afterwards the id's seed is the returned pair |
| Telemetry.UpdateMetricState | samosval/simulator/state.py:78-80 | the id's seed becomes the given pair; every other id keeps its seed; buffers are untouched |
| Telemetry.ReadAfterUpdate | samosval/simulator/state.py:71-80 | the read after an update returns the stored pair |
| Telemetry.ReadIsIdempotent | samosval/simulator/state.py:71-75 | a second read returns the same pair and changes nothing |
| Telemetry.BoundedForever | samosval/simulator/state.py:10-60 | no sequence of store operations takes a buffer past 1000 log lines or 900 metric points |
| Telemetry.AppendLogsWindow | samosval/simulator/state.py:30-52 | the snapshot after a run of appends is the newest 1000 of the old and new lines |
| Engine.CreateImageForBuild | samosval/simulator/engine.py:126-146 | no image iff the request row is missing; otherwise one new image with a fresh id, tagged name:version of the request |
| Engine.ImageTag | samosval/simulator/engine.py:135 | the tag text `name:version`, defined here; its contract is stated by CreateImageForBuild |
| Engine.BuildLogLine | samosval/simulator/engine.py:148-158 | the build progress line text, defined here; StepBuild states where these lines go |
| Engine.StepBuild | samosval/simulator/engine.py:59-121 | queued goes to building with the queued line; a building row gets its drawn lines and, as the draw says, stays, succeeds with the success line and the linked image, or fails with the failure line and message; the audit gets the start or finish event of that move |
| Engine.AdvanceBuild | samosval/simulator/engine.py:46-57 | queued and building rows take the step their draw dictates with its audit records; any other row is untouched and writes nothing |
| Engine.BuildStepGrowsLog | samosval/simulator/engine.py:59-121 | a build step keeps the id, request and builder, and only appends to the log |
| Engine.ProcessBuilds | samosval/simulator/engine.py:46-124 | every row takes the build step its own draw dictates; the image, audit and id invariants are kept |
| Engine.BuildPhaseAudit | samosval/simulator/engine.py:46-124 | the audit after the build phase is the old audit followed by each moved row's start or finish event, in table order |
| Engine.StepDeployment | samosval/simulator/engine.py:169-208 | unchanged iff the draw does not resolve; otherwise running or failed as the second draw says, stamped with the time; failed iff it resolves unsuccessfully, and then exactly one unresolved deployment alert is added; the audit gets "deployment_running" or "deployment_failed" for that row |
| Engine.ProcessDeployments | samosval/simulator/engine.py:160-210 | every row takes the step its own draw dictates (only deploying rows can move); alerts are only appended, each a deployment alert |
| Engine.FailuresRaiseAlerts | samosval/simulator/engine.py:160-210 | the new alerts target exactly the rows moved to failed, in order |
| Engine.DeployPhaseAudit | samosval/simulator/engine.py:160-210 | the audit after the deployment phase is the old audit followed by each moved row's running or failed record, in table order |
| Engine.Clamp | samosval/simulator/engine.py:261-262 | the result lies in [0, 100], equals the input inside it and the nearer bound outside |
| Engine.GenerateMetrics | samosval/simulator/engine.py:256-270 | the new seed is the old one (50, 50 when unseen) moved by the drawn deltas and clamped to [0, 100]; the appended point equals it; nothing else changes |
| Engine.RuntimeForDeployment | samosval/simulator/engine.py:224-230 | one to three log lines and exactly one metric point for that deployment; others untouched |
| Engine.RuntimeLogLine | samosval/simulator/engine.py:232-254 | the runtime log line text, defined here; RuntimeServesEachRow states which lines each deployment receives |
| Engine.GenerateRuntime | samosval/simulator/engine.py:212-230 | deployments that are not running keep their buffers; seeds stay in range; capacities hold |
| Engine.RuntimeServesEachRow | samosval/simulator/engine.py:212-230 | with distinct ids, each running row whose image exists gets exactly its drawn lines, tagged with the image, and one more metric point; every other row's buffers are unchanged |
| Engine.Tick | samosval/simulator/engine.py:41-44 | users and requests unchanged; every build and every deployment takes the step its own draw dictates; images, alerts and audit only grow |
| Engine.TickServesRunning | samosval/simulator/engine.py:41-44 | with distinct deployment ids, a tick serves telemetry to each deployment as the deployment phase left it, from its buffers before the tick |
| Engine.TickAudit | samosval/simulator/engine.py:41-210 | a tick's audit is the old audit, then the build phase's start and finish records, then the deployment phase's running and failed records |
| Engine.Run | samosval/simulator/engine.py:30-44 | repeated ticks, defined here; TelemetryStaysInRange, FinishedBuildsAreFinal and SettledDeploymentsStay state what holds over a run |
| Engine.TelemetryStaysInRange | samosval/simulator/engine.py:256-270 | after any number of ticks every cpu and ram seed lies in [0, 100] and buffers stay bounded |
| Engine.FinishedBuildsAreFinal | samosval/simulator/engine.py:52-54 | over any number of ticks, logs only grow and a finished build never changes again |
| Engine.SettledDeploymentsStay | samosval/simulator/engine.py:160-167 | over any number of ticks, a deployment that is not deploying stays exactly as it is |
| Api.BuildLog | samosval/routes/api_routes.py:43-59 | 404 iff no build has the id; otherwise that build's id, status and log |
| Api.TriggeredBuildLog | samosval/routes/api_routes.py:43-59 | a build triggered from the UI reads back as queued with the UI's line; after one tick it reads back as building with the engine's queued line appended |
| Api.DeploymentMetrics | samosval/routes/api_routes.py:62-78 | 404 iff no deployment has the id; otherwise the three series, point by point from the buffer |
| Api.Field | samosval/routes/api_routes.py:114-117 | blank for a missing key; otherwise stripped, with no whitespace at either end |
| Api.ValidPayload | samosval/routes/api_routes.py:119-120 | the guard, defined here; CommitHook states that it decides the 400 |
| Api.StreamStep | samosval/routes/api_routes.py:95-102 | a longer snapshot emits its lines past the cursor and moves the cursor to its length; otherwise nothing |
| Api.StreamNoLoss | samosval/routes/api_routes.py:94-105 | while snapshots only grow, what was shown plus what is emitted is the last snapshot |
| Api.StreamStallsWhenFull | samosval/routes/api_routes.py:95-102 | once the cursor reaches the capacity, nothing is ever emitted again |
| Api.FullBufferHidesNewLine | samosval/routes/api_routes.py:95-102 | a line appended to a full buffer is in the snapshot but the stream does not emit it |
| Api.CountedStreamStep | samosval/routes/api_routes.py:95-102 | the corrected cursor emits the newest unseen lines still in the buffer |
| Api.CountedStreamNoLoss | samosval/routes/api_routes.py:94-105 | the corrected stream, polled once per buffer's worth of lines, emits every line exactly once in order |
| Api.HookRows | samosval/routes/api_routes.py:123-137 | exactly the deployments whose request is continuous with the same repository and branch, in table order |
| Api.MatchesCommit | samosval/routes/api_routes.py:123-137 | the query's filter, defined here; HookRows states that exactly the matching rows are returned |
| Api.HookUpdate | samosval/routes/api_routes.py:143-167 | operator-stopped rows are only marked for restart; others go to deploying with the mark cleared; the flag and environment are never written |
| Api.HookUpdateIdempotent | samosval/routes/api_routes.py:143-167 | applying the update twice equals applying it once |
| Api.ApplyHook | samosval/routes/api_routes.py:147-165 | rows not returned by the query are unchanged; ids and flags are kept |
| Api.HookLogLine | samosval/routes/api_routes.py:168-173 | the hook's log line text, defined here; HookLogLineMentions states what it mentions |
| Api.HookLogLineMentions | samosval/routes/api_routes.py:168-173 | the log line names the commit and says "marked for restart" or "auto-restart triggered" |
| Api.HookLogs | samosval/routes/api_routes.py:168-173 | each buffer receives the lines of its returned rows, in order; metrics untouched |
| Api.HookCounts | samosval/routes/api_routes.py:139-167 | restarted plus marked equals the number of matched rows; marked counts the operator-stopped ones |
| Api.CommitHook | samosval/routes/api_routes.py:108-199 | 400 with nothing changed iff a field is blank; otherwise the counts, the update, the log lines, and the "commit_hook_received" record with the commit, repository, branch and match count, then the "deployments_restarted" record with both counts iff anything matched |
| Api.CommitHookUpdatesMatches | samosval/routes/api_routes.py:123-167 | with distinct ids, exactly the matching deployments are updated and all others are unchanged |
| Api.CommitHookLogsOneLine | samosval/routes/api_routes.py:143-173 | with distinct ids, each matching deployment's buffer receives exactly one line and the others none |
| DeploymentRoutes.JoinDeployment | samosval/routes/deployment_routes.py:109-122 | no row iff the deployment, its image or its request is missing; otherwise the three joined rows |
| DeploymentRoutes.InlineCanView | samosval/routes/deployment_routes.py:36-48 | the inline visibility test, defined here; InlineViewIsCanView states it agrees with the view rule |
| DeploymentRoutes.InlineViewIsCanView | samosval/routes/deployment_routes.py:36-48 | the inline visibility test agrees with `can_view_request` on every user and row |
| DeploymentRoutes.ListDeployments | samosval/routes/deployment_routes.py:14-51 | exactly the joined rows the user may view, in table order |
| DeploymentRoutes.ViewDeployment | samosval/routes/deployment_routes.py:56-106 | 404 before the 403 visibility check; at most 200 recent log lines; the control flag is the manage rule |
| DeploymentRoutes.EnsureCanManage | samosval/routes/deployment_routes.py:125-131 | 404 iff the join is empty; 403 iff the user may not manage; otherwise the joined row |
| DeploymentRoutes.ManageGuardPasses | samosval/routes/deployment_routes.py:125-131 | the guard passes only for staff or for the owning developer of a deployment no operator stopped |
| DeploymentRoutes.Relaunch | samosval/routes/deployment_routes.py:136-216 | fails exactly as the guard does; otherwise every row with that id goes to deploying with the restart mark cleared, the time set and the flag kept, every other row and table is unchanged, and one audit record is added |
| DeploymentRoutes.Start | samosval/routes/deployment_routes.py:136-159 | fails exactly as the guard does; otherwise every row with that id goes to deploying with the restart mark cleared, the time set and the flag kept, every other row and table is unchanged, and one audit event is added |
| DeploymentRoutes.Restart | samosval/routes/deployment_routes.py:193-216 | fails exactly when start does, with the same code; otherwise leaves what start leaves but for its own audit record |
| DeploymentRoutes.StartIsRestart | samosval/routes/deployment_routes.py:136-216 | start and restart leave the same deployments; afterwards the row reads back as deploying, not marked, with its flag |
| DeploymentRoutes.Stop | samosval/routes/deployment_routes.py:164-188 | guarded; the row goes to stopped and the flag records whether staff stopped it |
| DeploymentRoutes.Delete | samosval/routes/deployment_routes.py:221-233 | guarded; exactly the rows with that id are removed, the others stay in order |
| DeploymentRoutes.StopKeepsOperatorFlag | samosval/routes/deployment_routes.py:125-188 | a successful stop never clears a set operator flag |
| RequestRoutes.ParseRequestForm | samosval/routes/request_routes.py:62-79 | each text field is its stripped form; a blank branch gives "main"; the mode defaults to "static"; each optional field is None iff blank and otherwise its stripped form; numbers pass through |
| RequestRoutes.ParseRenderedForm | samosval/routes/request_routes.py:62-79 | parsing a normalised request written back into a form with any padding gives it back |
| RequestRoutes.ParseIsIdempotent | samosval/routes/request_routes.py:62-79 | parsing the rendering of a parsed form changes nothing |
| RequestRoutes.ValidateRequestForm | samosval/routes/request_routes.py:82-98 | one error per failed check in the fixed order; empty iff all checks pass |
| RequestRoutes.CheckRequestForm | samosval/routes/request_routes.py:105-118 | the form errors, then the owner error iff a named owner is not an existing developer |
| RequestRoutes.CheckOrderDetermines | samosval/routes/request_routes.py:82-98 | two ordered error lists with the same members are equal, so the list is determined by the failed checks |
| RequestRoutes.AcceptedFormHasOwner | samosval/routes/request_routes.py:107-118 | an accepted form names an existing developer as owner |
| RequestRoutes.CreateRequest | samosval/routes/request_routes.py:101-154 | 403 for non-developers; errors write nothing; otherwise one draft row created by the user with a fresh id |
| RequestRoutes.CreatedRequestBelongsToCreator | samosval/routes/request_routes.py:143-146 | ids stay distinct and the creator may edit and view the new request |
| RequestRoutes.EditRequest | samosval/routes/request_routes.py:212-268 | 403 iff missing or not editable; errors write nothing; otherwise only rows with that id are rewritten |
| RequestRoutes.EditRequestReadsBack | samosval/routes/request_routes.py:212-268 | after a saved edit the request reads back rewritten by the form, keeping id, status and creator, owned by the developer the form names |
| RequestRoutes.ViewRequest | samosval/routes/request_routes.py:157-187 | 403 iff missing or not viewable; otherwise exactly the request's builds and images |
| RequestRoutes.EditRequestPage | samosval/routes/request_routes.py:39-59 | 403 iff the request or its owner is missing or it is not editable |
| RequestRoutes.JoinRequest | samosval/routes/request_routes.py:160-172 | no row iff the request, its owner or its creator is missing; otherwise that request with its owner and creator user rows |
| RequestRoutes.EditPageAgreesWithEdit | samosval/routes/request_routes.py:39-59 | whoever may open the edit page may submit the edit; whoever the edit refuses gets 403 on the page |
| RequestRoutes.SubmitRequest | samosval/routes/request_routes.py:190-209 | 403 for non-developers or unviewable requests; only a draft becomes submitted; anything else is unchanged |
| RequestRoutes.SubmitTwiceIsSubmitOnce | samosval/routes/request_routes.py:199-206 | submitting twice leaves the table as one submit does |
| RequestRoutes.ChangeStatus | samosval/routes/request_routes.py:271-292 | staff only; a status outside the five is ignored; a valid one is set from any current status |
| RequestRoutes.ChangeStatusReadsBack | samosval/routes/request_routes.py:276-290 | after a valid change every row with that id carries the new status |
| RequestRoutes.TriggerBuild | samosval/routes/request_routes.py:295-323 | 403 for non-staff; 404 for a missing request; otherwise one queued build with no image and the fixed log line |
| ImageRoutes.ViewImage | samosval/routes/image_routes.py:26-45 | 404 iff the image or its request is missing; otherwise exactly the image's deployments |
| ImageRoutes.NewDeployment | samosval/routes/image_routes.py:56-73 | the defaults: name, "dev", 1 replica, blank ports as None; starts deploying with both flags clear |
| ImageRoutes.CreateDeployment | samosval/routes/image_routes.py:48-76 | 403 for non-staff; 404 for a missing image with nothing written; otherwise one row with a fresh id |
| ImageRoutes.CreateDeploymentKeepsKeys | samosval/routes/image_routes.py:64-73 | ids stay distinct and the new row refers to an existing image |
| ImageRoutes.DefaultNamesDistinct | samosval/routes/image_routes.py:56 | distinct (image, user) pairs give distinct default names |
| AdminRoutes.EnsureAdmin | samosval/routes/admin_routes.py:14-20 | 401 without a user, 403 for a non-admin, pass for an admin |
| Records.Audit | samosval/db.py:72-80 | one more audit record, after all earlier ones in order; no other table changes |
| Records.RoleParseName | samosval/access.py:10-24 | parsing never puts a known role name under Other, and on such roles rendering then parsing gives the role back |
| AdminRoutes.EnsureAdminIsAdminGate | samosval/routes/admin_routes.py:14-20 | for a signed-in user the admin guard passes iff the admin-only role gate does; an operator passes the staff gate but not this one |
| AdminRoutes.CreateUser | samosval/routes/admin_routes.py:33-70 | guard codes; invalid input and taken names write nothing; otherwise one active user with a fresh id and name, and an audit event |
| AdminRoutes.CreateUserKeepsUsersDistinct | samosval/routes/admin_routes.py:45-59 | user ids and usernames stay distinct |
| AdminRoutes.ChangeUserActive | samosval/routes/admin_routes.py:73-97 | guard codes; 404 for a missing user; root is refused unchanged; otherwise only that user's flag is set |
| AdminRoutes.BlockUser | samosval/routes/admin_routes.py:100-103 | the user is inactive, every other user unchanged, one "user_block" event |
| AdminRoutes.UnblockUser | samosval/routes/admin_routes.py:106-109 | the user is active, every other user unchanged, one "user_unblock" event |
| AdminRoutes.RootStaysActive | samosval/routes/admin_routes.py:78-83 | blocking root leaves the database unchanged |
| AdminRoutes.BlockThenUnblock | samosval/routes/admin_routes.py:100-109 | blocking then unblocking an active user restores the users table |
| Legacy.GenerateDockerfile | app.py:96-111 | the fixed header comes first; the ENTRYPOINT line ends the text iff the entrypoint is set |
| Legacy.Log | app.py:85-94 | one more audit record, after all earlier ones in order; no other table changes |
| Legacy.DockerfileLineStructure | app.py:96-111 | split into lines: the header lines, one RUN line per command in order, then ENTRYPOINT iff set |
| Legacy.Login | app.py:114-134 | 401 iff no such user or a failed check; 403 iff a banned user passes the check; otherwise the user and a login event |
| Legacy.AddUser | app.py:19-23 | 400 iff the username is taken; 500 iff only the email is, since the unique column refuses the commit; otherwise one new row with both fresh |
| Legacy.Register | app.py:136-152 | 400 iff the username is taken; 500 iff only the email is; otherwise one unbanned developer with that email, the hashed password and an event |
| Legacy.CreateLegacyUser | app.py:423-439 | 400 iff the username is taken; 500 iff only the email is; otherwise one user with the role as given, that email and the hashed password, and an event with the role |
| Legacy.NewUsersStayDistinct | app.py:19-23 | registering and creating users keep usernames and emails distinct |
| Legacy.CreatedUserCanLogIn | app.py:114-134 | a user the admin creates can log in at once with the given password and is the user login returns |
| Legacy.SetBanned | app.py:441-459 | 404 iff missing; otherwise only that user's ban flag is set, with an event |
| Legacy.BannedUserCannotLogIn | app.py:119-121 | after a ban, login as that user fails whatever the password |
| Legacy.CreateApplication | app.py:171-191 | missing keys get their defaults; the application is pending with no operator and a fresh id |
| Legacy.Approve | app.py:251-271 | 404 iff missing; approved by the operator; exactly one new ready image tagged "latest" with the generated Dockerfile |
| Legacy.Reject | app.py:273-282 | 404 iff missing; rejected by the operator; no image |
| Legacy.RejectedCanBeApproved | app.py:251-282 | approval does not check the status: a rejected application can still be approved, and gets its image |
| Legacy.SubmittedApplicationBuildsItsCommands | app.py:96-111 | a submitted application can be approved at once, and its image's Dockerfile, read line by line, starts from the base image, clones the branch and runs the submitted commands in order |
| Legacy.Rebuild | app.py:355-375 | 404 for a missing image, 500 for a missing application; otherwise the Dockerfile is regenerated and the image ends ready |
| Legacy.RebuildIsIdempotent | app.py:355-375 | a second rebuild leaves the images as the first one does |
| Legacy.ApproveThenRebuild | app.py:362-373 | rebuilding a just-approved image does not change it |
| Legacy.SetDeploymentStatus | app.py:206-232 | 404 iff missing; otherwise only the status is set, for any caller, with an event for the requester |
| Legacy.StartDeployment | app.py:206-213 | the deployment is running |
| Legacy.StopDeployment | app.py:215-222 | the deployment is stopped |
| Legacy.RestartDeployment | app.py:224-232 | the deployment is running; fails exactly when start does, and otherwise leaves the database start leaves but for the audit action "restart_deployment" |
| Legacy.StopAfterStart | app.py:206-222 | stop after start leaves the deployments as stop alone does |

## Findings

| source | as written | input that shows it | evidently intended | confidence | as-written member | corrected member |
|---|---|---|---|---|---|---|
| samosval/routes/api_routes.py:95-102 | the stream's cursor is the buffer length, which stops at 1000 once the buffer is full | a deployment whose buffer holds 1000 lines receives one more line: the snapshot ends with it, its length is still 1000, and the stream sends nothing, then or ever after | a live stream keeps sending new lines after the buffer starts evicting | high (not executed) | Api.FullBufferHidesNewLine | Api.CountedStreamNoLoss |

The corrected cursor needs the store to count every line appended to a
buffer. `CountedStreamStep` takes that count as an argument.

## Left out

- **Concurrency.** The engine's background thread, its stop event and its
  one-second sleep are not modelled. Neither are the telemetry store's
  locks or the endless loop of the event stream. Each is modelled as single
  sequential steps.
- **Probabilities.** Every `random.*` call is an oracle argument. The model
  states what can happen, not how likely it is.
- **Floating point.** cpu, ram and vcpu are reals, without IEEE rounding.
- **Timestamps.** `datetime.utcnow`, `isoformat` and `strftime` results are
  opaque strings. `DeploymentMetrics` takes the `strftime` as a function
  argument.
- **Legacy `updated_at`.** The legacy deployment row has no timestamp
  column here, so the `updated_at` that `restart_deployment` sets
  (app.py:228) is not modelled.
- **Numeric form fields.** `int()` and `float()` of non-numeric text raise
  in the source. The form carries those fields already converted, as
  `Option`.
- **SQL ordering.** The `ORDER BY` clauses of the list queries are not
  modelled. Rows are kept in table order.
- **Presentation.** SQL text, `LIKE` search, `flash`, `redirect`,
  `render_template` and the login redirect for unauthenticated users are
  not modelled.
- **Read-only lists.** `list_requests`, `list_images`, the users and audit
  pages, `users_search`, and the legacy list and detail endpoints only read
  and render. They are not modelled.
- **Legacy deployment creation.** The legacy `create_deployment` inserts
  the posted fields as they are. It is not modelled.
- **Password hashing.** Hashing and checking are function arguments.
- **Legacy exceptions.** The legacy routes index missing JSON keys, which
  raises `KeyError`. This is not modelled: the JSON bodies are taken as
  complete. The failed commit on a taken email is modelled as a 500.
- **Legacy JSON columns.** `run_commands` is a sequence of strings rather
  than JSON text. An explicit JSON `null` for it is stored as the text
  `null`, on which the Dockerfile generation fails. This is not modelled.
- **Commit hook payloads.** A body that is not a JSON object, or a field
  that is not a string, makes the source fail. It is not modelled: the
  fields are optional strings.
- **Special floats.** A `vcpu` of NaN or infinity passes Python's
  `float()`. vcpu is a real, so such values are not modelled.
- Legacy.Rebuild: the intermediate commit with status "building" is not
  observable in the final state and is not modelled.
- Engine.RuntimeForDeployment: states the length of the metric buffer,
  not the appended point. The point and the new seed are stated by
  `GenerateMetrics`.
- **Database helpers.** `samosval/db.py` connection and schema code is not
  part of this model. Neither are `samosval/auth.py`, `auth_routes.py`,
  `build_routes.py`, `dashboard_routes.py` or the browser scripts.
