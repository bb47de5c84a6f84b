/** The JSON endpoints (`samosval/routes/api_routes.py`): the build log,
    a deployment's metric series, the server-sent-events log cursor and the
    commit hook that restarts continuously deployed services. */
module Api {
  import opened Common
  import opened Records
  import opened Telemetry
  import opened Engine
  import RequestRoutes

  // ---------------------------------------------------------------------
  // GET /builds/<id>/log
  // ---------------------------------------------------------------------

  datatype BuildLogReply = BuildLogReply(id: int, status: BuildStatus, log: string)

  /** `build_log`: the build's id, status and log, or 404. */
  function BuildLog(db: Db, buildId: int): (r: Outcome<BuildLogReply>)
    ensures r.Fail? <==> forall i :: 0 <= i < |db.builds| ==> db.builds[i].id != buildId
    ensures r.Fail? ==> r.code == 404
    ensures r.Ok? ==> exists b :: b in db.builds && b.id == buildId && r.value == BuildLogReply(buildId, b.status, b.log)
  {
    match FindBuild(db.builds, buildId)
    case None => Fail(404)
    case Some(b) => Ok(BuildLogReply(b.id, b.status, b.log))
  }

  /** A build enqueued from the UI shows in the build log as queued with
      the UI's opening line; after the next tick it is building, with the
      engine's queued line appended, whatever the tick draws. */
  lemma TriggeredBuildLog(db: Db, user: User, requestId: int, now: string, store: Store, t: TickDraws)
    requires RequestRoutes.TriggerBuild(db, user, requestId, now).Ok?
    ensures var (db1, buildId) := RequestRoutes.TriggerBuild(db, user, requestId, now).value;
            && BuildLog(db1, buildId) == Ok(BuildLogReply(buildId, Queued, RequestRoutes.UiBuildLog))
            && BuildLog(Tick(World(db1, store), t).db, buildId)
                 == Ok(BuildLogReply(buildId, Building, RequestRoutes.UiBuildLog + QueuedLine))
  {
    var (db1, buildId) := RequestRoutes.TriggerBuild(db, user, requestId, now).value;
    var n := |db.builds|;
    FindFirstKey(db1.builds, buildId, BuildKey, n);
    var bs := Tick(World(db1, store), t).db.builds;
    forall j | 0 <= j < |db1.builds| ensures BuildKey(bs[j]) == BuildKey(db1.builds[j]) {
      BuildStepGrowsLog(db1.builds[j], bs[j], t.build(db1.builds[j].id));
    }
    FindSameKeys(db1.builds, bs, buildId, BuildKey);
  }

  // ---------------------------------------------------------------------
  // GET /deployments/<id>/metrics
  // ---------------------------------------------------------------------

  /** The three parallel series of the metrics chart. */
  datatype MetricsReply = MetricsReply(labels: seq<string>, cpu: seq<real>, ram: seq<real>)

  /** `deployment_metrics`: 404 for an unknown deployment, otherwise the
      stored points split into columns; `hms` is the `%H:%M:%S` rendering of
      a timestamp. */
  function DeploymentMetrics(db: Db, s: Store, id: int, hms: string -> string): (r: Outcome<MetricsReply>)
    ensures r.Fail? <==> forall i :: 0 <= i < |db.deployments| ==> db.deployments[i].id != id
    ensures r.Fail? ==> r.code == 404
    ensures r.Ok? ==>
              var pts := GetMetrics(s, id);
              && |r.value.labels| == |r.value.cpu| == |r.value.ram| == |pts|
              && forall i :: 0 <= i < |pts| ==>
                   r.value.labels[i] == hms(pts[i].ts) && MetricPoint(pts[i].ts, r.value.cpu[i], r.value.ram[i]) == pts[i]
  {
    if FindDeployment(db.deployments, id).None? then Fail(404)
    else
      var pts := GetMetrics(s, id);
      Ok(MetricsReply(seq(|pts|, i requires 0 <= i < |pts| => hms(pts[i].ts)),
                      seq(|pts|, i requires 0 <= i < |pts| => pts[i].cpu),
                      seq(|pts|, i requires 0 <= i < |pts| => pts[i].ram)))
  }

  // ---------------------------------------------------------------------
  // GET /deployments/<id>/logs/stream: the length cursor
  // ---------------------------------------------------------------------

  datatype Cursor = Cursor(emitted: seq<string>, lastLen: nat)

  /** One pass of the event-stream loop: a snapshot longer than `lastLen`
      emits its lines from position `lastLen` on and moves the cursor to its
      length; otherwise nothing is emitted. */
  function StreamStep(lines: seq<string>, lastLen: nat): (r: Cursor)
    ensures r.lastLen == if |lines| > lastLen then |lines| else lastLen
    ensures r.emitted == [] <==> |lines| <= lastLen
    ensures r.emitted != [] ==> lines == lines[..lastLen] + r.emitted
  {
    if |lines| > lastLen then Cursor(lines[lastLen..], |lines|) else Cursor([], lastLen)
  }

  /** The lines a stream emits over a series of snapshots. */
  function StreamRun(snaps: seq<seq<string>>, lastLen: nat): seq<string>
    decreases |snaps|
  {
    if |snaps| == 0 then []
    else
      var c := StreamStep(snaps[0], lastLen);
      c.emitted + StreamRun(snaps[1..], c.lastLen)
  }

  /** Each snapshot extends the previous one. */
  ghost predicate Growing(prev: seq<string>, snaps: seq<seq<string>>) {
    && |snaps| > 0 && prev <= snaps[0]
    && forall i :: 0 <= i < |snaps| - 1 ==> snaps[i] <= snaps[i + 1]
  }

  /** While the buffer only grows, the stream loses nothing: what was shown
      before plus everything emitted is the last snapshot. */
  lemma {:induction false} StreamNoLoss(prev: seq<string>, snaps: seq<seq<string>>)
    requires Growing(prev, snaps)
    ensures prev + StreamRun(snaps, |prev|) == snaps[|snaps| - 1]
    decreases |snaps|
  {
    var c := StreamStep(snaps[0], |prev|);
    assert prev + c.emitted == snaps[0] by {
      if |snaps[0]| == |prev| { assert snaps[0] == prev; }
    }
    if |snaps| == 1 {
      assert StreamRun(snaps[1..], c.lastLen) == [];
    } else {
      assert Growing(snaps[0], snaps[1..]) by {
        forall i | 0 <= i < |snaps[1..]| - 1 ensures snaps[1..][i] <= snaps[1..][i + 1] {
          assert snaps[1..][i] == snaps[i + 1];
        }
      }
      StreamNoLoss(snaps[0], snaps[1..]);
    }
  }

  /** Once the cursor has reached the buffer capacity it never moves again:
      a bounded buffer is never longer, so nothing more is emitted even
      while new lines keep arriving and evicting old ones. */
  lemma {:induction false} StreamStallsWhenFull(snaps: seq<seq<string>>, lastLen: nat)
    requires lastLen >= LogMaxLines
    requires forall i :: 0 <= i < |snaps| ==> |snaps[i]| <= LogMaxLines
    ensures StreamRun(snaps, lastLen) == []
    decreases |snaps|
  {
    if |snaps| > 0 {
      StreamStallsWhenFull(snaps[1..], lastLen);
    }
  }

  /** A concrete case: a full buffer receives a new line, the snapshot now
      ends with it, and a cursor at the capacity emits nothing. */
  lemma FullBufferHidesNewLine(s: Store, id: int, line: string)
    requires |LogsOf(s, id)| == LogMaxLines
    ensures var lines := LogSnapshot(AppendLog(s, id, line), id);
            lines[|lines| - 1] == line && StreamStep(lines, LogMaxLines).emitted == []
  {
  }

  /** The corrected cursor: `appended` counts every line ever written to
      the buffer and `seen` how many of them the stream has sent. The
      unseen lines still in the buffer are its newest ones. */
  function CountedStreamStep(lines: seq<string>, appended: nat, seen: nat): (r: Cursor)
    ensures r.lastLen == if appended > seen then appended else seen
    ensures appended <= seen ==> r.emitted == []
    ensures |r.emitted| <= |lines| && r.emitted == lines[|lines| - |r.emitted|..]
    ensures appended > seen && appended - seen <= |lines| ==> |r.emitted| == appended - seen
  {
    if appended <= seen then Cursor([], seen)
    else
      var unseen := if appended - seen <= |lines| then appended - seen else |lines|;
      Cursor(lines[|lines| - unseen..], appended)
  }

  /** A poll after a batch of at most a buffer's worth of new lines sends
      exactly that batch, full buffer or not. */
  lemma CountedStreamSendsBatch(buf: seq<string>, batch: seq<string>, seen: nat)
    requires |buf| <= LogMaxLines && |batch| <= LogMaxLines
    ensures var buf' := AppendAll(buf, batch, LogMaxLines);
            && |buf'| <= LogMaxLines
            && CountedStreamStep(buf', seen + |batch|, seen).emitted == batch
  {
    var buf' := AppendAll(buf, batch, LogMaxLines);
    AppendAllKeepsNewest(buf, batch, LogMaxLines);
    var all := buf + batch;
    assert all[|all| - |batch|..] == batch;
    var e := CountedStreamStep(buf', seen + |batch|, seen).emitted;
    assert e == buf'[|buf'| - |batch|..];
    SuffixOfSuffix(all, buf', |batch|);
  }

  function Flatten(batches: seq<seq<string>>): seq<string> {
    if |batches| == 0 then [] else batches[0] + Flatten(batches[1..])
  }

  /** The lines the corrected stream sends while the batches arrive, one
      poll after each batch. */
  function CountedRun(buf: seq<string>, batches: seq<seq<string>>, seen: nat): seq<string>
    decreases |batches|
  {
    if |batches| == 0 then []
    else
      var buf' := AppendAll(buf, batches[0], LogMaxLines);
      var c := CountedStreamStep(buf', seen + |batches[0]|, seen);
      c.emitted + CountedRun(buf', batches[1..], c.lastLen)
  }

  /** Polled at least once per buffer's worth of new lines, the corrected
      stream sends every line exactly once, in order, however long it
      runs. */
  lemma {:induction false} CountedStreamNoLoss(buf: seq<string>, batches: seq<seq<string>>, seen: nat)
    requires |buf| <= LogMaxLines
    requires forall i :: 0 <= i < |batches| ==> |batches[i]| <= LogMaxLines
    ensures CountedRun(buf, batches, seen) == Flatten(batches)
    decreases |batches|
  {
    if |batches| > 0 {
      var b := batches[0];
      var buf' := AppendAll(buf, b, LogMaxLines);
      CountedStreamSendsBatch(buf, b, seen);
      var c := CountedStreamStep(buf', seen + |b|, seen);
      assert CountedRun(buf, batches, seen) == c.emitted + CountedRun(buf', batches[1..], c.lastLen);
      assert forall i :: 0 <= i < |batches[1..]| ==> |batches[1..][i]| <= LogMaxLines by {
        forall i | 0 <= i < |batches[1..]| ensures |batches[1..][i]| <= LogMaxLines {
          assert batches[1..][i] == batches[i + 1];
        }
      }
      CountedStreamNoLoss(buf', batches[1..], c.lastLen);
    }
  }

  // ---------------------------------------------------------------------
  // POST /hooks/commit
  // ---------------------------------------------------------------------

  /** The three body fields; `None` is a missing key or a JSON null. */
  datatype CommitPayload = CommitPayload(repoUrl: Option<string>, branch: Option<string>, commit: Option<string>)

  /** `(payload.get(key) or "").strip()`: blank for a missing key, and
      never with whitespace at either end. */
  function Field(v: Option<string>): (r: string)
    ensures v.None? ==> r == ""
    ensures Trimmed(r)
  {
    match v
    case None => ""
    case Some(x) => Strip(x)
  }

  predicate ValidPayload(p: CommitPayload) {
    Field(p.repoUrl) != "" && Field(p.branch) != "" && Field(p.commit) != ""
  }

  /** The hook query's filter: the deployment's image and request rows
      exist, and the request is continuous and tracks this repository and
      branch. */
  predicate MatchesCommit(db: Db, d: Deployment, repoUrl: string, branch: string) {
    match RequestOfDeployment(db, d)
    case None => false
    case Some(req) => req.updateMode == "continuous" && req.repoUrl == repoUrl && req.repoBranch == branch
  }

  function MatchFilter(db: Db, repoUrl: string, branch: string): Deployment -> bool {
    (x: Deployment) => MatchesCommit(db, x, repoUrl, branch)
  }

  /** The rows the hook's query returns, in table order. */
  function HookRows(db: Db, repoUrl: string, branch: string): (rows: seq<Deployment>)
    ensures forall x :: multiset(rows)[x] == if MatchesCommit(db, x, repoUrl, branch) then multiset(db.deployments)[x] else 0
    ensures IsSubsequence(rows, db.deployments)
  {
    FilterSpec(db.deployments, MatchFilter(db, repoUrl, branch));
    Filter(db.deployments, MatchFilter(db, repoUrl, branch))
  }

  /** The update one matched row receives: an operator-stopped deployment
      is only marked for restart, any other is sent back to deploying. The
      flag itself is never written. */
  function HookUpdate(d: Deployment, stopped: bool, now: string): (d': Deployment)
    ensures d'.id == d.id && d'.stoppedByOperator == d.stoppedByOperator && d'.updatedAt == now
    ensures d'.name == d.name && d'.environment == d.environment && d'.imageId == d.imageId && d'.ports == d.ports && d'.replicas == d.replicas
    ensures stopped ==> d'.needsRestart && d'.status == d.status
    ensures !stopped ==> !d'.needsRestart && d'.status == Deploying
  {
    if stopped then d.(needsRestart := true, updatedAt := now)
    else d.(status := Deploying, needsRestart := false, updatedAt := now)
  }

  /** Applying the update twice is the same as applying it once. */
  lemma HookUpdateIdempotent(d: Deployment, stopped: bool, now: string)
    ensures HookUpdate(HookUpdate(d, stopped, now), stopped, now) == HookUpdate(d, stopped, now)
  {
  }

  /** The loop's `UPDATE deployments ... WHERE id = ?`, one per returned row,
      each choosing its branch by the flag the query returned. */
  function ApplyHook(ds: seq<Deployment>, rows: seq<Deployment>, now: string): (r: seq<Deployment>)
    ensures |r| == |ds|
    ensures forall j :: 0 <= j < |ds| ==> r[j].id == ds[j].id && r[j].stoppedByOperator == ds[j].stoppedByOperator
    ensures forall j :: 0 <= j < |ds| && ds[j].id !in DeploymentIds(rows) ==> r[j] == ds[j]
    decreases |rows|
  {
    if |rows| == 0 then ds
    else
      var row := rows[0];
      var ds' := UpdateWhere(ds, row.id, DeploymentKey, (d: Deployment) => HookUpdate(d, row.stoppedByOperator, now));
      ApplyHook(ds', rows[1..], now)
  }

  /** When every returned row carries the same flag as the table rows with
      its id, each table row ends up updated by its own flag exactly when
      its id was returned. */
  lemma {:induction false} ApplyHookPointwise(ds: seq<Deployment>, rows: seq<Deployment>, now: string)
    requires forall i, j :: 0 <= i < |rows| && 0 <= j < |ds| && ds[j].id == rows[i].id ==>
               ds[j].stoppedByOperator == rows[i].stoppedByOperator
    ensures forall j :: 0 <= j < |ds| ==>
              ApplyHook(ds, rows, now)[j] ==
                if ds[j].id in DeploymentIds(rows) then HookUpdate(ds[j], ds[j].stoppedByOperator, now) else ds[j]
    decreases |rows|
  {
    if |rows| > 0 {
      var row := rows[0];
      var f := (d: Deployment) => HookUpdate(d, row.stoppedByOperator, now);
      var ds' := UpdateWhere(ds, row.id, DeploymentKey, f);
      assert forall i :: 0 <= i < |rows[1..]| ==> rows[1..][i] == rows[i + 1];
      ApplyHookPointwise(ds', rows[1..], now);
      assert DeploymentIds(rows) == {row.id} + DeploymentIds(rows[1..]);
      forall j | 0 <= j < |ds|
        ensures ApplyHook(ds, rows, now)[j] ==
                  if ds[j].id in DeploymentIds(rows) then HookUpdate(ds[j], ds[j].stoppedByOperator, now) else ds[j]
      {
        if ds[j].id == row.id {
          assert ds'[j] == HookUpdate(ds[j], ds[j].stoppedByOperator, now);
          HookUpdateIdempotent(ds[j], ds[j].stoppedByOperator, now);
        }
      }
    }
  }

  /** The log line the hook appends for one returned row. */
  function HookLogLine(now: string, sha: string, repoUrl: string, branch: string, stopped: bool): string {
    now + " [INFO] Commit " + sha + " received for " + repoUrl + "@" + branch + ", "
    + (if stopped then "marked for restart" else "auto-restart triggered")
  }

  /** The line names the commit and says which branch the row took. */
  lemma HookLogLineMentions(now: string, sha: string, repoUrl: string, branch: string, stopped: bool)
    ensures var line := HookLogLine(now, sha, repoUrl, branch, stopped);
            var tail := if stopped then "marked for restart" else "auto-restart triggered";
            var at := |now| + |" [INFO] Commit "|;
            && line[at..at + |sha|] == sha
            && |line| >= |tail| && line[|line| - |tail|..] == tail
  {
  }

  /** The lines the hook appends to deployment `k`'s buffer, in order. */
  function HookLinesFor(rows: seq<Deployment>, k: int, now: string, sha: string, repoUrl: string, branch: string): seq<string>
    decreases |rows|
  {
    if |rows| == 0 then []
    else (if rows[0].id == k then [HookLogLine(now, sha, repoUrl, branch, rows[0].stoppedByOperator)] else [])
         + HookLinesFor(rows[1..], k, now, sha, repoUrl, branch)
  }

  /** The hook's `append_log` calls, one per returned row. */
  function HookLogs(s: Store, rows: seq<Deployment>, now: string, sha: string, repoUrl: string, branch: string): (r: Store)
    ensures forall k :: LogsOf(r, k) == AppendAll(LogsOf(s, k), HookLinesFor(rows, k, now, sha, repoUrl, branch), LogMaxLines)
    ensures r.metrics == s.metrics && r.seeds == s.seeds
    ensures Bounded(s) ==> Bounded(r)
    decreases |rows|
  {
    if |rows| == 0 then s
    else
      var s1 := AppendLog(s, rows[0].id, HookLogLine(now, sha, repoUrl, branch, rows[0].stoppedByOperator));
      var r := HookLogs(s1, rows[1..], now, sha, repoUrl, branch);
      assert forall k :: LogsOf(r, k) == AppendAll(LogsOf(s, k), HookLinesFor(rows, k, now, sha, repoUrl, branch), LogMaxLines) by {
        forall k ensures LogsOf(r, k) == AppendAll(LogsOf(s, k), HookLinesFor(rows, k, now, sha, repoUrl, branch), LogMaxLines) {
          var rest := HookLinesFor(rows[1..], k, now, sha, repoUrl, branch);
          if rows[0].id == k {
            var x := HookLogLine(now, sha, repoUrl, branch, rows[0].stoppedByOperator);
            assert ([x] + rest)[0] == x && ([x] + rest)[1..] == rest;
          } else {
            assert [] + rest == rest;
            assert LogsOf(s1, k) == LogsOf(s, k);
          }
        }
      }
      r
  }

  /** Rows with distinct ids: the buffer of a returned id receives exactly
      one line, every other buffer none. */
  lemma {:induction false} HookLinesDistinct(rows: seq<Deployment>, k: int, now: string, sha: string, repoUrl: string, branch: string)
    requires UniqueKeys(rows, DeploymentKey)
    ensures k !in DeploymentIds(rows) ==> HookLinesFor(rows, k, now, sha, repoUrl, branch) == []
    ensures forall i :: 0 <= i < |rows| && rows[i].id == k ==>
              HookLinesFor(rows, k, now, sha, repoUrl, branch) == [HookLogLine(now, sha, repoUrl, branch, rows[i].stoppedByOperator)]
    decreases |rows|
  {
    if |rows| > 0 {
      var tail := rows[1..];
      assert forall i :: 0 <= i < |tail| ==> tail[i] == rows[i + 1];
      assert UniqueKeys(tail, DeploymentKey);
      HookLinesDistinct(tail, k, now, sha, repoUrl, branch);
      if rows[0].id == k {
        assert k !in DeploymentIds(tail);
      }
    }
  }

  /** The response counters: rows auto-restarted and rows only marked. */
  function HookCounts(rows: seq<Deployment>): (c: (nat, nat))
    ensures c.0 + c.1 == |rows|
    ensures c.1 == |Filter(rows, (d: Deployment) => d.stoppedByOperator)|
    decreases |rows|
  {
    if |rows| == 0 then (0, 0)
    else
      var rest := HookCounts(rows[1..]);
      if rows[0].stoppedByOperator then (rest.0, rest.1 + 1) else (rest.0 + 1, rest.1)
  }

  datatype HookResponse = BadRequest | Accepted(matched: nat, restarted: nat, marked: nat)

  datatype HookReply = HookReply(world: World, response: HookResponse)

  /** `commit_hook` */
  function CommitHook(w: World, p: CommitPayload, now: string): (r: HookReply)
    ensures r.response == BadRequest <==> !ValidPayload(p)
    ensures r.response == BadRequest ==> r.world == w
    ensures r.response.Accepted? ==>
              var rows := HookRows(w.db, Field(p.repoUrl), Field(p.branch));
              && r.response.matched == |rows|
              && r.response.restarted + r.response.marked == r.response.matched
              && r.response.marked == |Filter(rows, (d: Deployment) => d.stoppedByOperator)|
    ensures r.world.db == w.db.(deployments := r.world.db.deployments, audit := r.world.db.audit)
    ensures |r.world.db.deployments| == |w.db.deployments|
    ensures forall j :: 0 <= j < |w.db.deployments| ==>
              r.world.db.deployments[j].id == w.db.deployments[j].id
              && r.world.db.deployments[j].stoppedByOperator == w.db.deployments[j].stoppedByOperator
    ensures r.world.store.metrics == w.store.metrics && r.world.store.seeds == w.store.seeds
    ensures Bounded(w.store) ==> Bounded(r.world.store)
    ensures r.response.Accepted? ==>
              && |r.world.db.audit| == |w.db.audit| + (if r.response.matched > 0 then 2 else 1)
              && w.db.audit <= r.world.db.audit
              && r.world.db.audit[|w.db.audit|]
                   == AuditEvent(None, "commit_hook_received", None,
                                 "Commit " + Field(p.commit) + " for " + Field(p.repoUrl) + "@" + Field(p.branch)
                                 + ", deployments=" + NatToString(r.response.matched))
              && (r.response.matched > 0 ==>
                    r.world.db.audit[|w.db.audit| + 1]
                      == AuditEvent(None, "deployments_restarted", None,
                                    "Auto-restarted=" + NatToString(r.response.restarted)
                                    + ", marked=" + NatToString(r.response.marked)))
  {
    if !ValidPayload(p) then HookReply(w, BadRequest)
    else
      var repoUrl := Field(p.repoUrl);
      var branch := Field(p.branch);
      var sha := Field(p.commit);
      var rows := HookRows(w.db, repoUrl, branch);
      var (restarted, marked) := HookCounts(rows);
      var ds := ApplyHook(w.db.deployments, rows, now);
      var store := HookLogs(w.store, rows, now, sha, repoUrl, branch);
      var db1 := Audit(w.db.(deployments := ds), None, "commit_hook_received", None,
                       "Commit " + sha + " for " + repoUrl + "@" + branch + ", deployments=" + NatToString(|rows|));
      var db2 :=
        if restarted > 0 || marked > 0 then
          Audit(db1, None, "deployments_restarted", None,
                "Auto-restarted=" + NatToString(restarted) + ", marked=" + NatToString(marked))
        else db1;
      HookReply(World(db2, store), Accepted(|rows|, restarted, marked))
  }

  /** With distinct deployment ids, the hook updates exactly the matching
      deployments, each by its own flag, and leaves every other row as it
      was. */
  lemma CommitHookUpdatesMatches(w: World, p: CommitPayload, now: string)
    requires ValidPayload(p)
    requires UniqueKeys(w.db.deployments, DeploymentKey)
    ensures var ds := w.db.deployments;
            var r := CommitHook(w, p, now).world.db.deployments;
            forall j :: 0 <= j < |ds| ==>
              r[j] == if MatchesCommit(w.db, ds[j], Field(p.repoUrl), Field(p.branch))
                      then HookUpdate(ds[j], ds[j].stoppedByOperator, now) else ds[j]
  {
    var url, branch := Field(p.repoUrl), Field(p.branch);
    var rows := HookRows(w.db, url, branch);
    assert CommitHook(w, p, now).world.db.deployments == ApplyHook(w.db.deployments, rows, now);
    MatchedRowsUpdated(w.db, url, branch, now);
  }

  /** The rows the hook's query returns, when deployment ids are distinct:
      distinct themselves, each equal to the table row with its id, and
      their ids are exactly those of the matching deployments. */
  lemma HookRowsFacts(db: Db, url: string, branch: string)
    requires UniqueKeys(db.deployments, DeploymentKey)
    ensures var ds := db.deployments;
            var rows := HookRows(db, url, branch);
            && UniqueKeys(rows, DeploymentKey)
            && (forall i, j :: 0 <= i < |rows| && 0 <= j < |ds| && ds[j].id == rows[i].id ==> ds[j] == rows[i])
            && (forall j :: 0 <= j < |ds| ==> (ds[j].id in DeploymentIds(rows) <==> MatchesCommit(db, ds[j], url, branch)))
  {
    var ds := db.deployments;
    var keep := MatchFilter(db, url, branch);
    var rows := Filter(ds, keep);
    assert HookRows(db, url, branch) == rows;
    FilterKeepsUnique(ds, keep, DeploymentKey);
    forall i, j | 0 <= i < |rows| && 0 <= j < |ds| && ds[j].id == rows[i].id
      ensures ds[j] == rows[i]
    {
      FilteredRowIsTableRow(ds, keep, DeploymentKey, i, j);
    }
    forall j | 0 <= j < |ds|
      ensures ds[j].id in DeploymentIds(rows) <==> MatchesCommit(db, ds[j], url, branch)
    {
      if ds[j].id in DeploymentIds(rows) {
        var i :| 0 <= i < |rows| && rows[i].id == ds[j].id;
        FilteredRowIsTableRow(ds, keep, DeploymentKey, i, j);
      } else {
        FilterMember(ds, keep, ds[j]);
      }
    }
  }

  lemma MatchedRowsUpdated(db: Db, url: string, branch: string, now: string)
    requires UniqueKeys(db.deployments, DeploymentKey)
    ensures var ds := db.deployments;
            var r := ApplyHook(ds, HookRows(db, url, branch), now);
            forall j :: 0 <= j < |ds| ==>
              r[j] == if MatchesCommit(db, ds[j], url, branch) then HookUpdate(ds[j], ds[j].stoppedByOperator, now) else ds[j]
  {
    HookRowsFacts(db, url, branch);
    ApplyHookPointwise(db.deployments, HookRows(db, url, branch), now);
  }

  /** With distinct deployment ids, every matching deployment's buffer
      receives exactly its one hook line, and the buffer of an id that no
      deployment has is untouched. */
  lemma CommitHookLogsOneLine(w: World, p: CommitPayload, now: string)
    requires ValidPayload(p)
    requires UniqueKeys(w.db.deployments, DeploymentKey)
    ensures var ds := w.db.deployments;
            var url, branch, sha := Field(p.repoUrl), Field(p.branch), Field(p.commit);
            var st := CommitHook(w, p, now).world.store;
            && (forall j :: 0 <= j < |ds| ==>
                  LogsOf(st, ds[j].id) ==
                    if MatchesCommit(w.db, ds[j], url, branch)
                    then BoundedAppend(LogsOf(w.store, ds[j].id), HookLogLine(now, sha, url, branch, ds[j].stoppedByOperator), LogMaxLines)
                    else LogsOf(w.store, ds[j].id))
            && (forall k :: k !in DeploymentIds(ds) ==> LogsOf(st, k) == LogsOf(w.store, k))
  {
    var url, branch, sha := Field(p.repoUrl), Field(p.branch), Field(p.commit);
    MatchedRowsLogged(w.db, w.store, url, branch, sha, now);
    assert CommitHook(w, p, now).world.store == HookLogs(w.store, HookRows(w.db, url, branch), now, sha, url, branch);
  }

  lemma MatchedRowsLogged(db: Db, s: Store, url: string, branch: string, sha: string, now: string)
    requires UniqueKeys(db.deployments, DeploymentKey)
    ensures var ds := db.deployments;
            var st := HookLogs(s, HookRows(db, url, branch), now, sha, url, branch);
            && (forall j :: 0 <= j < |ds| ==>
                  LogsOf(st, ds[j].id) ==
                    if MatchesCommit(db, ds[j], url, branch)
                    then BoundedAppend(LogsOf(s, ds[j].id), HookLogLine(now, sha, url, branch, ds[j].stoppedByOperator), LogMaxLines)
                    else LogsOf(s, ds[j].id))
            && (forall k :: k !in DeploymentIds(ds) ==> LogsOf(st, k) == LogsOf(s, k))
  {
    var ds := db.deployments;
    forall j | 0 <= j < |ds| {
      MatchedRowLogged(db, s, url, branch, sha, now, j);
    }
    forall k | k !in DeploymentIds(ds) {
      UnknownIdNotLogged(db, s, url, branch, sha, now, k);
    }
  }

  lemma MatchedRowLogged(db: Db, s: Store, url: string, branch: string, sha: string, now: string, j: nat)
    requires UniqueKeys(db.deployments, DeploymentKey)
    requires j < |db.deployments|
    ensures var d := db.deployments[j];
            LogsOf(HookLogs(s, HookRows(db, url, branch), now, sha, url, branch), d.id) ==
              if MatchesCommit(db, d, url, branch)
              then BoundedAppend(LogsOf(s, d.id), HookLogLine(now, sha, url, branch, d.stoppedByOperator), LogMaxLines)
              else LogsOf(s, d.id)
  {
    var d := db.deployments[j];
    var rows := HookRows(db, url, branch);
    HookRowsFacts(db, url, branch);
    HookLinesDistinct(rows, d.id, now, sha, url, branch);
    if MatchesCommit(db, d, url, branch) {
      var i :| 0 <= i < |rows| && rows[i].id == d.id;
      AppendAllOne(LogsOf(s, d.id), HookLogLine(now, sha, url, branch, d.stoppedByOperator), LogMaxLines);
    }
  }

  lemma UnknownIdNotLogged(db: Db, s: Store, url: string, branch: string, sha: string, now: string, k: int)
    requires UniqueKeys(db.deployments, DeploymentKey)
    requires k !in DeploymentIds(db.deployments)
    ensures LogsOf(HookLogs(s, HookRows(db, url, branch), now, sha, url, branch), k) == LogsOf(s, k)
  {
    var rows := HookRows(db, url, branch);
    HookRowsFacts(db, url, branch);
    HookLinesDistinct(rows, k, now, sha, url, branch);
    if k in DeploymentIds(rows) {
      var i :| 0 <= i < |rows| && rows[i].id == k;
      FilterMember(db.deployments, MatchFilter(db, url, branch), rows[i]);
    }
  }
}
