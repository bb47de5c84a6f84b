/** The in-memory telemetry store (`samosval/simulator/state.py`): per
    deployment, a bounded FIFO buffer of log lines, a bounded FIFO buffer of
    metric points, and the (cpu, ram) pair the random walk starts from on
    the next tick. The store is a value; each operation returns the new
    store. */
module Telemetry {
  import opened Common

  const LogMaxLines: nat := 1000
  const MetricsMaxPoints: nat := 900
  /** Starting point of the random walk for a deployment seen for the first time. */
  const SeedDefault: real := 50.0

  /** One metric sample; the timestamp is kept as opaque text. */
  datatype MetricPoint = MetricPoint(ts: string, cpu: real, ram: real)

  datatype Seed = Seed(cpu: real, ram: real)

  datatype Store = Store(
    logs: map<int, seq<string>>,
    metrics: map<int, seq<MetricPoint>>,
    seeds: map<int, Seed>)

  const Empty: Store := Store(map[], map[], map[])

  /** Every buffer respects its capacity. */
  predicate Bounded(s: Store) {
    && (forall k :: k in s.logs ==> |s.logs[k]| <= LogMaxLines)
    && (forall k :: k in s.metrics ==> |s.metrics[k]| <= MetricsMaxPoints)
  }

  /** `deque(maxlen=cap).append(x)`: a full buffer drops its oldest entry. */
  function BoundedAppend<T>(buf: seq<T>, x: T, cap: nat): (r: seq<T>)
    requires cap > 0
    ensures |r| == (if |buf| < cap then |buf| + 1 else cap) && r[|r| - 1] == x
    ensures |buf| < cap ==> r == buf + [x]
    ensures |buf| == cap ==> r == buf[1..] + [x]
  {
    LastN(buf + [x], cap)
  }

  /** Appending lines one by one to a buffer within capacity leaves the last
      `cap` lines of the concatenation: eviction is oldest-first. */
  function AppendAll<T>(buf: seq<T>, xs: seq<T>, cap: nat): seq<T>
    requires cap > 0
    decreases |xs|
  {
    if |xs| == 0 then buf else AppendAll(BoundedAppend(buf, xs[0], cap), xs[1..], cap)
  }

  lemma {:induction false} AppendAllKeepsNewest<T>(buf: seq<T>, xs: seq<T>, cap: nat)
    requires cap > 0 && |buf| <= cap
    ensures AppendAll(buf, xs, cap) == LastN(buf + xs, cap)
    decreases |xs|
  {
    if |xs| > 0 {
      var b1 := BoundedAppend(buf, xs[0], cap);
      assert AppendAll(buf, xs, cap) == AppendAll(b1, xs[1..], cap);
      AppendAllKeepsNewest(b1, xs[1..], cap);
      assert b1 == LastN(buf + [xs[0]], cap);
      LastNAbsorbs(buf + [xs[0]], xs[1..], cap);
      HeadThenRest(buf, xs);
    } else {
      assert buf + xs == buf;
    }
  }

  lemma HeadThenRest<T>(buf: seq<T>, xs: seq<T>)
    requires |xs| > 0
    ensures buf + [xs[0]] + xs[1..] == buf + xs
  {
    assert [xs[0]] + xs[1..] == xs;
  }

  lemma AppendAllOne<T>(buf: seq<T>, x: T, cap: nat)
    requires cap > 0
    ensures AppendAll(buf, [x], cap) == BoundedAppend(buf, x, cap)
  {
    assert [x][1..] == [];
  }

  /** Truncating before appending more does not change the final window. */
  lemma LastNAbsorbs<T>(a: seq<T>, b: seq<T>, cap: nat)
    ensures LastN(LastN(a, cap) + b, cap) == LastN(a + b, cap)
  {
    var la := LastN(a, cap);
    if |a| > cap {
      assert a + b == a[..|a| - cap] + (la + b);
      var n := |la + b|;
      assert (a + b)[|a + b| - cap..] == (la + b)[n - cap..];
    } else {
      assert la == a;
    }
  }

  function LogsOf(s: Store, id: int): seq<string> {
    if id in s.logs then s.logs[id] else []
  }

  function MetricsOf(s: Store, id: int): seq<MetricPoint> {
    if id in s.metrics then s.metrics[id] else []
  }

  /** `append_log`: only the target deployment's log buffer changes. */
  function AppendLog(s: Store, id: int, line: string): (r: Store)
    ensures id in r.logs && r.logs[id] == BoundedAppend(LogsOf(s, id), line, LogMaxLines)
    ensures forall k :: k != id ==> (k in r.logs <==> k in s.logs) && (k in s.logs ==> r.logs[k] == s.logs[k])
    ensures r.metrics == s.metrics && r.seeds == s.seeds
    ensures Bounded(s) ==> Bounded(r)
  {
    var r := s.(logs := s.logs[id := BoundedAppend(LogsOf(s, id), line, LogMaxLines)]);
    assert Bounded(s) ==> Bounded(r) by {
      if Bounded(s) {
        forall k | k in r.logs ensures |r.logs[k]| <= LogMaxLines {
          if k != id { assert r.logs[k] == s.logs[k]; }
        }
      }
    }
    r
  }

  function AppendLogs(s: Store, id: int, lines: seq<string>): (r: Store)
    ensures LogsOf(r, id) == AppendAll(LogsOf(s, id), lines, LogMaxLines)
    ensures forall k :: k != id ==> (k in r.logs <==> k in s.logs) && (k in s.logs ==> r.logs[k] == s.logs[k])
    ensures r.metrics == s.metrics && r.seeds == s.seeds
    ensures Bounded(s) ==> Bounded(r)
    decreases |lines|
  {
    if |lines| == 0 then s else AppendLogs(AppendLog(s, id, lines[0]), id, lines[1..])
  }

  /** `append_metric_point`: only the target deployment's metric buffer changes. */
  function AppendMetricPoint(s: Store, id: int, p: MetricPoint): (r: Store)
    ensures id in r.metrics && r.metrics[id] == BoundedAppend(MetricsOf(s, id), p, MetricsMaxPoints)
    ensures forall k :: k != id ==> (k in r.metrics <==> k in s.metrics) && (k in s.metrics ==> r.metrics[k] == s.metrics[k])
    ensures r.logs == s.logs && r.seeds == s.seeds
    ensures Bounded(s) ==> Bounded(r)
  {
    var r := s.(metrics := s.metrics[id := BoundedAppend(MetricsOf(s, id), p, MetricsMaxPoints)]);
    assert Bounded(s) ==> Bounded(r) by {
      if Bounded(s) {
        forall k | k in r.metrics ensures |r.metrics[k]| <= MetricsMaxPoints {
          if k != id { assert r.metrics[k] == s.metrics[k]; }
        }
      }
    }
    r
  }

  /** `get_recent_logs`: the newest `limit` lines, oldest first; the whole
      buffer when `limit` is not positive or not smaller than the buffer. */
  function GetRecentLogs(s: Store, id: int, limit: int): (r: seq<string>)
    ensures id !in s.logs ==> r == []
    ensures |r| == if limit <= 0 || limit >= |LogsOf(s, id)| then |LogsOf(s, id)| else limit
    ensures r == LogsOf(s, id)[|LogsOf(s, id)| - |r|..]
  {
    var buf := LogsOf(s, id);
    if |buf| == 0 then []
    else if limit <= 0 || limit >= |buf| then buf
    else buf[|buf| - limit..]
  }

  /** `get_log_buffer_snapshot`: a copy of the whole buffer, empty for a
      deployment that has none, never longer than the capacity. */
  function LogSnapshot(s: Store, id: int): (r: seq<string>)
    ensures id !in s.logs ==> r == []
    ensures Bounded(s) ==> |r| <= LogMaxLines
  {
    LogsOf(s, id)
  }

  /** `get_metrics`: a copy of the whole series, empty for a deployment
      that has none, never longer than the capacity. */
  function GetMetrics(s: Store, id: int): (r: seq<MetricPoint>)
    ensures id !in s.metrics ==> r == []
    ensures Bounded(s) ==> |r| <= MetricsMaxPoints
  {
    MetricsOf(s, id)
  }

  /** The seed a deployment's random walk continues from: the stored one,
      or the default for a deployment not seen before. */
  function SeedOf(s: Store, id: int): Seed {
    if id in s.seeds then s.seeds[id] else Seed(SeedDefault, SeedDefault)
  }

  /** `get_or_create_metric_state`: the stored seed, recording the default
      for a deployment seen for the first time. */
  function GetOrCreateMetricState(s: Store, id: int): (r: (Store, Seed))
    ensures id in r.0.seeds && r.1 == r.0.seeds[id]
    ensures r.1 == SeedOf(s, id) && SeedOf(r.0, id) == r.1
    ensures id in s.seeds ==> r.0 == s
    ensures id !in s.seeds ==> r.1 == Seed(SeedDefault, SeedDefault) && r.0 == s.(seeds := s.seeds[id := r.1])
  {
    if id in s.seeds then (s, s.seeds[id])
    else
      var seed := Seed(SeedDefault, SeedDefault);
      (s.(seeds := s.seeds[id := seed]), seed)
  }

  /** `update_metric_state`: the deployment's seed becomes the given pair;
      every other seed, and all logs and metrics, stay. */
  function UpdateMetricState(s: Store, id: int, cpu: real, ram: real): (r: Store)
    ensures r.logs == s.logs && r.metrics == s.metrics
    ensures r.seeds.Keys == s.seeds.Keys + {id}
    ensures r.seeds[id] == Seed(cpu, ram)
    ensures forall k :: k in s.seeds && k != id ==> r.seeds[k] == s.seeds[k]
  {
    s.(seeds := s.seeds[id := Seed(cpu, ram)])
  }

  /** After an update, the next read of the seed returns the updated pair
      and does not change the store. */
  lemma ReadAfterUpdate(s: Store, id: int, cpu: real, ram: real)
    ensures GetOrCreateMetricState(UpdateMetricState(s, id, cpu, ram), id) ==
            (UpdateMetricState(s, id, cpu, ram), Seed(cpu, ram))
  {
  }

  /** Reading a seed twice gives the same pair; the second read changes nothing. */
  lemma ReadIsIdempotent(s: Store, id: int)
    ensures var (s1, p1) := GetOrCreateMetricState(s, id);
            GetOrCreateMetricState(s1, id) == (s1, p1)
  {
  }

  /** The store operations the engine and the commit hook perform. */
  datatype StoreOp =
    | AppendLogOp(id: int, line: string)
    | AppendMetricOp(id: int, point: MetricPoint)
    | ReadSeedOp(id: int)
    | UpdateSeedOp(id: int, cpu: real, ram: real)

  function ApplyOp(s: Store, op: StoreOp): Store {
    match op
    case AppendLogOp(id, line) => AppendLog(s, id, line)
    case AppendMetricOp(id, p) => AppendMetricPoint(s, id, p)
    case ReadSeedOp(id) => GetOrCreateMetricState(s, id).0
    case UpdateSeedOp(id, cpu, ram) => UpdateMetricState(s, id, cpu, ram)
  }

  function ApplyOps(s: Store, ops: seq<StoreOp>): Store
    decreases |ops|
  {
    if |ops| == 0 then s else ApplyOps(ApplyOp(s, ops[0]), ops[1..])
  }

  /** No sequence of operations lets a buffer exceed its capacity. */
  lemma {:induction false} BoundedForever(s: Store, ops: seq<StoreOp>)
    requires Bounded(s)
    ensures Bounded(ApplyOps(s, ops))
    decreases |ops|
  {
    if |ops| > 0 {
      var s1 := ApplyOp(s, ops[0]);
      assert Bounded(s1);
      BoundedForever(s1, ops[1..]);
    }
  }

  /** A buffer that has received `lines` since `s` holds the newest
      `LogMaxLines` lines of everything it was given. */
  lemma AppendLogsWindow(s: Store, id: int, lines: seq<string>)
    requires Bounded(s)
    ensures LogSnapshot(AppendLogs(s, id, lines), id) == LastN(LogsOf(s, id) + lines, LogMaxLines)
  {
    AppendAllKeepsNewest(LogsOf(s, id), lines, LogMaxLines);
  }
}
