/**
 * The pipeline monitor: from the hours since the last run and the database
 * signals it derives each check's status, the ordered alert list, the
 * overall health and the health score. Statuses are the report's own
 * strings. Timestamps, response times and the JSON file are left out.
 */
module Monitor {
  import opened Wrappers
  import Text

  const LastRunThresholdHours: int := 25
  const StagingMaxLagHours: int := 24
  const ProductionMaxLagHours: int := 1
  const WarehouseMaxLagHours: int := 1
  const QualityThreshold: int := 95

  datatype Severity = Warning | Critical

  /** The checks, in the order `main` runs them. */
  datatype CheckName = LastExecution | DatabaseConnectivity | DataFreshness | DataVolume | DataQuality
  {
    /** The `check` field of an alert. */
    function Key(): string {
      match this
      case LastExecution => "last_execution"
      case DatabaseConnectivity => "database_connectivity"
      case DataFreshness => "data_freshness"
      case DataVolume => "data_volume"
      case DataQuality => "data_quality"
    }

    function Rank(): nat {
      match this
      case LastExecution => 0
      case DatabaseConnectivity => 1
      case DataFreshness => 2
      case DataVolume => 3
      case DataQuality => 4
    }
  }

  datatype Alert = Alert(severity: Severity, check: CheckName, message: string)

  datatype Health = Healthy | Degraded | CriticalHealth

  /** Hours since the latest record of each layer. */
  datatype Lags = Lags(staging: real, production: real, warehouse: real)

  /** What the monitoring queries returned. `freshness` is None when the
      freshness query gave no rows; `volumeCounts` are the daily counts with
      today's last. */
  datatype DbSignals = DbSignals(
    freshness: Option<Lags>,
    volumeCounts: seq<int>,
    orphanProducts: nat,
    orphanCustomers: nat,
    nullViolations: nat,
    activeConnections: Option<int>)

  datatype DbProbe = ConnectFailed(error: string) | Connected(signals: DbSignals)

  /** The values the code falls back on when there is no cursor. */
  const NoSignals := DbSignals(None, [], 0, 0, 0, None)

  datatype AnomalyType = Spike | Drop

  datatype Checks = Checks(
    lastExecutionStatus: string,
    hoursSinceLastRun: real,
    freshnessStatus: string,
    maxLagHours: Option<real>,
    volumeStatus: string,
    actualCount: Option<int>,
    anomalyDetected: bool,
    anomalyType: Option<AnomalyType>,
    qualityStatus: string,
    qualityScore: int,
    orphanRecords: nat,
    nullViolations: nat,
    dbStatus: string,
    connectionsActive: Option<int>)

  datatype MonitoringReport = MonitoringReport(
    pipelineHealth: Health,
    checks: Checks,
    alerts: seq<Alert>,
    overallHealthScore: int)

  // ---------------------------------------------------------------------
  // The pure pieces

  predicate IsStale(l: Lags) {
    l.staging > StagingMaxLagHours as real
    || l.production > ProductionMaxLagHours as real
    || l.warehouse > WarehouseMaxLagHours as real
  }

  function MaxLag(l: Lags): (m: real)
    ensures m >= l.staging && m >= l.production && m >= l.warehouse
    ensures m == l.staging || m == l.production || m == l.warehouse
  {
    var a := if l.staging >= l.production then l.staging else l.production;
    if a >= l.warehouse then a else l.warehouse
  }

  function Sum(xs: seq<int>): int {
    if xs == [] then 0 else Sum(xs[..|xs| - 1]) + xs[|xs| - 1]
  }

  /** `statistics.mean`. */
  function Mean(xs: seq<int>): real
    requires xs != []
  {
    Sum(xs) as real / |xs| as real
  }

  /** `statistics.variance`: the sample (n - 1) variance. */
  function SampleVariance(xs: seq<int>): real
    requires |xs| >= 2
  {
    SquaredDeviations(xs, Mean(xs)) / (|xs| - 1) as real
  }

  function Sq(x: real): real { x * x }

  function SquaredDeviations(xs: seq<int>, m: real): real {
    if xs == [] then 0.0
    else
      var d := xs[|xs| - 1] as real - m;
      SquaredDeviations(xs[..|xs| - 1], m) + Sq(d)
  }

  /** `sd` is what `statistics.stdev(xs)` returns: the square root of the
      sample variance. */
  ghost predicate IsSampleStdev(xs: seq<int>, sd: real) {
    |xs| >= 2 && sd >= 0.0 && Sq(sd) == SampleVariance(xs)
  }

  /** The anomaly test: today's count (the last one) lies outside mean
      plus or minus three standard deviations of all the counts. `stdev` is
      the sample standard deviation, used only when there are two counts or
      more. */
  predicate VolumeAnomaly(counts: seq<int>, stdev: real)
    requires counts != []
  {
    var today := counts[|counts| - 1] as real;
    var sd := if |counts| > 1 then stdev else 0.0;
    today > Mean(counts) + 3.0 * sd || today < Mean(counts) - 3.0 * sd
  }

  function QualityScore(orphanProducts: nat, orphanCustomers: nat, nulls: nat): (score: int)
    ensures 0 <= score <= 100
    ensures orphanProducts + orphanCustomers + nulls <= 100 ==>
      score + orphanProducts + orphanCustomers + nulls == 100
    ensures orphanProducts + orphanCustomers + nulls >= 100 ==> score == 0
  {
    var total := orphanProducts + orphanCustomers + nulls;
    if 100 - total > 0 then 100 - total else 0
  }

  ghost predicate HasCritical(alerts: seq<Alert>) {
    exists i :: 0 <= i < |alerts| && alerts[i].severity == Critical
  }

  /** The overall verdict from the alert list. */
  function HealthOf(alerts: seq<Alert>): (h: Health)
    ensures h == CriticalHealth <==> HasCritical(alerts)
    ensures h == Degraded <==> alerts != [] && !HasCritical(alerts)
    ensures h == Healthy <==> alerts == []
  {
    if exists i :: 0 <= i < |alerts| && alerts[i].severity == Critical then CriticalHealth
    else if alerts != [] then Degraded
    else Healthy
  }

  /** The query results, or the default-safe values when there is no cursor. */
  function SignalsOf(db: DbProbe): (sig: DbSignals)
    ensures db.ConnectFailed? ==>
      sig.freshness == None && sig.volumeCounts == [] && sig.activeConnections == None
      && sig.orphanProducts + sig.orphanCustomers + sig.nullViolations == 0
  {
    if db.Connected? then db.signals else NoSignals
  }

  predicate FreshnessLagging(sig: DbSignals) {
    sig.freshness.Some? && IsStale(sig.freshness.value)
  }

  predicate TodayAboveMean(counts: seq<int>)
    requires counts != []
  {
    counts[|counts| - 1] as real > Mean(counts)
  }

  /** The checks that raised the alerts of a list. */
  ghost function CheckSet(alerts: seq<Alert>): set<CheckName> {
    set i | 0 <= i < |alerts| :: alerts[i].check
  }

  ghost predicate HasAlert(alerts: seq<Alert>, c: CheckName) {
    c in CheckSet(alerts)
  }

  /** Alerts follow the order of the checks, so there is at most one per check. */
  ghost predicate InCheckOrder(alerts: seq<Alert>) {
    forall i, j :: 0 <= i < j < |alerts| ==> alerts[i].check.Rank() < alerts[j].check.Rank()
  }

  // ---------------------------------------------------------------------
  // main, check by check

  /** A check's status and the alerts it raised (none or one). */
  datatype CheckOutcome = CheckOutcome(status: string, alerts: seq<Alert>)

  /** Every alert of `alerts` belongs to check `c` with severity `s`, and
      there is at most one. */
  ghost predicate RaisedBy(alerts: seq<Alert>, c: CheckName, s: Severity) {
    |alerts| <= 1 && forall i :: 0 <= i < |alerts| ==> alerts[i].check == c && alerts[i].severity == s
  }

  /** Pipeline execution health. */
  function LastExecutionCheck(hoursSinceLastRun: real): (o: CheckOutcome)
    ensures o.status == "critical" <==> hoursSinceLastRun > 25.0
    ensures o.status == "ok" <==> hoursSinceLastRun <= 25.0
    ensures o.alerts != [] <==> hoursSinceLastRun > 25.0
    ensures RaisedBy(o.alerts, LastExecution, Critical)
  {
    if hoursSinceLastRun > LastRunThresholdHours as real then
      CheckOutcome("critical", [Alert(Critical, LastExecution, "Pipeline has not run in last 25 hours")])
    else CheckOutcome("ok", [])
  }

  /** Database connectivity. */
  function ConnectivityCheck(db: DbProbe): (o: CheckOutcome)
    ensures o.status == "error" <==> db.ConnectFailed?
    ensures o.status == "ok" <==> db.Connected?
    ensures o.alerts != [] <==> db.ConnectFailed?
    ensures RaisedBy(o.alerts, DatabaseConnectivity, Critical)
  {
    match db
    case ConnectFailed(err) =>
      CheckOutcome("error", [Alert(Critical, DatabaseConnectivity, "Database connection failed: " + err)])
    case Connected(_) => CheckOutcome("ok", [])
  }

  /** Data freshness: no freshness data means no check. */
  function FreshnessCheck(freshness: Option<Lags>): (o: CheckOutcome)
    ensures o.status == "warning" <==> freshness.Some? && IsStale(freshness.value)
    ensures o.status == "ok" <==> !(freshness.Some? && IsStale(freshness.value))
    ensures o.alerts != [] <==> freshness.Some? && IsStale(freshness.value)
    ensures RaisedBy(o.alerts, DataFreshness, Warning)
  {
    if freshness.Some? && IsStale(freshness.value) then
      CheckOutcome("warning", [Alert(Warning, DataFreshness, "Data freshness lag detected")])
    else CheckOutcome("ok", [])
  }

  datatype VolumeOutcome = VolumeOutcome(
    status: string,
    actualCount: Option<int>,
    anomalyDetected: bool,
    anomalyType: Option<AnomalyType>,
    alerts: seq<Alert>)

  /** Volume anomaly detection: no counts means no check. */
  function VolumeCheck(counts: seq<int>, stdev: real): (o: VolumeOutcome)
    ensures o.anomalyDetected <==> counts != [] && VolumeAnomaly(counts, stdev)
    ensures o.status == "anomaly_detected" <==> o.anomalyDetected
    ensures o.status == "ok" <==> !o.anomalyDetected
    ensures o.alerts != [] <==> o.anomalyDetected
    ensures o.anomalyType.Some? <==> o.anomalyDetected
    ensures o.anomalyDetected ==> (o.anomalyType == Some(Spike) <==> TodayAboveMean(counts))
    ensures o.actualCount == if counts == [] then None else Some(counts[|counts| - 1])
    ensures RaisedBy(o.alerts, DataVolume, Warning)
  {
    if counts == [] then VolumeOutcome("ok", None, false, None, [])
    else
      var today := counts[|counts| - 1];
      if VolumeAnomaly(counts, stdev) then
        var kind := if TodayAboveMean(counts) then Spike else Drop;
        VolumeOutcome("anomaly_detected", Some(today), true, Some(kind),
          [Alert(Warning, DataVolume, "Volume anomaly detected: " + (if kind == Spike then "spike" else "drop"))])
      else VolumeOutcome("ok", Some(today), false, None, [])
  }

  /** Data quality. */
  function QualityCheck(score: int): (o: CheckOutcome)
    ensures o.status == "degraded" <==> score < 95
    ensures o.status == "ok" <==> score >= 95
    ensures o.alerts != [] <==> score < 95
    ensures RaisedBy(o.alerts, DataQuality, Warning)
  {
    if score < QualityThreshold then
      CheckOutcome("degraded", [Alert(Warning, DataQuality, "Data quality score below threshold")])
    else CheckOutcome("ok", [])
  }

  /** The whole of `main`: the checks in order, their alerts appended
      in that order, the verdict and the score. `hoursSinceLastRun` comes
      from the last execution report; `stdev` is what `statistics.stdev`
      gives for the volume counts (used only when there are two or more). */
  function Evaluate(hoursSinceLastRun: real, db: DbProbe, stdev: real): (report: MonitoringReport)
    ensures report.overallHealthScore == report.checks.qualityScore
    ensures report.pipelineHealth == HealthOf(report.alerts)
  {
    var last := LastExecutionCheck(hoursSinceLastRun);
    var conn := ConnectivityCheck(db);
    var sig := SignalsOf(db);
    var lagCheck := FreshnessCheck(sig.freshness);
    var vol := VolumeCheck(sig.volumeCounts, stdev);
    var score := QualityScore(sig.orphanProducts, sig.orphanCustomers, sig.nullViolations);
    var quality := QualityCheck(score);
    var alerts := last.alerts + conn.alerts + lagCheck.alerts + vol.alerts + quality.alerts;
    var checks := Checks(
      last.status, hoursSinceLastRun,
      lagCheck.status, if sig.freshness.Some? then Some(MaxLag(sig.freshness.value)) else None,
      vol.status, vol.actualCount, vol.anomalyDetected, vol.anomalyType,
      quality.status, score, sig.orphanProducts + sig.orphanCustomers, sig.nullViolations,
      conn.status, sig.activeConnections);
    MonitoringReport(HealthOf(alerts), checks, alerts, score)
  }

  /** The alerts of `Evaluate` are the pieces of the five checks in order;
      each check is represented exactly when it raised an alert. */
  lemma EvaluateAlerts(hoursSinceLastRun: real, db: DbProbe, stdev: real)
    ensures var r := Evaluate(hoursSinceLastRun, db, stdev);
      && InCheckOrder(r.alerts)
      && CriticalExactlyEarly(r.alerts)
      && (HasAlert(r.alerts, LastExecution) <==> r.checks.lastExecutionStatus == "critical")
      && (HasAlert(r.alerts, DatabaseConnectivity) <==> r.checks.dbStatus == "error")
      && (HasAlert(r.alerts, DataFreshness) <==> r.checks.freshnessStatus == "warning")
      && (HasAlert(r.alerts, DataVolume) <==> r.checks.anomalyDetected)
      && (HasAlert(r.alerts, DataQuality) <==> r.checks.qualityStatus == "degraded")
  {
    var sig := SignalsOf(db);
    FivePieces(LastExecutionCheck(hoursSinceLastRun).alerts, ConnectivityCheck(db).alerts,
      FreshnessCheck(sig.freshness).alerts, VolumeCheck(sig.volumeCounts, stdev).alerts,
      QualityCheck(QualityScore(sig.orphanProducts, sig.orphanCustomers, sig.nullViolations)).alerts);
  }

  /** Five check pieces, concatenated in check order. */
  lemma FivePieces(p0: seq<Alert>, p1: seq<Alert>, p2: seq<Alert>, p3: seq<Alert>, p4: seq<Alert>)
    requires RaisedBy(p0, LastExecution, Critical) && RaisedBy(p1, DatabaseConnectivity, Critical)
    requires RaisedBy(p2, DataFreshness, Warning) && RaisedBy(p3, DataVolume, Warning)
    requires RaisedBy(p4, DataQuality, Warning)
    ensures var alerts := p0 + p1 + p2 + p3 + p4;
      && InCheckOrder(alerts)
      && CriticalExactlyEarly(alerts)
      && (HasAlert(alerts, LastExecution) <==> p0 != [])
      && (HasAlert(alerts, DatabaseConnectivity) <==> p1 != [])
      && (HasAlert(alerts, DataFreshness) <==> p2 != [])
      && (HasAlert(alerts, DataVolume) <==> p3 != [])
      && (HasAlert(alerts, DataQuality) <==> p4 != [])
  {
    FiveOrder(p0, p1, p2, p3, p4);
    FivePresence(p0, p1, p2, p3, p4);
  }

  lemma FiveOrder(p0: seq<Alert>, p1: seq<Alert>, p2: seq<Alert>, p3: seq<Alert>, p4: seq<Alert>)
    requires RaisedBy(p0, LastExecution, Critical) && RaisedBy(p1, DatabaseConnectivity, Critical)
    requires RaisedBy(p2, DataFreshness, Warning) && RaisedBy(p3, DataVolume, Warning)
    requires RaisedBy(p4, DataQuality, Warning)
    ensures InCheckOrder(p0 + p1 + p2 + p3 + p4) && CriticalExactlyEarly(p0 + p1 + p2 + p3 + p4)
  {
    Extend([], p0, LastExecution, Critical);
    assert [] + p0 == p0;
    Extend(p0, p1, DatabaseConnectivity, Critical);
    Extend(p0 + p1, p2, DataFreshness, Warning);
    Extend(p0 + p1 + p2, p3, DataVolume, Warning);
    Extend(p0 + p1 + p2 + p3, p4, DataQuality, Warning);
  }

  lemma FivePresence(p0: seq<Alert>, p1: seq<Alert>, p2: seq<Alert>, p3: seq<Alert>, p4: seq<Alert>)
    requires RaisedBy(p0, LastExecution, Critical) && RaisedBy(p1, DatabaseConnectivity, Critical)
    requires RaisedBy(p2, DataFreshness, Warning) && RaisedBy(p3, DataVolume, Warning)
    requires RaisedBy(p4, DataQuality, Warning)
    ensures var alerts := p0 + p1 + p2 + p3 + p4;
      && (HasAlert(alerts, LastExecution) <==> p0 != [])
      && (HasAlert(alerts, DatabaseConnectivity) <==> p1 != [])
      && (HasAlert(alerts, DataFreshness) <==> p2 != [])
      && (HasAlert(alerts, DataVolume) <==> p3 != [])
      && (HasAlert(alerts, DataQuality) <==> p4 != [])
  {
    FiveChecks(p0, p1, p2, p3, p4);
  }

  /** The checks present in five pieces, one check per piece. */
  lemma FiveChecks(p0: seq<Alert>, p1: seq<Alert>, p2: seq<Alert>, p3: seq<Alert>, p4: seq<Alert>)
    requires RaisedBy(p0, LastExecution, Critical) && RaisedBy(p1, DatabaseConnectivity, Critical)
    requires RaisedBy(p2, DataFreshness, Warning) && RaisedBy(p3, DataVolume, Warning)
    requires RaisedBy(p4, DataQuality, Warning)
    ensures CheckSet(p0 + p1 + p2 + p3 + p4)
      == Mark(p0, LastExecution) + Mark(p1, DatabaseConnectivity) + Mark(p2, DataFreshness)
         + Mark(p3, DataVolume) + Mark(p4, DataQuality)
  {
    CheckSetAppend(p0, p1);
    CheckSetAppend(p0 + p1, p2);
    CheckSetAppend(p0 + p1 + p2, p3);
    CheckSetAppend(p0 + p1 + p2 + p3, p4);
    CheckSetPiece(p0, LastExecution, Critical);
    CheckSetPiece(p1, DatabaseConnectivity, Critical);
    CheckSetPiece(p2, DataFreshness, Warning);
    CheckSetPiece(p3, DataVolume, Warning);
    CheckSetPiece(p4, DataQuality, Warning);
  }

  ghost function Mark(p: seq<Alert>, c: CheckName): set<CheckName> {
    if p == [] then {} else {c}
  }

  lemma CheckSetPiece(p: seq<Alert>, c: CheckName, s: Severity)
    requires RaisedBy(p, c, s)
    ensures CheckSet(p) == Mark(p, c)
  {
    if p != [] {
      assert p[0].check == c;
    }
  }

  lemma CheckSetAppend(a: seq<Alert>, b: seq<Alert>)
    ensures CheckSet(a + b) == CheckSet(a) + CheckSet(b)
  {
    var r := a + b;
    forall d | d in CheckSet(r) ensures d in CheckSet(a) + CheckSet(b) {
      var i :| 0 <= i < |r| && r[i].check == d;
      if i < |a| { assert a[i].check == d; } else { assert b[i - |a|].check == d; }
    }
    forall d | d in CheckSet(a) ensures d in CheckSet(r) {
      var i :| 0 <= i < |a| && a[i].check == d;
      assert r[i].check == d;
    }
    forall d | d in CheckSet(b) ensures d in CheckSet(r) {
      var i :| 0 <= i < |b| && b[i].check == d;
      assert r[|a| + i].check == d;
    }
  }

  /** Critical alerts are exactly those of the first two checks. */
  ghost predicate CriticalExactlyEarly(alerts: seq<Alert>) {
    forall i :: 0 <= i < |alerts| ==> (alerts[i].severity == Critical <==> alerts[i].check.Rank() <= 1)
  }

  /** Appending the piece of a later check keeps the list in check order. */
  lemma Extend(a: seq<Alert>, p: seq<Alert>, c: CheckName, s: Severity)
    requires InCheckOrder(a) && CriticalExactlyEarly(a)
    requires forall i :: 0 <= i < |a| ==> a[i].check.Rank() < c.Rank()
    requires RaisedBy(p, c, s) && (s == Critical <==> c.Rank() <= 1)
    ensures InCheckOrder(a + p) && CriticalExactlyEarly(a + p)
    ensures forall i :: 0 <= i < |a + p| ==> (a + p)[i].check.Rank() <= c.Rank()
  {
  }

  /** Execution health: critical with its alert iff more than 25 hours have passed;
      at exactly 25 hours the check is ok. */
  lemma EvaluateLastExecution(hoursSinceLastRun: real, db: DbProbe, stdev: real)
    ensures var r := Evaluate(hoursSinceLastRun, db, stdev);
      (r.checks.lastExecutionStatus == "critical" <==> hoursSinceLastRun > 25.0)
      && (HasAlert(r.alerts, LastExecution) <==> hoursSinceLastRun > 25.0)
      && (hoursSinceLastRun == 25.0 ==> r.checks.lastExecutionStatus == "ok")
  {
    EvaluateAlerts(hoursSinceLastRun, db, stdev);
  }

  /** Connectivity and the fall-back values: without a connection the
      status is "error" with a critical alert, the health is critical, there
      is no freshness check and no volume check, and the quality score is 100. */
  lemma EvaluateConnectFailed(hoursSinceLastRun: real, error: string, stdev: real)
    ensures var r := Evaluate(hoursSinceLastRun, ConnectFailed(error), stdev);
      && r.checks.dbStatus == "error"
      && HasAlert(r.alerts, DatabaseConnectivity)
      && r.pipelineHealth == CriticalHealth
      && r.checks.freshnessStatus == "ok" && r.checks.maxLagHours == None
      && !HasAlert(r.alerts, DataFreshness)
      && r.checks.actualCount == None && !r.checks.anomalyDetected
      && !HasAlert(r.alerts, DataVolume)
      && r.checks.qualityScore == 100 && r.checks.qualityStatus == "ok"
      && r.overallHealthScore == 100
      && r.checks.connectionsActive == None
  {
    var r := Evaluate(hoursSinceLastRun, ConnectFailed(error), stdev);
    EvaluateAlerts(hoursSinceLastRun, ConnectFailed(error), stdev);
    var i :| 0 <= i < |r.alerts| && r.alerts[i].check == DatabaseConnectivity;
    assert r.alerts[i].severity == Critical;
  }

  /** Freshness: a warning iff freshness data exists and some layer lags
      beyond its limit (24, 1 and 1 hours). */
  lemma EvaluateFreshness(hoursSinceLastRun: real, signals: DbSignals, stdev: real)
    ensures var r := Evaluate(hoursSinceLastRun, Connected(signals), stdev);
      var lagging := signals.freshness.Some?
        && (signals.freshness.value.staging > 24.0
            || signals.freshness.value.production > 1.0
            || signals.freshness.value.warehouse > 1.0);
      && (r.checks.freshnessStatus == "warning" <==> lagging)
      && (HasAlert(r.alerts, DataFreshness) <==> lagging)
      && (signals.freshness.Some? <==> r.checks.maxLagHours.Some?)
  {
    EvaluateAlerts(hoursSinceLastRun, Connected(signals), stdev);
  }

  /** Volume: an anomaly, with its alert, iff there are counts and today's
      count is outside the band; a spike iff today's count exceeds the mean. */
  lemma EvaluateVolume(hoursSinceLastRun: real, signals: DbSignals, stdev: real)
    ensures var r := Evaluate(hoursSinceLastRun, Connected(signals), stdev);
      var counts := signals.volumeCounts;
      && (r.checks.anomalyDetected <==> counts != [] && VolumeAnomaly(counts, stdev))
      && (HasAlert(r.alerts, DataVolume) <==> r.checks.anomalyDetected)
      && (counts == [] ==> r.checks.volumeStatus == "ok" && r.checks.actualCount == None)
      && (r.checks.anomalyDetected ==>
            (r.checks.anomalyType == Some(Spike) <==> TodayAboveMean(counts))
            && (r.checks.anomalyType == Some(Drop) <==> !TodayAboveMean(counts)))
  {
    EvaluateAlerts(hoursSinceLastRun, Connected(signals), stdev);
  }

  /** Quality: degraded with its alert iff the score is below 95; the
      overall health score is the quality score. */
  lemma EvaluateQuality(hoursSinceLastRun: real, signals: DbSignals, stdev: real)
    ensures var r := Evaluate(hoursSinceLastRun, Connected(signals), stdev);
      var score := QualityScore(signals.orphanProducts, signals.orphanCustomers, signals.nullViolations);
      && r.checks.qualityScore == score && r.overallHealthScore == score
      && 0 <= score <= 100
      && (r.checks.qualityStatus == "degraded" <==> score < 95)
      && (HasAlert(r.alerts, DataQuality) <==> score < 95)
  {
    EvaluateAlerts(hoursSinceLastRun, Connected(signals), stdev);
  }

  /** Overall health: healthy iff nothing was raised; critical iff the last run
      is overdue or the database is unreachable. */
  lemma EvaluateHealth(hoursSinceLastRun: real, db: DbProbe, stdev: real)
    ensures var r := Evaluate(hoursSinceLastRun, db, stdev);
      && (r.pipelineHealth == Healthy <==> r.alerts == [])
      && (r.pipelineHealth == CriticalHealth <==> hoursSinceLastRun > 25.0 || db.ConnectFailed?)
  {
    CriticalIffOverdueOrUnreachable(hoursSinceLastRun, db, stdev);
  }

  lemma CriticalIffOverdueOrUnreachable(hoursSinceLastRun: real, db: DbProbe, stdev: real)
    ensures var r := Evaluate(hoursSinceLastRun, db, stdev);
      HasCritical(r.alerts) <==> hoursSinceLastRun > 25.0 || db.ConnectFailed?
  {
    var r := Evaluate(hoursSinceLastRun, db, stdev);
    EvaluateAlerts(hoursSinceLastRun, db, stdev);
    CriticalIffEarly(r.alerts);
  }

  /** In a list whose critical alerts are exactly those of the first two
      checks, there is a critical alert iff one of those two checks raised. */
  lemma CriticalIffEarly(alerts: seq<Alert>)
    requires CriticalExactlyEarly(alerts)
    ensures HasCritical(alerts) <==> HasAlert(alerts, LastExecution) || HasAlert(alerts, DatabaseConnectivity)
  {
    if HasCritical(alerts) {
      var i :| 0 <= i < |alerts| && alerts[i].severity == Critical;
      assert alerts[i].check in CheckSet(alerts);
    }
    if HasAlert(alerts, LastExecution) {
      var i :| 0 <= i < |alerts| && alerts[i].check == LastExecution;
      assert alerts[i].severity == Critical;
    }
    if HasAlert(alerts, DatabaseConnectivity) {
      var i :| 0 <= i < |alerts| && alerts[i].check == DatabaseConnectivity;
      assert alerts[i].severity == Critical;
    }
  }

  /** `run_sql_queries`: without a cursor nothing is run; otherwise every
      statement of the monitoring SQL file is executed, in order, and its
      rows collected. `execute` is the database. */
  method RunSqlQueries<Rows>(hasCursor: bool, sqlText: string, execute: string -> Rows)
    returns (results: Option<seq<Rows>>)
    ensures !hasCursor <==> results == None
    ensures hasCursor ==>
      |results.value| == |Text.SplitQueries(sqlText)|
      && forall i :: 0 <= i < |results.value| ==>
           results.value[i] == execute(Text.SplitQueries(sqlText)[i])
  {
    if !hasCursor {
      return None;
    }
    var rows := ExecuteAll(Text.SplitQueries(sqlText), execute);
    results := Some(rows);
  }

  /** The loop of `run_sql_queries`: one result per statement, in order. */
  method ExecuteAll<Rows>(queries: seq<string>, execute: string -> Rows) returns (rows: seq<Rows>)
    ensures |rows| == |queries|
    ensures forall j :: 0 <= j < |queries| ==> rows[j] == execute(queries[j])
  {
    rows := [];
    var i := 0;
    while i < |queries|
      invariant 0 <= i <= |queries|
      invariant |rows| == i
      invariant forall j :: 0 <= j < i ==> rows[j] == execute(queries[j])
    {
      rows := rows + [execute(queries[i])];
      i := i + 1;
    }
  }

  // ---------------------------------------------------------------------
  // Properties of the volume and quality checks

  /** A single count is never an anomaly: the stdev is taken as 0 and the
      count is its own mean. */
  lemma SingleCountNoAnomaly(c: int, stdev: real)
    ensures !VolumeAnomaly([c], stdev)
  {
    assert Sum([c]) == c by {
      assert [c][..0] == [];
    }
  }

  /** Counts that are all equal show no anomaly, whatever the stdev. */
  lemma {:induction false} ConstantCountsNoAnomaly(counts: seq<int>, stdev: real)
    requires counts != [] && stdev >= 0.0
    requires forall i :: 0 <= i < |counts| ==> counts[i] == counts[0]
    ensures !VolumeAnomaly(counts, stdev)
  {
    SumConstant(counts, counts[0]);
  }

  lemma {:induction false} SumConstant(xs: seq<int>, c: int)
    requires forall i :: 0 <= i < |xs| ==> xs[i] == c
    ensures Sum(xs) == |xs| * c
  {
    if xs != [] {
      SumConstant(xs[..|xs| - 1], c);
    }
  }

  /** With a non-negative stdev, a count above the upper bound is above the
      mean, so every anomaly is classified as a spike exactly when today's
      count exceeds the upper bound. */
  lemma AnomalyTypeIsSide(counts: seq<int>, stdev: real)
    requires counts != [] && stdev >= 0.0 && VolumeAnomaly(counts, stdev)
    ensures var today := counts[|counts| - 1] as real;
      var sd := if |counts| > 1 then stdev else 0.0;
      (today > Mean(counts) <==> today > Mean(counts) + 3.0 * sd)
  {
  }

  /** A spike of 500 after the days [100, 102, 98, 101, 99], which a check
      against the population standard deviation of the earlier days would
      flag, is not flagged by the code as written: the mean
      and standard deviation include today's count, which widens the band to
      about 166.7 plus or minus 489.9. */
  lemma {:induction false} SpikeExampleNotFlagged(sd: real)
    requires IsSampleStdev([100, 102, 98, 101, 99, 500], sd)
    ensures !VolumeAnomaly([100, 102, 98, 101, 99, 500], sd)
  {
    var xs := [100, 102, 98, 101, 99, 500];
    SpikeExampleSum();
    var m := Mean(xs);
    assert m == 1000.0 / 6.0;
    SpikeExampleSquares();
    assert Sq(sd) == 1200090.0 / 45.0;
    // 3 * sd >= 500 - 1000/6 because (1000/9)^2 < sd^2
    RootBound(sd, 1000.0 / 9.0);
  }

  lemma SpikeExampleSum()
    ensures Sum([100, 102, 98, 101, 99, 500]) == 1000
  {
    var x1, x2, x3, x4, x5 := [100], [100, 102], [100, 102, 98], [100, 102, 98, 101], [100, 102, 98, 101, 99];
    var xs := [100, 102, 98, 101, 99, 500];
    assert [] + [100] == x1 && x1 + [102] == x2 && x2 + [98] == x3;
    assert x3 + [101] == x4 && x4 + [99] == x5 && x5 + [500] == xs;
    SumSnoc([], 100); SumSnoc(x1, 102); SumSnoc(x2, 98);
    SumSnoc(x3, 101); SumSnoc(x4, 99); SumSnoc(x5, 500);
  }

  lemma SpikeExampleSquares()
    ensures SquaredDeviations([100, 102, 98, 101, 99, 500], 1000.0 / 6.0) == 1200090.0 / 9.0
  {
    var x1, x2, x3, x4, x5 := [100], [100, 102], [100, 102, 98], [100, 102, 98, 101], [100, 102, 98, 101, 99];
    var xs := [100, 102, 98, 101, 99, 500];
    var m := 1000.0 / 6.0;
    assert [] + [100] == x1 && x1 + [102] == x2 && x2 + [98] == x3;
    assert x3 + [101] == x4 && x4 + [99] == x5 && x5 + [500] == xs;
    SquaresStep([], 100, m, 0.0, 40000.0 / 9.0);
    SquaresStep(x1, 102, m, 40000.0 / 9.0, 37636.0 / 9.0);
    SquaresStep(x2, 98, m, 77636.0 / 9.0, 42436.0 / 9.0);
    SquaresStep(x3, 101, m, 120072.0 / 9.0, 38809.0 / 9.0);
    SquaresStep(x4, 99, m, 158881.0 / 9.0, 41209.0 / 9.0);
    SquaresStep(x5, 500, m, 200090.0 / 9.0, 1000000.0 / 9.0);
  }

  /** One step of the squared deviations, with the values written out. */
  lemma SquaresStep(xs: seq<int>, x: int, m: real, before: real, sq: real)
    requires SquaredDeviations(xs, m) == before && (x as real - m) * (x as real - m) == sq
    ensures SquaredDeviations(xs + [x], m) == before + sq
  {
    SquaresSnoc(xs, x, m);
  }

  /** A non-negative number whose square is at least b * b is at least b. */
  lemma RootBound(x: real, b: real)
    requires x >= 0.0 && b >= 0.0 && x * x >= b * b
    ensures x >= b
  {
    if x < b {
      calc {
        x * x;
      <= x * b;
      < b * b;
      }
    }
  }

  lemma SumSnoc(xs: seq<int>, x: int)
    ensures Sum(xs + [x]) == Sum(xs) + x
  {
    assert (xs + [x])[..|xs|] == xs;
  }

  lemma SquaresSnoc(xs: seq<int>, x: int, m: real)
    ensures SquaredDeviations(xs + [x], m) == SquaredDeviations(xs, m) + (x as real - m) * (x as real - m)
  {
    assert (xs + [x])[..|xs|] == xs;
  }

  /** n * d^2 <= (n - 1)^2 * v. */
  predicate SamuelsonHolds(n: real, d: real, v: real) {
    n * Sq(d) <= (n - 1.0) * (n - 1.0) * v
  }

  /** Samuelson's inequality, the form the check meets it in: with the mean
      and the sample deviation both taken over all n counts, today's
      distance d from the mean satisfies n * d^2 <= (n - 1)^2 * sd^2. */
  lemma SamuelsonBound(counts: seq<int>, sd: real)
    requires IsSampleStdev(counts, sd)
    ensures SamuelsonHolds(|counts| as real, counts[|counts| - 1] as real - Mean(counts), Sq(sd))
  {
    MeanTimesCount(counts);
    VarianceTimes(SquaredDeviations(counts, Mean(counts)), (|counts| - 1) as real, Sq(sd));
    SamuelsonAt(counts, Mean(counts), Sq(sd));
  }

  /** The bound for any centre m the counts balance around and any v that
      is their squared deviations from m over n - 1. */
  lemma SamuelsonAt(counts: seq<int>, m: real, v: real)
    requires |counts| >= 2 && Deviation(counts, m) == 0.0
    requires SquaredDeviations(counts, m) == (|counts| - 1) as real * v
    ensures SamuelsonHolds(|counts| as real, counts[|counts| - 1] as real - m, v)
  {
    var prefix := counts[..|counts| - 1];
    SnocParts(counts, m);
    SumDeviationsBound(prefix, m);
    SamuelsonAlgebra(|counts| as real, |prefix| as real, (|counts| - 1) as real,
                     counts[|counts| - 1] as real - m, Deviation(prefix, m),
                     SquaredDeviations(prefix, m), SquaredDeviations(counts, m), v);
  }

  /** The arithmetic of the bound: from e = -d, e^2 <= k q, s = q + d^2,
      s = k v and k = n - 1 follows n d^2 <= (n - 1)^2 v. */
  lemma SamuelsonAlgebra(n: real, k: real, k': real, d: real, e: real, q: real, s: real, v: real)
    requires k == n - 1.0 && k' == k && 0.0 == e + d
    requires Sq(e) <= k * q && s == q + Sq(d) && s == k' * v
    ensures SamuelsonHolds(n, d, v)
  {
    var t := Sq(d);
    SqNeg(d);
    calc {
      n * t;
    == t + k * t;
    <= k * q + k * t;
    == k * (q + t);
    == k * (k * v);
    == k * k * v;
    }
  }

  /** The mean times the number of counts is their sum. */
  lemma MeanTimesCount(xs: seq<int>)
    requires xs != []
    ensures |xs| as real * Mean(xs) == Sum(xs) as real
  {
  }

  lemma VarianceTimes(s: real, k: real, v: real)
    requires k > 0.0 && v == s / k
    ensures s == k * v
  {
  }

  lemma SqNeg(x: real)
    ensures Sq(-x) == Sq(x)
  {
  }

  /** How far the sum of a list lies from |xs| copies of m. */
  function Deviation(xs: seq<int>, m: real): real {
    Sum(xs) as real - |xs| as real * m
  }

  lemma SquaredDeviationsNonNegative(xs: seq<int>, m: real)
    ensures SquaredDeviations(xs, m) >= 0.0
  {
    if xs != [] {
      SquaredDeviationsNonNegative(xs[..|xs| - 1], m);
      SqNonNegative(xs[|xs| - 1] as real - m);
    }
  }

  /** Cauchy-Schwarz for the deviations of a list from a point m: the
      square of their sum is at most their number times the sum of their
      squares. */
  lemma {:induction false} SumDeviationsBound(xs: seq<int>, m: real)
    ensures Sq(Deviation(xs, m)) <= |xs| as real * SquaredDeviations(xs, m)
    decreases |xs|
  {
    if xs == [] {
      assert Deviation(xs, m) == 0.0;
    } else {
      var init := xs[..|xs| - 1];
      var x := xs[|xs| - 1] as real - m;
      SnocParts(xs, m);
      SumDeviationsBound(init, m);
      SquaredDeviationsNonNegative(init, m);
      SquareSumStep(Deviation(init, m), SquaredDeviations(init, m), x, |init|,
                    Deviation(xs, m), SquaredDeviations(xs, m), |xs| as real);
    }
  }

  /** The deviation and the squared deviations of a list, split at its
      last element. */
  lemma SnocParts(xs: seq<int>, m: real)
    requires xs != []
    ensures var init := xs[..|xs| - 1];
      var x := xs[|xs| - 1] as real - m;
      && Deviation(xs, m) == Deviation(init, m) + x
      && SquaredDeviations(xs, m) == SquaredDeviations(init, m) + Sq(x)
  {
    var init := xs[..|xs| - 1];
    assert Sum(xs) == Sum(init) + xs[|xs| - 1];
    Distribute(|init|, m);
  }

  lemma Distribute(k: nat, m: real)
    ensures (k + 1) as real * m == k as real * m + m
  {
  }

  /** The inductive step of the bound, as plain algebra on reals. */
  lemma SquareSumStep(a: real, q: real, x: real, k: nat, a': real, q': real, n: real)
    requires Sq(a) <= k as real * q && q >= 0.0
    requires a' == a + x && q' == q + Sq(x) && n == k as real + 1.0
    ensures Sq(a') <= n * q'
  {
    var kr := k as real;
    if k == 0 {
      SqZero(a);
    } else {
      // k * (q + k*x*x - 2*a*x) >= a*a + k*k*x*x - 2*k*a*x = (a - k*x)^2 >= 0
      var y := q + kr * Sq(x) - 2.0 * a * x;
      SqNonNegative(a - kr * x);
      assert kr * y >= Sq(a - kr * x);
      PositiveFactor(kr, y);
      assert n * q' - Sq(a') == (kr * q - Sq(a)) + y;
    }
  }

  lemma SqPositive(a: real)
    requires a != 0.0
    ensures Sq(a) > 0.0
  {
    if a > 0.0 {
      calc {
        Sq(a);
      == a * a;
      > 0.0;
      }
    } else {
      calc {
        Sq(a);
      == (-a) * (-a);
      > 0.0;
      }
    }
  }

  lemma SqNonNegative(a: real)
    ensures Sq(a) >= 0.0
  {
    if a != 0.0 {
      SqPositive(a);
    }
  }

  lemma SqZero(a: real)
    requires Sq(a) <= 0.0
    ensures a == 0.0
  {
    if a != 0.0 {
      SqPositive(a);
    }
  }

  lemma PositiveFactor(k: real, y: real)
    requires k > 0.0 && k * y >= 0.0
    ensures y >= 0.0
  {
  }

  /** A distance beyond three deviations has a square beyond nine variances. */
  lemma BeyondThree(d: real, sd: real)
    requires sd >= 0.0 && (d > 3.0 * sd || d < -3.0 * sd)
    ensures Sq(d) > 9.0 * Sq(sd)
  {
    var e := if d > 0.0 then d else -d;
    SqNeg(d);
    assert Sq(e) == Sq(d);
    assert e > 3.0 * sd;
    calc {
      Sq(e);
    == e * e;
    > (3.0 * sd) * e;
    >= (3.0 * sd) * (3.0 * sd);
    == 9.0 * Sq(sd);
    }
  }

  /** As written, the volume check can never fire on ten counts or fewer:
      today's own count widens the band enough to contain it. */
  lemma ShortHistoryNeverFlagged(counts: seq<int>, sd: real)
    requires 2 <= |counts| <= 10 && IsSampleStdev(counts, sd)
    ensures !VolumeAnomaly(counts, sd)
  {
    var n := |counts| as real;
    var d := counts[|counts| - 1] as real - Mean(counts);
    SamuelsonBound(counts, sd);
    SmallCountFactor(|counts|);
    SqNonNegative(sd);
    if d > 3.0 * sd || d < -3.0 * sd {
      BeyondThree(d, sd);
      calc {
        n * Sq(d);
      > n * (9.0 * Sq(sd));
      == (9.0 * n) * Sq(sd);
      >= (n - 1.0) * (n - 1.0) * Sq(sd);
      }
      assert false;
    }
  }

  /** Eleven counts are the fewest the check can flag: ten zero days
      followed by a day of 1 are an anomaly. */
  lemma ElevenCountsCanFlag(sd: real)
    requires IsSampleStdev(seq(10, _ => 0) + [1], sd)
    ensures VolumeAnomaly(seq(10, _ => 0) + [1], sd)
  {
    var zeros: seq<int> := seq(10, _ => 0);
    var xs := zeros + [1];
    var m := 1.0 / 11.0;
    assert xs[..|xs| - 1] == zeros;
    ZerosStats(10, m);
    assert Sum(xs) == 1;
    assert Mean(xs) == m;
    assert SquaredDeviations(xs, m) == 10.0 * Sq(m) + Sq(1.0 - m);
    assert Sq(sd) == 1.0 / 11.0;
    SqLessThan(sd, 10.0 / 33.0);
  }

  lemma {:induction false} ZerosStats(k: nat, m: real)
    ensures Sum(seq(k, _ => 0)) == 0
    ensures SquaredDeviations(seq(k, _ => 0), m) == k as real * Sq(m)
  {
    if k > 0 {
      var zs: seq<int> := seq(k, _ => 0);
      assert zs[..k - 1] == seq(k - 1, _ => 0);
      ZerosStats(k - 1, m);
      SqNeg(m);
      assert 0 as real - m == -m;
      Distribute(k - 1, Sq(m));
    }
  }

  /** A non-negative number whose square is below b * b is below b. */
  lemma SqLessThan(x: real, b: real)
    requires x >= 0.0 && b > 0.0 && Sq(x) < Sq(b)
    ensures x < b
  {
    if x >= b {
      calc {
        Sq(x);
      == x * x;
      >= b * x;
      >= b * b;
      == Sq(b);
      }
    }
  }

  /** (n - 1)^2 <= 9 n holds for n from 2 to 10. */
  lemma SmallCountFactor(k: int)
    requires 2 <= k <= 10
    ensures (k as real - 1.0) * (k as real - 1.0) <= 9.0 * k as real
  {
    assert (k - 1) * (k - 1) <= 9 * k by {
      if k <= 5 { assert (k - 1) * (k - 1) <= 16; } else { assert (k - 1) * (k - 1) <= 81; }
    }
    assert ((k - 1) * (k - 1)) as real == (k as real - 1.0) * (k as real - 1.0);
  }

  /** A count equal to the mean is never flagged. */
  lemma AtMeanNotFlagged(counts: seq<int>, stdev: real)
    requires counts != [] && stdev >= 0.0
    requires counts[|counts| - 1] as real == Mean(counts)
    ensures !VolumeAnomaly(counts, stdev)
  {
  }

  /** Two quality readings: three violations pass, ten are degraded. */
  lemma QualityExamples()
    ensures QualityScore(2, 1, 0) == 97 && !(QualityScore(2, 1, 0) < QualityThreshold)
    ensures QualityScore(10, 0, 0) == 90 && QualityScore(10, 0, 0) < QualityThreshold
  {
  }

  /** More violations never give a higher quality score. */
  lemma QualityScoreMonotone(op: nat, oc: nat, n: nat, op': nat, oc': nat, n': nat)
    requires op + oc + n <= op' + oc' + n'
    ensures QualityScore(op', oc', n') <= QualityScore(op, oc, n)
  {
  }
}
