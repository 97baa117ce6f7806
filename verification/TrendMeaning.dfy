/**
  What an alert says, in the names of the metrics and in plain numbers: throughputs and scores are
  reported when they fall, latencies when they rise, against the threshold of their kind.
*/
module TrendMeaning {
  import opened Common
  import opened Statistics
  import opened TrendDrift
  import opened TrendStep
  import opened TrendSeries
  import opened TrendMonitor

  /** By more than `threshold` percent of the old level, the new one is worse for this metric. */
  predicate WorseBy(metric: Metric, before: real, after: real, threshold: real) {
    var level := if before < 0.0 then -before else before;
    match metric
    case InputThroughput => 100.0 * (before - after) > threshold * level
    case OutputThroughput => 100.0 * (before - after) > threshold * level
    case AccuracyScore => 100.0 * (before - after) > threshold * level
    case MedianTtft => 100.0 * (after - before) > threshold * level
    case MedianItl => 100.0 * (after - before) > threshold * level
  }

  lemma PercentOf(x: real, level: real, threshold: real)
    requires level > 0.0
    ensures x / level * 100.0 > threshold <==> 100.0 * x > threshold * level
    ensures x / level * 100.0 < -threshold <==> 100.0 * -x > threshold * level
  {
    var q := x / level;
    assert q * level == x;
    assert (q * 100.0 - threshold) * level == 100.0 * x - threshold * level;
    assert (q * 100.0 + threshold) * level == 100.0 * x + threshold * level;
  }

  /** The test of the detector on two levels. */
  lemma AdverseMeans(metric: Metric, before: real, after: real, threshold: real)
    ensures Adverse(DirectionOf(metric), before, after, threshold) <==>
      && (before >= 0.000_000_001 || before <= -0.000_000_001)
      && WorseBy(metric, before, after, threshold)
  {
    var level := if before < 0.0 then -before else before;
    if level >= 0.000_000_001 { PercentOf(after - before, level, threshold); }
  }

  // ----- One series

  /** When the windows are full: a drift is a worsening of the medians that the scatter does not hide. */
  lemma DriftMeans(points: seq<real>, metric: Metric, c: Settings)
    requires c.recent > 0 && c.baseline > 0 && |points| >= c.recent + c.baseline
    ensures var recent, baseline := RecentWindow(points, c), BaselineWindow(points, c);
      var r, b := Median(recent), Median(baseline);
      && (DetectDrift(points, metric, c).Drift? <==>
            && (b >= 0.000_000_001 || b <= -0.000_000_001)
            && WorseBy(metric, b, r, c.threshold)
            && !Suppressed(baseline, if r < b then b - r else r - b, 1.4826 * Median(Deviations(baseline, b)), c.minZ))
  {
    AdverseMeans(metric, Median(BaselineWindow(points, c)), Median(RecentWindow(points, c)), c.threshold);
  }

  /** The gate with a scaled MAD that is not negligible. */
  lemma MadGate(baseline: seq<real>, delta: real, scaledMad: real, z: real)
    requires scaledMad >= 0.000_000_001
    ensures Suppressed(baseline, delta, scaledMad, z) <==> delta < z * scaledMad
  {
  }

  /** The gate otherwise: with the standard deviation, unless the baseline is flat. */
  lemma StdevGate(baseline: seq<real>, delta: real, scaledMad: real, z: real, sd: real)
    requires scaledMad < 0.000_000_001 && delta >= 0.0 && |baseline| >= 2
    requires sd >= 0.0 && sd * sd == Variance(baseline)
    ensures Suppressed(baseline, delta, scaledMad, z) <==>
      && !(forall i, j :: 0 <= i < |baseline| && 0 <= j < |baseline| ==> baseline[i] == baseline[j])
      && sd >= 0.000_000_001 && delta < z * sd
  {
    RootGate(delta, z, sd, Variance(baseline));
  }

  lemma RootGate(delta: real, z: real, sd: real, variance: real)
    requires delta >= 0.0 && sd >= 0.0 && sd * sd == variance
    ensures WithinStdevs(delta, z, variance) <==> sd >= 0.000_000_001 && delta < z * sd
  {
    SquaresCompare(0.000_000_001, sd);
    if z > 0.0 {
      assert z * sd >= 0.0 && Square(z * sd) == Square(z) * variance by { SquareOfProduct(z, sd); }
      SquaresCompare(z * sd, delta);
    } else {
      assert z * sd <= 0.0;
    }
  }

  lemma SquareOfProduct(x: real, y: real)
    requires x >= 0.0 && y >= 0.0
    ensures x * y >= 0.0 && Square(x * y) == Square(x) * (y * y)
  {
  }

  lemma SquaresCompare(x: real, y: real)
    requires x >= 0.0 && y >= 0.0
    ensures x <= y <==> Square(x) <= Square(y)
  {
    if x <= y { assert x * x <= x * y && x * y <= y * y; }
    if y < x {
      PositiveProduct(x - y, x + y, (x - y) * (x + y));
      assert (x - y) * (x + y) == x * x - y * y;
    }
  }

  /** What the report of a drift contains. */
  lemma DetailMeans(points: seq<real>, metric: Metric, c: Settings)
    requires c.recent > 0 && c.baseline > 0 && |points| >= c.recent + c.baseline
    requires DetectDrift(points, metric, c).Drift?
    ensures var detail, baseline := DetectDrift(points, metric, c), BaselineWindow(points, c);
      && detail.baselineMedian == Median(baseline) && detail.recentMedian == Median(RecentWindow(points, c))
      && detail.scaledMad == 1.4826 * Median(Deviations(baseline, Median(baseline)))
      && (var level := if Median(baseline) < 0.0 then -Median(baseline) else Median(baseline);
          detail.pct * level == 100.0 * (detail.recentMedian - detail.baselineMedian))
  {
    var b, r := Median(BaselineWindow(points, c)), Median(RecentWindow(points, c));
    assert Percent(b, r) * Abs(b) == 100.0 * (r - b) by { PercentTimes(b, r); }
  }

  lemma PercentTimes(b: real, r: real)
    requires b != 0.0
    ensures Percent(b, r) * Abs(b) == 100.0 * (r - b)
  {
    var q := (r - b) / Abs(b);
    assert q * Abs(b) == r - b;
  }

  // ----- A step

  /**
    While a step fills the larger part of the recent window it is reported exactly when the metric has
    become worse by more than the threshold: for a throughput or a score when 100 (a - b) exceeds the
    threshold times a, for a latency when 100 (b - a) does.
  */
  lemma StepReportedIff(a: real, b: real, m: nat, k: nat, metric: Metric, c: Settings)
    requires c.baseline > 0 && m + k >= c.recent + c.baseline && c.recent < 2 * k <= 2 * c.recent
    requires a >= 0.000_000_001
    ensures DetectDrift(Mix(a, b, m, k), metric, c).Drift? <==> WorseBy(metric, a, b, c.threshold)
  {
    RecentVerdict(a, b, m, k, metric, c);
    AdverseMeans(metric, a, b, c.threshold);
  }

  /** From a level that is practically zero no step is reported while the baseline stays there. */
  lemma ZeroIsSilent(a: real, b: real, m: nat, k: nat, metric: Metric, c: Settings)
    requires c.baseline > 0 && m + k >= c.recent + c.baseline && 0 < k <= c.recent
    requires -0.000_000_001 < a < 0.000_000_001
    ensures !DetectDrift(Mix(a, b, m, k), metric, c).Drift?
  {
    StepVerdict(a, b, m, k, metric, c);
  }

  /** When half of the baseline has aged, the gate alone decides: it hides the step iff 1 < 1.4826 z. */
  lemma HalfwayReportedIff(a: real, b: real, m: nat, metric: Metric, c: Settings)
    requires c.recent > 0 && c.baseline > 0 && c.baseline % 2 == 0
    requires m + c.recent + c.baseline / 2 >= c.recent + c.baseline
    requires 0.7413 * Abs(b - a) >= 0.000_000_001
    ensures DetectDrift(Mix(a, b, m, c.recent + c.baseline / 2), metric, c).Drift? <==>
      && ((a + b) / 2.0 >= 0.000_000_001 || (a + b) / 2.0 <= -0.000_000_001)
      && WorseBy(metric, (a + b) / 2.0, b, c.threshold)
      && 1.4826 * c.minZ <= 1.0
  {
    StepVerdict(a, b, m, c.recent + c.baseline / 2, metric, c);
    AdverseMeans(metric, (a + b) / 2.0, b, c.threshold);
    GateFactor(Abs(b - a) / 2.0, c.minZ);
  }

  lemma GateFactor(half: real, z: real)
    requires half > 0.0
    ensures half < z * (MAD_SCALE * half) <==> 1.0 < 1.4826 * z
  {
    assert z * (MAD_SCALE * half) - half == (1.4826 * z - 1.0) * half;
  }

  // ----- The monitor

  /** The threshold that applies to a metric. */
  function ThresholdOf(metric: Metric, h: Options): real {
    match metric
    case AccuracyScore => h.accuracyPct
    case InputThroughput => h.perfPct
    case OutputThroughput => h.perfPct
    case MedianTtft => h.perfPct
    case MedianItl => h.perfPct
  }

  /** Every alert is a worsening of its metric past the threshold of its kind. */
  lemma AlertsAreRegressions(series: map<Key, seq<Point>>, alerts: seq<Alert>, h: Options, a: Alert)
    requires h.recent > 0 && h.baseline > 0 && Reports(alerts, series, series.Keys, h) && a in alerts
    ensures a.key in series && |series[a.key]| >= h.recent + h.baseline
    ensures var v, c := Values(series[a.key]), SettingsFor(a.key.metric, h);
      && c.recent == h.recent && c.baseline == h.baseline
      && WorseBy(a.key.metric, Median(BaselineWindow(v, c)), Median(RecentWindow(v, c)), ThresholdOf(a.key.metric, h))
  {
    DriftMeans(Values(series[a.key]), a.key.metric, SettingsFor(a.key.metric, h));
  }

  /** Worse, however little. */
  predicate Worse(metric: Metric, before: real, after: real) {
    match metric
    case InputThroughput => after < before
    case OutputThroughput => after < before
    case AccuracyScore => after < before
    case MedianTtft => after > before
    case MedianItl => after > before
  }

  /** A metric whose recent median is no worse than its baseline never appears among the alerts. */
  lemma NoAlertUnlessWorse(
    series: map<Key, seq<Point>>, alerts: seq<Alert>, h: Options, k: Key, detail: Outcome)
    requires h.recent > 0 && h.baseline > 0 && Reports(alerts, series, series.Keys, h) && k in series
    requires h.accuracyPct >= 0.0 && h.perfPct >= 0.0 && |series[k]| >= h.recent + h.baseline
    requires var v, c := Values(series[k]), SettingsFor(k.metric, h);
      !Worse(k.metric, Median(BaselineWindow(v, c)), Median(RecentWindow(v, c)))
    ensures Alert(k, detail) !in alerts
  {
    if Alert(k, detail) in alerts {
      AlertsAreRegressions(series, alerts, h, Alert(k, detail));
      var v, c := Values(series[k]), SettingsFor(k.metric, h);
      WorseIfWorseBy(k.metric, Median(BaselineWindow(v, c)), Median(RecentWindow(v, c)), ThresholdOf(k.metric, h));
    }
  }

  lemma WorseIfWorseBy(metric: Metric, before: real, after: real, threshold: real)
    requires threshold >= 0.0 && WorseBy(metric, before, after, threshold)
    ensures Worse(metric, before, after)
  {
    var level := if before < 0.0 then -before else before;
    assert threshold * level >= 0.0;
  }

  /** And a worsening past the threshold that the scatter does not hide is always reported. */
  lemma RegressionsAreReported(series: map<Key, seq<Point>>, alerts: seq<Alert>, h: Options, k: Key)
    requires h.recent > 0 && h.baseline > 0 && Reports(alerts, series, series.Keys, h) && k in series
    requires |series[k]| >= h.recent + h.baseline
    requires var v, c := Values(series[k]), SettingsFor(k.metric, h);
      var baseline, r := BaselineWindow(v, c), Median(RecentWindow(v, c));
      var b := Median(baseline);
      && (b >= 0.000_000_001 || b <= -0.000_000_001) && WorseBy(k.metric, b, r, ThresholdOf(k.metric, h))
      && !Suppressed(baseline, if r < b then b - r else r - b, 1.4826 * Median(Deviations(baseline, b)), h.minZ)
    ensures exists a :: a in alerts && a.key == k
  {
    DriftMeans(Values(series[k]), k.metric, SettingsFor(k.metric, h));
    assert Alert(k, Verdict(series, k, h)) in alerts;
  }
}
