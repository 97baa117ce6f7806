/** `detect_drift` of scripts/ci/check_trend_threshold.py, over exact reals. */
module TrendDrift {
  import opened RealSums
  import opened Statistics

  datatype Metric = InputThroughput | OutputThroughput | MedianTtft | MedianItl | AccuracyScore

  datatype Direction = Higher | Lower

  /** "Higher" metrics drift on a drop, "lower" ones on a rise. */
  function DirectionOf(m: Metric): Direction {
    if m.MedianTtft? || m.MedianItl? then Lower else Higher
  }

  datatype Settings = Settings(recent: nat, baseline: nat, threshold: real, minZ: real)

  /** `EmptyWindow` is the exception `statistics.median` raises for a window of no points. */
  datatype Outcome =
    | NoDrift
    | Drift(baselineMedian: real, recentMedian: real, pct: real, scaledMad: real)
    | EmptyWindow

  const EPS := 0.000_000_001
  const MAD_SCALE := 1.4826

  function Abs(x: real): real {
    if x < 0.0 then -x else x
  }

  // ----- Scatter of the baseline

  function Deviations(s: seq<real>, m: real): (r: seq<real>)
    ensures |r| == |s| && forall i :: 0 <= i < |s| ==> r[i] == Abs(s[i] - m)
  {
    seq(|s|, i requires 0 <= i < |s| => Abs(s[i] - m))
  }

  function Square(x: real): real {
    x * x
  }

  function SquaredError(s: seq<real>, m: real): real {
    if s == [] then 0.0
    else SquaredError(s[..|s| - 1], m) + Square(s[|s| - 1] - m)
  }

  /** The square of `statistics.stdev`. */
  function Variance(s: seq<real>): real
    requires |s| >= 2
  {
    SquaredError(s, Sum(s) / |s| as real) / (|s| - 1) as real
  }

  predicate Flat(s: seq<real>) {
    forall i, j :: 0 <= i < |s| && 0 <= j < |s| ==> s[i] == s[j]
  }

  /**
    Is `delta` within `z` standard deviations? The source compares with the root of `variance`;
    both sides are squared here, which is the same comparison in exact arithmetic.
  */
  predicate WithinStdevs(delta: real, z: real, variance: real) {
    variance >= Square(EPS) && z > 0.0 && Square(delta) < Square(z) * variance
  }

  /** The z gate: a change inside the baseline's own scatter is not reported. */
  predicate Suppressed(baseline: seq<real>, delta: real, scaledMad: real, z: real) {
    if scaledMad >= EPS then delta < z * scaledMad
    else |baseline| >= 2 && !Flat(baseline) && WithinStdevs(delta, z, Variance(baseline))
  }

  // ----- The detector

  function Percent(base: real, recent: real): real
    requires base != 0.0
  {
    (recent - base) / Abs(base) * 100.0
  }

  /** The recent median is past the threshold on the bad side of a baseline that is not zero. */
  predicate Adverse(d: Direction, base: real, recent: real, threshold: real) {
    && Abs(base) >= EPS
    && (if d.Higher? then Percent(base, recent) < -threshold else Percent(base, recent) > threshold)
  }

  function RecentWindow(points: seq<real>, c: Settings): seq<real>
    requires |points| >= c.recent + c.baseline
  {
    points[|points| - c.recent..]
  }

  function BaselineWindow(points: seq<real>, c: Settings): seq<real>
    requires |points| >= c.recent + c.baseline
  {
    points[|points| - c.recent - c.baseline..|points| - c.recent]
  }

  function Compare(recent: seq<real>, baseline: seq<real>, d: Direction, c: Settings): Outcome
    requires recent != [] && baseline != []
  {
    var r, b := Median(recent), Median(baseline);
    if !Adverse(d, b, r, c.threshold) then NoDrift
    else
      var scaledMad := MAD_SCALE * Median(Deviations(baseline, b));
      if Suppressed(baseline, Abs(r - b), scaledMad, c.minZ) then NoDrift
      else Drift(b, r, Percent(b, r), scaledMad)
  }

  function DetectDrift(points: seq<real>, metric: Metric, c: Settings): Outcome {
    if |points| < c.recent + c.baseline then NoDrift
    else if c.recent == 0 || c.baseline == 0 then EmptyWindow
    else Compare(RecentWindow(points, c), BaselineWindow(points, c), DirectionOf(metric), c)
  }

  // ----- Robustness

  predicate MostlyWithin(s: seq<real>, lo: real, hi: real) {
    2 * (Below(s, lo) + Above(s, hi)) < |s|
  }

  lemma PercentBounded(base: real, recent: real, lo: real, hi: real, threshold: real)
    requires 0.0 < lo <= base <= hi && lo <= recent <= hi
    requires 100.0 * (hi - lo) <= threshold * lo
    ensures -threshold <= Percent(base, recent) <= threshold
  {
    var q := (recent - base) / base;
    assert q * base == recent - base;
    assert -(hi - lo) <= recent - base <= hi - lo;
    assert threshold >= 0.0;
    assert threshold * lo <= threshold * base;
    assert 100.0 * (recent - base) <= threshold * base;
    assert 100.0 * (base - recent) <= threshold * base;
    assert 100.0 * (q * base) == 100.0 * (recent - base);
    assert (100.0 * q - threshold) * base <= 0.0;
    assert (100.0 * q + threshold) * base >= 0.0;
  }

  lemma NotAdverse(d: Direction, base: real, recent: real, lo: real, hi: real, threshold: real)
    requires 0.0 < lo <= base <= hi && lo <= recent <= hi
    requires 100.0 * (hi - lo) <= threshold * lo
    ensures !Adverse(d, base, recent, threshold)
  {
    PercentBounded(base, recent, lo, hi, threshold);
  }

  /**
    While fewer than half of the points of each window leave a band no wider than the threshold,
    nothing is reported, whatever values the other points take.
  */
  lemma OutliersDoNotAlert(points: seq<real>, metric: Metric, c: Settings, lo: real, hi: real)
    requires c.recent > 0 && c.baseline > 0 && |points| >= c.recent + c.baseline
    requires MostlyWithin(RecentWindow(points, c), lo, hi) && MostlyWithin(BaselineWindow(points, c), lo, hi)
    requires 0.0 < lo <= hi && 100.0 * (hi - lo) <= c.threshold * lo
    ensures DetectDrift(points, metric, c) == NoDrift
  {
    var recent, baseline := RecentWindow(points, c), BaselineWindow(points, c);
    MedianInRange(recent, lo, hi);
    MedianInRange(baseline, lo, hi);
    NotAdverse(DirectionOf(metric), Median(baseline), Median(recent), lo, hi, c.threshold);
  }

  /** Points older than the two windows have no influence. */
  lemma OldHistoryIgnored(old': seq<real>, points: seq<real>, metric: Metric, c: Settings)
    requires |points| >= c.recent + c.baseline
    ensures DetectDrift(old' + points, metric, c) == DetectDrift(points, metric, c)
  {
    assert RecentWindow(old' + points, c) == RecentWindow(points, c);
    assert BaselineWindow(old' + points, c) == BaselineWindow(points, c);
  }
}
