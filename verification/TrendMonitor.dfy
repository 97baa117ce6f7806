/** `find_drifts` of scripts/ci/check_trend_threshold.py, and the monitor from records to alerts. */
module TrendMonitor {
  import opened TrendDrift
  import opened TrendSeries
  import opened TrendOrder

  datatype Options = Options(recent: nat, baseline: nat, accuracyPct: real, perfPct: real, minZ: real)

  datatype Alert = Alert(key: Key, detail: Outcome)

  datatype Report = Drifts(alerts: seq<Alert>) | Failed

  function SettingsFor(metric: Metric, h: Options): Settings {
    Settings(h.recent, h.baseline, if metric.AccuracyScore? then h.accuracyPct else h.perfPct, h.minZ)
  }

  function Values(points: seq<Point>): (r: seq<real>)
    ensures |r| == |points| && forall i :: 0 <= i < |r| ==> r[i] == points[i].value
  {
    seq(|points|, i requires 0 <= i < |points| => points[i].value)
  }

  function Verdict(series: map<Key, seq<Point>>, k: Key, h: Options): Outcome
    requires k in series
  {
    DetectDrift(Values(series[k]), k.metric, SettingsFor(k.metric, h))
  }

  // ----- The report

  predicate OneAKey(alerts: seq<Alert>) {
    forall i, j :: 0 <= i < j < |alerts| ==> alerts[i].key != alerts[j].key
  }

  /** Exactly the drifting keys among `keys` are reported, each once. */
  ghost predicate Reports(alerts: seq<Alert>, series: map<Key, seq<Point>>, keys: set<Key>, h: Options)
    requires keys <= series.Keys
  {
    && OneAKey(alerts)
    && forall a: Alert :: a in alerts <==> a.key in keys && a.detail.Drift? && Verdict(series, a.key, h) == a.detail
  }

  lemma ReportNext(alerts: seq<Alert>, series: map<Key, seq<Point>>, keys: set<Key>, h: Options, k: Key)
    requires keys <= series.Keys && Reports(alerts, series, keys, h) && k in series && k !in keys
    ensures var d := Verdict(series, k, h);
      Reports(if d.Drift? then alerts + [Alert(k, d)] else alerts, series, keys + {k}, h)
  {
    var d := Verdict(series, k, h);
    var alerts' := if d.Drift? then alerts + [Alert(k, d)] else alerts;
    forall i | 0 <= i < |alerts| ensures alerts[i].key != k { assert alerts[i] in alerts; }
    forall a: Alert
      ensures a in alerts' <==> a.key in keys + {k} && a.detail.Drift? && Verdict(series, a.key, h) == a.detail
    {
      assert a in alerts' <==> a in alerts || (d.Drift? && a == Alert(k, d));
    }
  }

  method FindDrifts(series: map<Key, seq<Point>>, h: Options) returns (r: Report)
    ensures r.Failed? <==> exists k :: k in series && Verdict(series, k, h).EmptyWindow?
    ensures r.Drifts? ==> Reports(r.alerts, series, series.Keys, h)
  {
    var alerts := [];
    ghost var done: set<Key> := {};
    var rest := series.Keys;
    while rest != {}
      invariant rest + done == series.Keys && rest !! done
      invariant Reports(alerts, series, done, h)
      invariant forall k :: k in done ==> !Verdict(series, k, h).EmptyWindow?
      decreases |rest|
    {
      var k :| k in rest;
      var d := Verdict(series, k, h);
      if d.EmptyWindow? { return Failed; }
      ReportNext(alerts, series, done, h, k);
      if d.Drift? { alerts := alerts + [Alert(k, d)]; }
      rest, done := rest - {k}, done + {k};
    }
    assert done == series.Keys;
    r := Drifts(alerts);
  }

  // ----- From records to alerts

  lemma {:induction false} AtMostOnce(alerts: seq<Alert>, a: Alert)
    requires OneAKey(alerts)
    ensures multiset(alerts)[a] == if a in alerts then 1 else 0
  {
    if alerts != [] {
      var front, last := alerts[..|alerts| - 1], alerts[|alerts| - 1];
      AtMostOnce(front, a);
      assert alerts == front + [last];
      if last == a { assert a !in front; }
    }
  }

  /**
    When no two records share key, date and run id, the monitor's alerts do not depend on the order
    in which the records were read; only the order of the report may.
  */
  lemma AlertsIgnoreReadingOrder(
    records: seq<Record>, other: seq<Record>, a: map<Key, seq<Point>>, b: map<Key, seq<Point>>,
    x: seq<Alert>, y: seq<Alert>, h: Options)
    requires NoClash(records) && multiset(records) == multiset(other)
    requires IsSeriesOf(a, records) && IsSeriesOf(b, other)
    requires Reports(x, a, a.Keys, h) && Reports(y, b, b.Keys, h)
    ensures multiset(x) == multiset(y)
  {
    DistinctRunsBuildOneSeries(records, other, a, b);
    forall e: Alert ensures multiset(x)[e] == multiset(y)[e] {
      AtMostOnce(x, e);
      AtMostOnce(y, e);
    }
    assert multiset(x) == multiset(y);
  }

  /** The record offers nothing new: each of its values is already there with as large a run id. */
  ghost predicate Superseded(r: Record, records: seq<Record>) {
    forall s :: Offer(r, s).Some? ==>
      Latest(records, s).Some? && Number(Offer(r, s).value.run) <= Number(Latest(records, s).value.run)
  }

  /** Reading one more record leaves every series as it is exactly when the record is superseded. */
  lemma RecordIgnoredIffSuperseded(
    records: seq<Record>, r: Record, a: map<Key, seq<Point>>, b: map<Key, seq<Point>>)
    requires IsSeriesOf(a, records) && IsSeriesOf(b, records + [r])
    ensures a == b <==> Superseded(r, records)
  {
    SeriesDetermined(a, b, records, records + [r]);
    forall s ensures Latest(records + [r], s) == Newer(Latest(records, s), Offer(r, s)) {
      assert (records + [r])[..|records|] == records;
    }
    if a == b {
      forall s | Offer(r, s).Some?
        ensures Latest(records, s).Some? && Number(Offer(r, s).value.run) <= Number(Latest(records, s).value.run)
      {
        assert Latest(records, s) == Latest(records + [r], s);
      }
    } else {
      var s :| Latest(records, s) != Latest(records + [r], s);
      assert Offer(r, s).Some?;
    }
  }

  /** A few bad nights raise no alert, whatever was measured in them. */
  lemma BadNightsRaiseNoAlert(
    series: map<Key, seq<Point>>, alerts: seq<Alert>, h: Options, k: Key, lo: real, hi: real, d: Outcome)
    requires Reports(alerts, series, series.Keys, h) && k in series
    requires h.recent > 0 && h.baseline > 0 && |series[k]| >= h.recent + h.baseline
    requires var c, v := SettingsFor(k.metric, h), Values(series[k]);
      && MostlyWithin(RecentWindow(v, c), lo, hi) && MostlyWithin(BaselineWindow(v, c), lo, hi)
      && 0.0 < lo <= hi && 100.0 * (hi - lo) <= c.threshold * lo
    ensures Alert(k, d) !in alerts
  {
    OutliersDoNotAlert(Values(series[k]), k.metric, SettingsFor(k.metric, h), lo, hi);
  }
}
