/** `build_series` of scripts/ci/check_trend_threshold.py. */
module TrendSeries {
  import opened Common
  import opened TrendDrift

  /**
    A loaded result. The run id is the text that was read, compared by the number it spells; dates
    are ordinals, which order like the YYYY-MM-DD directory names.
  */
  datatype Record = Record(
    config: string, point: Option<seq<int>>, date: int, runId: string, metrics: map<Metric, real>, valid: bool)

  datatype Key = Key(config: string, point: Option<seq<int>>, metric: Metric)

  datatype Slot = Slot(key: Key, date: int)

  datatype Entry = Entry(run: string, value: real)

  datatype Point = Point(date: int, run: string, value: real)

  // ----- Run ids

  predicate IsNumber(s: string) {
    s != "" && forall i :: 0 <= i < |s| ==> '0' <= s[i] <= '9'
  }

  /** The number a text of digits spells. */
  function Number(s: string): nat {
    if s == "" then 0
    else
      var c := s[|s| - 1];
      10 * Number(s[..|s| - 1]) + if '0' <= c <= '9' then c as int - '0' as int else 0
  }

  /** Decimal notation. */
  function Decimal(n: nat): (s: string)
    ensures IsNumber(s)
  {
    if n < 10 then ["0123456789"[n]] else Decimal(n / 10) + ["0123456789"[n % 10]]
  }

  /** A run id spells the number whose decimal notation it is. */
  lemma {:induction false} NumberOfDecimal(n: nat)
    ensures Number(Decimal(n)) == n
  {
    var digit := "0123456789"[n % 10];
    assert digit as int - '0' as int == n % 10;
    if n < 10 {
      assert Decimal(n)[..0] == "";
    } else {
      NumberOfDecimal(n / 10);
      assert Decimal(n)[..|Decimal(n)| - 1] == Decimal(n / 10);
    }
  }

  // ----- What a record says about a slot

  function Offer(r: Record, s: Slot): Option<Entry> {
    if r.valid && IsNumber(r.runId) && r.config == s.key.config && r.point == s.key.point && r.date == s.date
       && s.key.metric in r.metrics
    then Some(Entry(r.runId, r.metrics[s.key.metric]))
    else None
  }

  function Newer(old': Option<Entry>, next: Option<Entry>): Option<Entry> {
    if next.Some? && (old'.None? || Number(next.value.run) > Number(old'.value.run)) then next else old'
  }

  /** The entry that survives for a slot after the records have been read in order. */
  function Latest(records: seq<Record>, s: Slot): Option<Entry> {
    if records == [] then None
    else Newer(Latest(records[..|records| - 1], s), Offer(records[|records| - 1], s))
  }

  type Table = map<Slot, Entry>

  function Lookup(t: Table, s: Slot): Option<Entry> {
    if s in t then Some(t[s]) else None
  }

  ghost predicate Tabulates(t: Table, records: seq<Record>) {
    forall s :: Lookup(t, s) == Latest(records, s)
  }

  // ----- The first pass

  /** One record: the loop over its metrics. */
  method ReadRecord(t0: Table, r: Record) returns (t: Table)
    ensures forall s :: Lookup(t, s) == Newer(Lookup(t0, s), Offer(r, s))
  {
    t := t0;
    if !r.valid || !IsNumber(r.runId) { return; }
    var rest := r.metrics.Keys;
    while rest != {}
      invariant rest <= r.metrics.Keys
      invariant forall s ::
        Lookup(t, s) == if s.key.metric in rest then Lookup(t0, s) else Newer(Lookup(t0, s), Offer(r, s))
      decreases |rest|
    {
      var name :| name in rest;
      var slot := Slot(Key(r.config, r.point, name), r.date);
      if slot !in t || Number(r.runId) > Number(t[slot].run) {
        t := t[slot := Entry(r.runId, r.metrics[name])];
      }
      rest := rest - {name};
    }
  }

  method Tabulate(records: seq<Record>) returns (t: Table)
    ensures Tabulates(t, records)
  {
    t := map[];
    for n := 0 to |records|
      invariant Tabulates(t, records[..n])
    {
      assert records[..n + 1][..n] == records[..n];
      t := ReadRecord(t, records[n]);
    }
    assert records[..|records|] == records;
  }

  // ----- The second pass

  predicate Ascending(points: seq<Point>) {
    forall i, j :: 0 <= i < j < |points| ==> points[i].date < points[j].date
  }

  ghost predicate OneADate(points: seq<Point>) {
    forall i, j :: 0 <= i < j < |points| ==> points[i].date != points[j].date
  }

  /** The points of a key are exactly the entries of its slots among `slots`. */
  ghost predicate Holds(points: seq<Point>, t: Table, slots: set<Slot>, k: Key)
    requires slots <= t.Keys
  {
    forall p: Point :: p in points <==>
      Slot(k, p.date) in slots && t[Slot(k, p.date)] == Entry(p.run, p.value)
  }

  ghost predicate Collects(series: map<Key, seq<Point>>, t: Table, slots: set<Slot>)
    requires slots <= t.Keys
  {
    && (forall s :: s in slots ==> s.key in series)
    && (forall k :: k in series ==> series[k] != [] && OneADate(series[k]) && Holds(series[k], t, slots, k))
  }

  lemma InsertAscending(points: seq<Point>, p: Point, k: nat)
    requires k <= |points| && Ascending(points)
    requires k > 0 ==> points[k - 1].date < p.date
    requires k < |points| ==> p.date < points[k].date
    ensures Ascending(points[..k] + [p] + points[k..])
  {
    var r := points[..k] + [p] + points[k..];
    forall i, j | 0 <= i < j < |r| ensures r[i].date < r[j].date {
      assert r[i] == if i < k then points[i] else if i == k then p else points[i - 1];
      assert r[j] == if j < k then points[j] else if j == k then p else points[j - 1];
    }
  }

  lemma InsertMembers(points: seq<Point>, p: Point, k: nat, q: Point)
    requires k <= |points|
    ensures q in points[..k] + [p] + points[k..] <==> q in points || q == p
  {
    assert points == points[..k] + points[k..];
  }

  method InsertByDate(points: seq<Point>, p: Point) returns (r: seq<Point>)
    requires Ascending(points) && forall q :: q in points ==> q.date != p.date
    ensures Ascending(r) && forall q :: q in r <==> q in points || q == p
  {
    var k := |points|;
    while k > 0 && points[k - 1].date > p.date
      invariant 0 <= k <= |points|
      invariant k < |points| ==> p.date < points[k].date
    {
      k := k - 1;
    }
    r := points[..k] + [p] + points[k..];
    if k > 0 { assert points[k - 1] in points; }
    InsertAscending(points, p, k);
    forall q ensures q in r <==> q in points || q == p { InsertMembers(points, p, k, q); }
  }

  method SortByDate(points: seq<Point>) returns (r: seq<Point>)
    requires OneADate(points)
    ensures Ascending(r) && forall q :: q in r <==> q in points
  {
    r := [];
    for n := 0 to |points|
      invariant Ascending(r) && forall q :: q in r <==> q in points[..n]
    {
      assert points[..n + 1] == points[..n] + [points[n]];
      r := InsertByDate(r, points[n]);
    }
    assert points[..|points|] == points;
  }

  function Append(series: map<Key, seq<Point>>, t: Table, s: Slot): map<Key, seq<Point>>
    requires s in t
  {
    var points := if s.key in series then series[s.key] else [];
    series[s.key := points + [Point(s.date, t[s].run, t[s].value)]]
  }

  lemma AppendPoint(points: seq<Point>, t: Table, slots: set<Slot>, s: Slot)
    requires slots <= t.Keys && s in t && s !in slots
    requires OneADate(points) && Holds(points, t, slots, s.key)
    ensures var points' := points + [Point(s.date, t[s].run, t[s].value)];
      OneADate(points') && Holds(points', t, slots + {s}, s.key)
  {
    var p := Point(s.date, t[s].run, t[s].value);
    forall i | 0 <= i < |points| ensures points[i].date != s.date {
      assert points[i] in points;
      assert Slot(s.key, points[i].date) in slots;
    }
  }

  lemma AppendCollects(series: map<Key, seq<Point>>, t: Table, slots: set<Slot>, s: Slot)
    requires slots <= t.Keys && s in t && s !in slots && Collects(series, t, slots)
    ensures Collects(Append(series, t, s), t, slots + {s})
  {
    var series' := Append(series, t, s);
    var points := if s.key in series then series[s.key] else [];
    assert Holds(points, t, slots, s.key);
    AppendPoint(points, t, slots, s);
    forall k | k in series' && k != s.key ensures Holds(series'[k], t, slots + {s}, k) {
      assert Holds(series[k], t, slots, k);
    }
  }

  method Collect(t: Table) returns (series: map<Key, seq<Point>>)
    ensures Collects(series, t, t.Keys)
  {
    series := map[];
    var rest := t.Keys;
    while rest != {}
      invariant rest <= t.Keys && Collects(series, t, t.Keys - rest)
      decreases |rest|
    {
      var s :| s in rest;
      AppendCollects(series, t, t.Keys - rest, s);
      assert t.Keys - rest + {s} == t.Keys - (rest - {s});
      series := Append(series, t, s);
      rest := rest - {s};
    }
    assert t.Keys - {} == t.Keys;
  }

  // ----- The whole routine

  /** One strictly dated series per key that has data, with the surviving entry of each date. */
  ghost predicate IsSeriesOf(series: map<Key, seq<Point>>, records: seq<Record>) {
    && (forall s :: Latest(records, s).Some? ==> s.key in series)
    && (forall k :: k in series ==> series[k] != [] && Ascending(series[k]))
    && (forall k, p: Point :: k in series ==>
          (p in series[k] <==> Latest(records, Slot(k, p.date)) == Some(Entry(p.run, p.value))))
  }

  method BuildSeries(records: seq<Record>) returns (series: map<Key, seq<Point>>)
    ensures IsSeriesOf(series, records)
  {
    var t := Tabulate(records);
    var unsorted := Collect(t);
    series := map[];
    var rest := unsorted.Keys;
    while rest != {}
      invariant rest <= unsorted.Keys && series.Keys == unsorted.Keys - rest
      invariant forall k :: k in series ==> Ascending(series[k]) && forall q :: q in series[k] <==> q in unsorted[k]
      decreases |rest|
    {
      var k :| k in rest;
      var sorted := SortByDate(unsorted[k]);
      series := series[k := sorted];
      rest := rest - {k};
    }
    SortedSeries(series, unsorted, t, records);
  }

  lemma SortedSeries(series: map<Key, seq<Point>>, unsorted: map<Key, seq<Point>>, t: Table, records: seq<Record>)
    requires Tabulates(t, records) && Collects(unsorted, t, t.Keys) && series.Keys == unsorted.Keys
    requires forall k :: k in series ==> Ascending(series[k]) && forall q :: q in series[k] <==> q in unsorted[k]
    ensures IsSeriesOf(series, records)
  {
    forall s | Latest(records, s).Some? ensures s.key in series { assert Lookup(t, s).Some?; }
    forall k | k in series ensures series[k] != [] { assert unsorted[k][0] in series[k]; }
    forall k, p: Point | k in series
      ensures p in series[k] <==> Latest(records, Slot(k, p.date)) == Some(Entry(p.run, p.value))
    {
      assert Holds(unsorted[k], t, t.Keys, k);
      assert Lookup(t, Slot(k, p.date)) == Latest(records, Slot(k, p.date));
    }
  }
}
