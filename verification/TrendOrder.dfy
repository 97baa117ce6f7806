/** When the built series depend on the order in which the records were read, and when not. */
module TrendOrder {
  import opened Common
  import opened TrendDrift
  import opened TrendSeries

  // ----- The surviving entry is the first one with the largest run id

  /** Record `i` offers the largest run id for the slot, and no earlier record offers it. */
  ghost predicate Wins(records: seq<Record>, s: Slot, i: int) {
    && 0 <= i < |records| && Offer(records[i], s).Some?
    && (forall j :: 0 <= j < |records| && Offer(records[j], s).Some? ==>
          Number(Offer(records[j], s).value.run) <= Number(Offer(records[i], s).value.run))
    && (forall j :: 0 <= j < i && Offer(records[j], s).Some? ==>
          Number(Offer(records[j], s).value.run) < Number(Offer(records[i], s).value.run))
  }

  lemma {:induction false} LatestWins(records: seq<Record>, s: Slot) returns (i: int)
    ensures Latest(records, s).None? ==> forall j :: 0 <= j < |records| ==> Offer(records[j], s).None?
    ensures Latest(records, s).Some? ==> Wins(records, s, i) && Latest(records, s) == Offer(records[i], s)
  {
    i := 0;
    if records != [] {
      var front, n := records[..|records| - 1], |records| - 1;
      i := LatestWins(front, s);
      assert forall j :: 0 <= j < n ==> front[j] == records[j];
      var last := Offer(records[n], s);
      if last.Some? && (Latest(front, s).None? || Number(last.value.run) > Number(Latest(front, s).value.run)) {
        i := n;
      }
    }
  }

  lemma WinnerUnique(records: seq<Record>, s: Slot, i: int, j: int)
    requires Wins(records, s, i) && Wins(records, s, j)
    ensures i == j
  {
  }

  /** Whoever wins decides the entry. */
  lemma WinnerIsLatest(records: seq<Record>, s: Slot, i: int)
    requires Wins(records, s, i)
    ensures Latest(records, s) == Offer(records[i], s)
  {
    var j := LatestWins(records, s);
    WinnerUnique(records, s, i, j);
  }

  // ----- The series are determined by the surviving entries

  lemma FrontMember(a: seq<Point>, p: Point)
    requires Ascending(a) && a != []
    ensures p in a[..|a| - 1] <==> p in a && p != a[|a| - 1]
  {
    assert a == a[..|a| - 1] + [a[|a| - 1]];
  }

  lemma {:induction false} AscendingUnique(a: seq<Point>, b: seq<Point>)
    requires Ascending(a) && Ascending(b) && forall p :: p in a <==> p in b
    ensures a == b
  {
    assert a != [] ==> a[0] in a;
    assert b != [] ==> b[0] in b;
    if a != [] && b != [] {
      var m, n := |a| - 1, |b| - 1;
      assert a[m] in b && b[n] in a;
      assert a[m] == b[n];
      forall p ensures p in a[..m] <==> p in b[..n] {
        FrontMember(a, p);
        FrontMember(b, p);
      }
      AscendingUnique(a[..m], b[..n]);
      assert a == a[..m] + [a[m]] && b == b[..n] + [b[n]];
    }
  }

  ghost predicate SameEntries(r: seq<Record>, q: seq<Record>) {
    forall s :: Latest(r, s) == Latest(q, s)
  }

  lemma SameEntriesSameSeries(a: map<Key, seq<Point>>, b: map<Key, seq<Point>>, r: seq<Record>, q: seq<Record>)
    requires IsSeriesOf(a, r) && IsSeriesOf(b, q) && SameEntries(r, q)
    ensures a == b
  {
    SameKeys(a, b, r, q);
    SameKeys(b, a, q, r);
    forall k | k in a ensures a[k] == b[k] {
      forall p: Point ensures p in a[k] <==> p in b[k] {
        assert Latest(r, Slot(k, p.date)) == Latest(q, Slot(k, p.date));
      }
      AscendingUnique(a[k], b[k]);
    }
  }

  /** Two builds agree exactly when every slot has the same surviving entry. */
  lemma SeriesDetermined(a: map<Key, seq<Point>>, b: map<Key, seq<Point>>, r: seq<Record>, q: seq<Record>)
    requires IsSeriesOf(a, r) && IsSeriesOf(b, q)
    ensures a == b <==> SameEntries(r, q)
  {
    if a == b {
      forall s ensures Latest(r, s) == Latest(q, s) { EntryFromSeries(a, r, q, s); }
    }
    if SameEntries(r, q) { SameEntriesSameSeries(a, b, r, q); }
  }

  lemma SameKeys(a: map<Key, seq<Point>>, b: map<Key, seq<Point>>, r: seq<Record>, q: seq<Record>)
    requires IsSeriesOf(a, r) && IsSeriesOf(b, q) && SameEntries(r, q)
    ensures a.Keys <= b.Keys
  {
    forall k | k in a ensures k in b {
      var p := a[k][0];
      assert p in a[k];
      assert Latest(q, Slot(k, p.date)).Some?;
    }
  }

  lemma EntryFromSeries(a: map<Key, seq<Point>>, r: seq<Record>, q: seq<Record>, s: Slot)
    requires IsSeriesOf(a, r) && IsSeriesOf(a, q)
    ensures Latest(r, s) == Latest(q, s)
  {
    assert Slot(s.key, s.date) == s;
    if Latest(r, s).Some? {
      var e := Latest(r, s).value;
      assert Point(s.date, e.run, e.value) in a[s.key];
    }
    if Latest(q, s).Some? {
      var e := Latest(q, s).value;
      assert Point(s.date, e.run, e.value) in a[s.key];
    }
  }

  // ----- Order independence

  /** Record `i` offers the largest run id for the slot, perhaps not alone. */
  ghost predicate OffersLargest(records: seq<Record>, s: Slot, i: int) {
    && 0 <= i < |records| && Offer(records[i], s).Some?
    && forall j :: 0 <= j < |records| && Offer(records[j], s).Some? ==>
         Number(Offer(records[j], s).value.run) <= Number(Offer(records[i], s).value.run)
  }

  /** Any two records that offer a slot's largest run id offer the same entry. */
  ghost predicate TiesAgree(records: seq<Record>) {
    forall s, i, j :: OffersLargest(records, s, i) && OffersLargest(records, s, j) ==>
      Offer(records[i], s) == Offer(records[j], s)
  }

  lemma PermutedLatest(records: seq<Record>, other: seq<Record>, s: Slot)
    requires multiset(records) == multiset(other) && TiesAgree(records)
    ensures Latest(records, s) == Latest(other, s)
  {
    var i := LatestWins(records, s);
    var j := LatestWins(other, s);
    if Latest(other, s).Some? {
      assert other[j] in multiset(records);
      var j' :| 0 <= j' < |records| && records[j'] == other[j];
      assert Latest(records, s).Some?;
      forall k | 0 <= k < |records| && Offer(records[k], s).Some?
        ensures Number(Offer(records[k], s).value.run) <= Number(Offer(records[j'], s).value.run)
      {
        assert records[k] in multiset(other);
        var k' :| 0 <= k' < |other| && other[k'] == records[k];
      }
      assert OffersLargest(records, s, i) && OffersLargest(records, s, j');
    } else {
      forall i' | 0 <= i' < |records| ensures Offer(records[i'], s).None? {
        assert records[i'] in multiset(other);
      }
    }
  }

  lemma PermutedEntries(records: seq<Record>, other: seq<Record>)
    requires multiset(records) == multiset(other) && TiesAgree(records)
    ensures SameEntries(records, other)
  {
    forall s ensures Latest(records, s) == Latest(other, s) { PermutedLatest(records, other, s); }
  }

  function Swap(records: seq<Record>, i: nat, j: nat): (r: seq<Record>)
    requires i < |records| && j < |records|
    ensures |r| == |records| && multiset(r) == multiset(records)
  {
    records[i := records[j]][j := records[i]]
  }

  /** Moving a tied record to the front of the tie makes it the survivor. */
  lemma SwapWins(records: seq<Record>, s: Slot, i: nat, j: nat)
    requires Wins(records, s, i) && j < |records| && Offer(records[j], s).Some?
    requires Number(Offer(records[j], s).value.run) == Number(Offer(records[i], s).value.run)
    ensures Latest(Swap(records, i, j), s) == Offer(records[j], s)
  {
    WinnerIsLatest(Swap(records, i, j), s, i);
  }

  /** Every order of the records gives the same entries if and only if ties agree. */
  lemma OrderIndependentIffTiesAgree(records: seq<Record>)
    ensures TiesAgree(records) <==>
      forall other: seq<Record> :: multiset(other) == multiset(records) ==> SameEntries(records, other)
  {
    if TiesAgree(records) {
      forall other: seq<Record> | multiset(other) == multiset(records) ensures SameEntries(records, other) {
        PermutedEntries(records, other);
      }
    } else {
      var s, i', j' :| OffersLargest(records, s, i') && OffersLargest(records, s, j')
        && Offer(records[i'], s) != Offer(records[j'], s);
      var i := LatestWins(records, s);
      var j := if Offer(records[i'], s) == Offer(records[i], s) then j' else i';
      SwapWins(records, s, i, j);
      assert !SameEntries(records, Swap(records, i, j));
    }
  }

  function ScoreRecord(runId: string, score: real): Record {
    Record("case", None, 0, runId, map[AccuracyScore := score], true)
  }

  /** Of two scores of one date with the same run id the first one read survives. */
  lemma FirstOfTie(first: Record, second: Record, runId: string, runId': string, x: real, y: real)
    requires first == ScoreRecord(runId, x) && second == ScoreRecord(runId', y)
    requires IsNumber(runId) && IsNumber(runId') && Number(runId) == Number(runId')
    ensures Latest([first, second], Slot(Key("case", None, AccuracyScore), 0)) == Some(Entry(runId, x))
  {
    WinnerIsLatest([first, second], Slot(Key("case", None, AccuracyScore), 0), 0);
  }

  /** Swapping two results of one night whose run ids spell the same number changes the series. */
  lemma TieDependsOnOrder(a: map<Key, seq<Point>>, b: map<Key, seq<Point>>)
    requires IsSeriesOf(a, [ScoreRecord("7", 0.5), ScoreRecord("07", 0.9)])
    requires IsSeriesOf(b, [ScoreRecord("07", 0.9), ScoreRecord("7", 0.5)])
    ensures var k := Key("case", None, AccuracyScore);
      && k in a && Point(0, "7", 0.5) in a[k]
      && k in b && Point(0, "07", 0.9) in b[k]
      && a != b
  {
    var r, q := ScoreRecord("7", 0.5), ScoreRecord("07", 0.9);
    assert Number("7") == 7 && Number("07") == 7 by { assert "07"[..1] == "0" && "0"[..0] == "" && "7"[..0] == ""; }
    FirstOfTie(r, q, "7", "07", 0.5, 0.9);
    FirstOfTie(q, r, "07", "7", 0.9, 0.5);
    SeriesDetermined(a, b, [r, q], [q, r]);
  }

  /** No two records share key, date and run id. */
  ghost predicate NoClash(records: seq<Record>) {
    forall s, i, j :: 0 <= i < j < |records| && Offer(records[i], s).Some? && Offer(records[j], s).Some?
      ==> Number(Offer(records[i], s).value.run) != Number(Offer(records[j], s).value.run)
  }

  /** Distinct run ids make the result independent of the order: any two builds are equal. */
  lemma DistinctRunsBuildOneSeries(
    records: seq<Record>, other: seq<Record>, a: map<Key, seq<Point>>, b: map<Key, seq<Point>>)
    requires NoClash(records) && multiset(records) == multiset(other)
    requires IsSeriesOf(a, records) && IsSeriesOf(b, other)
    ensures a == b
  {
    forall s, i, j | OffersLargest(records, s, i) && OffersLargest(records, s, j)
      ensures Offer(records[i], s) == Offer(records[j], s)
    {
      assert i == j;
    }
    PermutedEntries(records, other);
    SeriesDetermined(a, b, records, other);
  }

  /** A valid result whose run id is made of digits. */
  predicate Numbered(r: Record) {
    r.valid && |r.runId| > 0 && forall i :: 0 <= i < |r.runId| ==> '0' <= r.runId[i] <= '9'
  }

  /** Every point of a series is the first record with the largest run id for its date. */
  lemma SeriesKeepsLargestRun(series: map<Key, seq<Point>>, records: seq<Record>, k: Key, p: Point) returns (i: int)
    requires IsSeriesOf(series, records) && k in series && p in series[k]
    ensures Wins(records, Slot(k, p.date), i) && Numbered(records[i]) && k.metric in records[i].metrics
    ensures k.config == records[i].config && k.point == records[i].point
    ensures p == Point(records[i].date, records[i].runId, records[i].metrics[k.metric])
  {
    i := LatestWins(records, Slot(k, p.date));
  }

  // ----- Which records count

  lemma LatestNext(records: seq<Record>, r: Record, s: Slot)
    ensures Latest(records + [r], s) == Newer(Latest(records, s), Offer(r, s))
  {
    assert (records + [r])[..|records|] == records;
  }

  lemma LastApart<T>(a: seq<T>, more: seq<T>)
    requires more != []
    ensures a + more == a + more[..|more| - 1] + [more[|more| - 1]]
  {
  }

  /** Once two readings have come to the same entry, they keep to it. */
  lemma {:induction false} SameAfter(a: seq<Record>, b: seq<Record>, more: seq<Record>, s: Slot)
    requires Latest(a, s) == Latest(b, s)
    ensures Latest(a + more, s) == Latest(b + more, s)
  {
    if more == [] {
      assert a + more == a && b + more == b;
    } else {
      var front, last := more[..|more| - 1], more[|more| - 1];
      SameAfter(a, b, front, s);
      LastApart(a, more);
      LastApart(b, more);
      LatestNext(a + front, last, s);
      LatestNext(b + front, last, s);
    }
  }

  /** A record that is not valid, or whose run id is no number, makes no difference wherever it stands. */
  lemma OthersAreSkipped(
    records: seq<Record>, r: Record, more: seq<Record>, a: map<Key, seq<Point>>, b: map<Key, seq<Point>>)
    requires !Numbered(r) && IsSeriesOf(a, records + more) && IsSeriesOf(b, records + [r] + more)
    ensures a == b
  {
    forall s ensures Latest(records + more, s) == Latest(records + [r] + more, s) {
      LatestNext(records, r, s);
      assert Offer(r, s).None?;
      SameAfter(records, records + [r], more, s);
    }
    SeriesDetermined(a, b, records + more, records + [r] + more);
  }

  /** Every other record is there with each of its values, or something with as large a run id is. */
  lemma EveryResultIsSeen(series: map<Key, seq<Point>>, records: seq<Record>, i: nat, metric: Metric) returns (p: Point)
    requires IsSeriesOf(series, records) && i < |records| && Numbered(records[i]) && metric in records[i].metrics
    ensures var r := records[i]; var k := Key(r.config, r.point, metric);
      k in series && p in series[k] && p.date == r.date && Number(p.run) >= Number(r.runId)
  {
    var r := records[i];
    var s := Slot(Key(r.config, r.point, metric), r.date);
    var j := LatestWins(records, s);
    assert Offer(records[i], s) == Some(Entry(r.runId, r.metrics[metric]));
    var e := Latest(records, s).value;
    p := Point(r.date, e.run, e.value);
  }
}
