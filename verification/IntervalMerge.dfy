/** The sort-and-merge of device intervals in `_profile_block` (benchmark/kernels/mhc/benchmark_mhc.py). */
module IntervalMerge {
  datatype Interval = Interval(begin: real, end: real)

  predicate WellFormed(s: seq<Interval>) {
    forall i :: 0 <= i < |s| ==> s[i].begin <= s[i].end
  }

  /** The point `x` of the time line lies in some interval, ends included. */
  predicate Covers(s: seq<Interval>, x: real) {
    exists i :: 0 <= i < |s| && s[i].begin <= x <= s[i].end
  }

  ghost predicate SameCover(s: seq<Interval>, t: seq<Interval>) {
    forall x :: Covers(s, x) <==> Covers(t, x)
  }

  /** In order and with a gap between any two. */
  predicate Separated(s: seq<Interval>) {
    WellFormed(s) && forall i, j :: 0 <= i < j < |s| ==> s[i].end < s[j].begin
  }

  function TotalLength(s: seq<Interval>): real {
    if s == [] then 0.0 else TotalLength(s[..|s| - 1]) + (s[|s| - 1].end - s[|s| - 1].begin)
  }

  // ----- Sorting

  predicate Before(a: Interval, b: Interval) {
    a.begin < b.begin || (a.begin == b.begin && a.end <= b.end)
  }

  predicate Sorted(s: seq<Interval>) {
    forall i, j :: 0 <= i < j < |s| ==> Before(s[i], s[j])
  }

  lemma InsertKept(s: seq<Interval>, v: Interval, k: nat)
    requires k <= |s| && Sorted(s)
    requires (forall i :: 0 <= i < k ==> Before(s[i], v)) && forall i :: k <= i < |s| ==> Before(v, s[i])
    ensures Sorted(s[..k] + [v] + s[k..])
  {
    var r := s[..k] + [v] + s[k..];
    forall i, j | 0 <= i < j < |r| ensures Before(r[i], r[j]) {
      assert r[i] == if i < k then s[i] else if i == k then v else s[i - 1];
      assert r[j] == if j < k then s[j] else if j == k then v else s[j - 1];
    }
  }

  method Sort(s: seq<Interval>) returns (r: seq<Interval>)
    ensures Sorted(r) && multiset(r) == multiset(s)
  {
    r := [];
    for n := 0 to |s|
      invariant Sorted(r) && multiset(r) == multiset(s[..n])
    {
      var k := |r|;
      while k > 0 && !Before(r[k - 1], s[n])
        invariant 0 <= k <= |r|
        invariant forall i :: k <= i < |r| ==> Before(s[n], r[i])
      {
        k := k - 1;
      }
      forall i | 0 <= i < k ensures Before(r[i], s[n]) {
        assert i == k - 1 || Before(r[i], r[k - 1]);
      }
      InsertKept(r, s[n], k);
      assert r == r[..k] + r[k..];
      assert s[..n + 1] == s[..n] + [s[n]];
      r := r[..k] + [s[n]] + r[k..];
    }
    assert s[..|s|] == s;
  }

  lemma PermutationCovers(s: seq<Interval>, r: seq<Interval>, x: real)
    requires multiset(s) == multiset(r) && Covers(s, x)
    ensures Covers(r, x)
  {
    var i :| 0 <= i < |s| && s[i].begin <= x <= s[i].end;
    assert s[i] in multiset(r);
    var j :| 0 <= j < |r| && r[j] == s[i];
  }

  // ----- Merging

  /** One step of the merge. */
  function Absorb(merged: seq<Interval>, v: Interval): seq<Interval> {
    if merged != [] && v.begin <= merged[|merged| - 1].end
    then
      var last := merged[|merged| - 1];
      merged[|merged| - 1 := Interval(last.begin, if last.end < v.end then v.end else last.end)]
    else merged + [v]
  }

  lemma AbsorbCovers(merged: seq<Interval>, v: Interval, x: real)
    requires merged == [] || merged[|merged| - 1].begin <= v.begin
    requires merged == [] || merged[|merged| - 1].begin <= merged[|merged| - 1].end
    ensures Covers(Absorb(merged, v), x) <==> Covers(merged, x) || v.begin <= x <= v.end
  {
    var r := Absorb(merged, v);
    if Covers(merged, x) {
      var i :| 0 <= i < |merged| && merged[i].begin <= x <= merged[i].end;
      assert r[i].begin <= x <= r[i].end;
    }
    if v.begin <= x <= v.end {
      assert r[|r| - 1].begin <= x <= r[|r| - 1].end;
    }
    if Covers(r, x) {
      var i :| 0 <= i < |r| && r[i].begin <= x <= r[i].end;
      if i < |merged| && merged[i] == r[i] { assert merged[i].begin <= x <= merged[i].end; }
      else if i < |merged| && x <= merged[i].end {
        assert merged[i].begin <= x <= merged[i].end;
      }
    }
  }

  // ----- The measure of the union

  predicate Ascending(grid: seq<real>) {
    forall i, j :: 0 <= i < j < |grid| ==> grid[i] < grid[j]
  }

  function Ends(s: seq<Interval>): set<real> {
    (set i | 0 <= i < |s| :: s[i].begin) + (set i | 0 <= i < |s| :: s[i].end)
  }

  /** Points in order, every end of an interval among them. */
  predicate Grid(s: seq<Interval>, grid: seq<real>) {
    Ascending(grid) && forall x :: x in Ends(s) ==> x in grid
  }

  function Middle(x: real, y: real): real {
    (x + y) / 2.0
  }

  /** The length of the grid's cells whose middle is covered. */
  function Measure(s: seq<Interval>, grid: seq<real>): real {
    var n := |grid| - 1;
    if n <= 0 then 0.0
    else Measure(s, grid[..n]) + if Covers(s, Middle(grid[n - 1], grid[n])) then grid[n] - grid[n - 1] else 0.0
  }

  lemma CoversOne(v: Interval, x: real)
    ensures Covers([v], x) <==> v.begin <= x <= v.end
  {
    if v.begin <= x <= v.end { assert [v][0].begin <= x <= [v][0].end; }
  }

  lemma GridFront(grid: seq<real>, x: real)
    requires Ascending(grid) && grid != []
    ensures Ascending(grid[..|grid| - 1]) && (x in grid <==> x in grid[..|grid| - 1] || x == grid[|grid| - 1])
    ensures x in grid[..|grid| - 1] ==> |grid| > 1 && x <= grid[|grid| - 2]
  {
    assert grid == grid[..|grid| - 1] + [grid[|grid| - 1]];
  }

  /** The measured part of one interval, up to the last point of the grid. */
  lemma {:induction false} MeasureOfOne(v: Interval, grid: seq<real>)
    requires Ascending(grid) && grid != [] && v.begin <= v.end
    ensures var x, m := grid[|grid| - 1], Measure([v], grid);
      && (x <= v.begin ==> m == 0.0)
      && (v.begin in grid && v.begin <= x <= v.end ==> m == x - v.begin)
      && (v.begin in grid && v.end in grid && v.end <= x ==> m == v.end - v.begin)
  {
    GridFront(grid, v.begin);
    GridFront(grid, v.end);
    if |grid| > 1 {
      MeasureOfOne(v, grid[..|grid| - 1]);
      CoversOne(v, Middle(grid[|grid| - 2], grid[|grid| - 1]));
    }
  }

  lemma IntervalMeasure(v: Interval, grid: seq<real>)
    requires Grid([v], grid) && v.begin <= v.end
    ensures Measure([v], grid) == v.end - v.begin
  {
    assert [v][0] == v;
    assert v.begin in Ends([v]) && v.end in Ends([v]);
    MeasureOfOne(v, grid);
    var i :| 0 <= i < |grid| && grid[i] == v.end;
  }

  predicate Apart(s: seq<Interval>, v: Interval) {
    forall i :: 0 <= i < |s| ==> s[i].end < v.begin
  }

  /** The union of two parts is at most their sum, and exactly the sum when they are apart. */
  lemma {:induction false} MeasureOfUnion(s: seq<Interval>, v: Interval, grid: seq<real>)
    requires Ascending(grid)
    ensures Measure(s + [v], grid) <= Measure(s, grid) + Measure([v], grid)
    ensures Apart(s, v) ==> Measure(s + [v], grid) == Measure(s, grid) + Measure([v], grid)
  {
    var n := |grid| - 1;
    if n > 0 {
      MeasureOfUnion(s, v, grid[..n]);
      CoversNext(s, v, Middle(grid[n - 1], grid[n]));
      CoversOne(v, Middle(grid[n - 1], grid[n]));
    }
  }

  lemma {:induction false} SameCoverSameMeasure(s: seq<Interval>, t: seq<Interval>, grid: seq<real>)
    requires SameCover(s, t)
    ensures Measure(s, grid) == Measure(t, grid)
  {
    if |grid| > 1 { SameCoverSameMeasure(s, t, grid[..|grid| - 1]); }
  }

  lemma GridOfParts(s: seq<Interval>, v: Interval, grid: seq<real>)
    requires Grid(s + [v], grid)
    ensures Grid(s, grid) && Grid([v], grid)
  {
    var r := s + [v];
    assert r[|s|] == v;
    forall x | x in Ends(s) ensures x in Ends(r) {
      var i :| 0 <= i < |s| && (s[i].begin == x || s[i].end == x);
      assert r[i] == s[i];
    }
  }

  /** The union is never larger than the lengths together. */
  lemma {:induction false} UnionAtMostSum(s: seq<Interval>, grid: seq<real>)
    requires WellFormed(s) && Grid(s, grid)
    ensures Measure(s, grid) <= TotalLength(s)
  {
    if s == [] {
      NothingMeasured(grid);
    } else {
      var front, v := s[..|s| - 1], s[|s| - 1];
      assert s == front + [v];
      GridOfParts(front, v, grid);
      UnionAtMostSum(front, grid);
      IntervalMeasure(v, grid);
      MeasureOfUnion(front, v, grid);
    }
  }

  /** For separated intervals it is exactly as large. */
  lemma {:induction false} SeparatedMeasure(s: seq<Interval>, grid: seq<real>)
    requires Separated(s) && Grid(s, grid)
    ensures Measure(s, grid) == TotalLength(s)
  {
    if s == [] {
      NothingMeasured(grid);
    } else {
      var front, v := s[..|s| - 1], s[|s| - 1];
      assert s == front + [v];
      GridOfParts(front, v, grid);
      SeparatedMeasure(front, grid);
      IntervalMeasure(v, grid);
      MeasureOfUnion(front, v, grid);
    }
  }

  lemma {:induction false} NothingMeasured(grid: seq<real>)
    ensures Measure([], grid) == 0.0
  {
    if |grid| > 1 { NothingMeasured(grid[..|grid| - 1]); }
  }

  lemma InsertPoint(grid: seq<real>, x: real) returns (r: seq<real>)
    requires Ascending(grid)
    ensures Ascending(r) && forall y :: y in r <==> y in grid || y == x
  {
    if x in grid {
      r := grid;
    } else {
      var k := PlaceOf(grid, x);
      r := grid[..k] + [x] + grid[k..];
      assert grid == grid[..k] + grid[k..];
    }
  }

  lemma {:induction false} PlaceOf(grid: seq<real>, x: real) returns (k: nat)
    requires Ascending(grid) && x !in grid
    ensures k <= |grid| && (forall i :: 0 <= i < k ==> grid[i] < x) && forall i :: k <= i < |grid| ==> x < grid[i]
  {
    k := |grid|;
    if grid != [] && x < grid[|grid| - 1] {
      k := PlaceOf(grid[..|grid| - 1], x);
      assert forall i :: 0 <= i < |grid| - 1 ==> grid[i] == grid[..|grid| - 1][i];
    }
  }

  lemma {:induction false} PointsInOrder(points: set<real>) returns (grid: seq<real>)
    ensures Ascending(grid) && forall y :: y in grid <==> y in points
    decreases |points|
  {
    grid := [];
    if x :| x in points {
      var rest := PointsInOrder(points - {x});
      grid := InsertPoint(rest, x);
    }
  }

  /** Every list of intervals has a grid. */
  lemma GridExists(s: seq<Interval>) returns (grid: seq<real>)
    ensures Grid(s, grid)
  {
    grid := PointsInOrder(Ends(s));
  }

  /**
    The merge: ordered, strictly separated, covering exactly the points the input covers, and with
    a summed length that is the measure of the union, on whatever grid it is taken, and at most the
    sum of the inputs.
  */
  method Merge(intervals: seq<Interval>) returns (merged: seq<Interval>)
    requires WellFormed(intervals)
    ensures Separated(merged) && SameCover(merged, intervals)
    ensures forall grid :: Grid(intervals, grid) ==> TotalLength(merged) == Measure(intervals, grid)
    ensures TotalLength(merged) <= TotalLength(intervals)
  {
    var sorted := Sort(intervals);
    forall i | 0 <= i < |sorted| ensures sorted[i].begin <= sorted[i].end {
      assert sorted[i] in multiset(intervals);
    }
    merged := [];
    for n := 0 to |sorted|
      invariant Separated(merged) && SameCover(merged, sorted[..n])
      invariant merged != [] ==> forall i :: n <= i < |sorted| ==> merged[|merged| - 1].begin <= sorted[i].begin
      invariant Ends(merged) <= Ends(sorted)
    {
      AbsorbEnds(merged, sorted, n);
      MergeNext(merged, sorted, n);
      merged := Absorb(merged, sorted[n]);
    }
    assert sorted[..|sorted|] == sorted;
    SortKeepsCover(merged, sorted, intervals);
    SortKeepsEnds(sorted, intervals);
    forall grid | Grid(intervals, grid) ensures TotalLength(merged) == Measure(intervals, grid) {
      MergedMeasure(merged, intervals, grid);
    }
    ghost var grid := GridExists(intervals);
    UnionAtMostSum(intervals, grid);
  }

  /** Merging invents no ends. */
  lemma AbsorbEnds(merged: seq<Interval>, sorted: seq<Interval>, n: nat)
    requires n < |sorted| && Ends(merged) <= Ends(sorted)
    ensures Ends(Absorb(merged, sorted[n])) <= Ends(sorted)
  {
    var r := Absorb(merged, sorted[n]);
    forall i | 0 <= i < |r| ensures r[i].begin in Ends(sorted) && r[i].end in Ends(sorted) {
      if i < |merged| { assert merged[i].begin in Ends(merged) && merged[i].end in Ends(merged); }
    }
  }

  lemma SortKeepsEnds(sorted: seq<Interval>, intervals: seq<Interval>)
    requires multiset(sorted) == multiset(intervals)
    ensures Ends(sorted) <= Ends(intervals)
  {
    forall i | 0 <= i < |sorted| ensures sorted[i].begin in Ends(intervals) && sorted[i].end in Ends(intervals) {
      assert sorted[i] in multiset(intervals);
      var j :| 0 <= j < |intervals| && intervals[j] == sorted[i];
    }
  }

  lemma MergedMeasure(merged: seq<Interval>, intervals: seq<Interval>, grid: seq<real>)
    requires Separated(merged) && SameCover(merged, intervals) && Ends(merged) <= Ends(intervals)
    requires Grid(intervals, grid)
    ensures TotalLength(merged) == Measure(intervals, grid)
  {
    SeparatedMeasure(merged, grid);
    SameCoverSameMeasure(merged, intervals, grid);
  }

  lemma SortKeepsCover(merged: seq<Interval>, sorted: seq<Interval>, intervals: seq<Interval>)
    requires SameCover(merged, sorted) && multiset(sorted) == multiset(intervals)
    ensures SameCover(merged, intervals)
  {
    forall x ensures Covers(merged, x) <==> Covers(intervals, x) {
      assert Covers(merged, x) <==> Covers(sorted, x);
      if Covers(sorted, x) { PermutationCovers(sorted, intervals, x); }
      if Covers(intervals, x) { PermutationCovers(intervals, sorted, x); }
    }
  }

  lemma CoversNext(s: seq<Interval>, v: Interval, x: real)
    ensures Covers(s + [v], x) <==> Covers(s, x) || v.begin <= x <= v.end
  {
    var r := s + [v];
    if Covers(s, x) {
      var i :| 0 <= i < |s| && s[i].begin <= x <= s[i].end;
      assert r[i] == s[i];
    }
    assert r[|s|] == v;
  }

  lemma MergeNext(merged: seq<Interval>, sorted: seq<Interval>, n: nat)
    requires n < |sorted| && Sorted(sorted) && WellFormed(sorted)
    requires Separated(merged) && SameCover(merged, sorted[..n])
    requires merged != [] ==> forall i :: n <= i < |sorted| ==> merged[|merged| - 1].begin <= sorted[i].begin
    ensures Separated(Absorb(merged, sorted[n])) && SameCover(Absorb(merged, sorted[n]), sorted[..n + 1])
    ensures var r := Absorb(merged, sorted[n]);
      forall i :: n + 1 <= i < |sorted| ==> r[|r| - 1].begin <= sorted[i].begin
  {
    assert sorted[..n + 1] == sorted[..n] + [sorted[n]];
    forall x ensures Covers(Absorb(merged, sorted[n]), x) <==> Covers(sorted[..n + 1], x) {
      AbsorbCovers(merged, sorted[n], x);
      CoversNext(sorted[..n], sorted[n], x);
    }
    forall i | n + 1 <= i < |sorted| ensures sorted[n].begin <= sorted[i].begin {
      assert Before(sorted[n], sorted[i]);
    }
  }

  // ----- The merged list is the only one of its kind

  lemma FirstBegins(a: seq<Interval>, b: seq<Interval>)
    requires Separated(a) && Separated(b) && SameCover(a, b) && a != []
    ensures b != [] && b[0].begin <= a[0].begin
  {
    assert Covers(a, a[0].begin);
    assert Covers(b, a[0].begin);
    var j :| 0 <= j < |b| && b[j].begin <= a[0].begin <= b[j].end;
    if j > 0 { assert b[0].end < b[j].begin; }
  }

  /** Between two separated intervals, and behind the last, there are uncovered points. */
  lemma GapUncovered(a: seq<Interval>, x: real)
    requires Separated(a) && a != [] && a[0].end < x && (|a| > 1 ==> x < a[1].begin)
    ensures !Covers(a, x)
  {
    forall i | 0 <= i < |a| ensures !(a[i].begin <= x <= a[i].end) {
      if i > 1 { assert a[1].begin <= a[1].end < a[i].begin; }
    }
  }

  lemma FirstEnds(a: seq<Interval>, b: seq<Interval>)
    requires Separated(a) && Separated(b) && SameCover(a, b) && a != [] && b != [] && a[0].begin == b[0].begin
    ensures b[0].end <= a[0].end
  {
    if a[0].end < b[0].end {
      var limit := if |a| > 1 && a[1].begin < b[0].end then a[1].begin else b[0].end;
      var x := (a[0].end + limit) / 2.0;
      assert b[0].begin <= x <= b[0].end;
      assert Covers(b, x);
      GapUncovered(a, x);
    }
  }

  lemma RestCovered(a: seq<Interval>, x: real)
    requires Separated(a) && a != []
    ensures Covers(a[1..], x) <==> Covers(a, x) && a[0].end < x
  {
    if Covers(a[1..], x) {
      var i :| 0 <= i < |a| - 1 && a[1..][i].begin <= x <= a[1..][i].end;
      assert a[i + 1] == a[1..][i];
      assert a[0].end < a[i + 1].begin;
    }
    if Covers(a, x) && a[0].end < x {
      var i :| 0 <= i < |a| && a[i].begin <= x <= a[i].end;
      assert a[1..][i - 1] == a[i];
    }
  }

  lemma RestsAgree(a: seq<Interval>, b: seq<Interval>)
    requires Separated(a) && Separated(b) && SameCover(a, b) && a != [] && b != [] && a[0] == b[0]
    ensures Separated(a[1..]) && Separated(b[1..]) && SameCover(a[1..], b[1..])
  {
    forall x ensures Covers(a[1..], x) <==> Covers(b[1..], x) {
      RestCovered(a, x);
      RestCovered(b, x);
    }
  }

  /** Separated lists with the same cover are equal: neither the input's order nor its overlaps matter. */
  lemma {:induction false} SeparatedUnique(a: seq<Interval>, b: seq<Interval>)
    requires Separated(a) && Separated(b) && SameCover(a, b)
    ensures a == b
  {
    if a != [] { FirstBegins(a, b); }
    if b != [] {
      FirstBegins(b, a);
      FirstEnds(a, b);
      FirstEnds(b, a);
      RestsAgree(a, b);
      SeparatedUnique(a[1..], b[1..]);
      assert a == [a[0]] + a[1..] && b == [b[0]] + b[1..];
    }
  }
}
