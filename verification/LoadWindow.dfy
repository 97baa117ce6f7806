/** The measurement window of scripts/disaggregation/pd_overlap_benchmark.py. */
module LoadWindow {

  /** The observed tokens and their distribution over the seconds of the window. */
  datatype Tally = Tally(tokens: int, bins: map<int, int>)

  datatype Span = Span(start: real, end: real)

  datatype Observation = Observation(at: real, delta: int)

  predicate Inside(w: Span, at: real) {
    w.start <= at < w.end
  }

  function Second(w: Span, at: real): int {
    (at - w.start).Floor
  }

  function Get(bins: map<int, int>, k: int): int {
    if k in bins then bins[k] else 0
  }

  /** The state after an observation that is not rejected. */
  function Observed(w: Span, t: Tally, o: Observation): Tally {
    if Inside(w, o.at)
    then var k := Second(w, o.at); Tally(t.tokens + o.delta, t.bins[k := Get(t.bins, k) + o.delta])
    else t
  }

  class Window {
    const span: Span
    var tokens: int
    var bins: map<int, int>

    function State(): Tally
      reads this
    {
      Tally(tokens, bins)
    }

    constructor (start: real, end: real)
      ensures span == Span(start, end) && State() == Tally(0, map[])
    {
      span, tokens, bins := Span(start, end), 0, map[];
    }

    /** Rejects a decreasing count, and leaves the window alone when it does. */
    method Observe(at: real, delta: int) returns (ok: bool)
      modifies this
      ensures ok <==> delta >= 0
      ensures State() == if ok then Observed(span, old(State()), Observation(at, delta)) else old(State())
    {
      if delta < 0 { return false; }
      if span.start <= at && at < span.end {
        tokens := tokens + delta;
        var second := (at - span.start).Floor;
        bins := bins[second := Get(bins, second) + delta];
      }
      return true;
    }
  }

  // ----- What the window holds after a run of observations

  function Tallied(w: Span, log: seq<Observation>): Tally {
    if log == [] then Tally(0, map[]) else Observed(w, Tallied(w, log[..|log| - 1]), log[|log| - 1])
  }

  /** The sum of the deltas observed inside the window. */
  function InsideSum(w: Span, log: seq<Observation>): int {
    if log == [] then 0
    else InsideSum(w, log[..|log| - 1]) + if Inside(w, log[|log| - 1].at) then log[|log| - 1].delta else 0
  }

  function SumTo(bins: map<int, int>, n: nat): int {
    if n == 0 then 0 else SumTo(bins, n - 1) + Get(bins, n - 1)
  }

  lemma {:induction false} SumToUpdate(bins: map<int, int>, k: int, x: int, n: nat)
    ensures SumTo(bins[k := x], n) == SumTo(bins, n) + if 0 <= k < n then x - Get(bins, k) else 0
  {
    if n > 0 { SumToUpdate(bins, k, x, n - 1); }
  }

  lemma SecondInRange(w: Span, at: real)
    requires Inside(w, at)
    ensures 0 <= Second(w, at) <= (w.end - w.start).Floor
    ensures (w.end - w.start).Floor as real == w.end - w.start ==> Second(w, at) < (w.end - w.start).Floor
  {
  }

  /**
    The window's total is the sum of the deltas observed inside it and the sum of its bins, one
    bin for every second that has begun before the end.
  */
  lemma {:induction false} TotalsAgree(w: Span, log: seq<Observation>)
    requires w.start <= w.end
    ensures var t := Tallied(w, log);
      && t.tokens == InsideSum(w, log) == SumTo(t.bins, (w.end - w.start).Floor + 1)
      && forall k :: k in t.bins ==> exists i :: 0 <= i < |log| && Inside(w, log[i].at) && Second(w, log[i].at) == k
  {
    if log != [] {
      var front, o := log[..|log| - 1], log[|log| - 1];
      TotalsAgree(w, front);
      var t := Tallied(w, front);
      if Inside(w, o.at) {
        SecondInRange(w, o.at);
        SumToUpdate(t.bins, Second(w, o.at), Get(t.bins, Second(w, o.at)) + o.delta, (w.end - w.start).Floor + 1);
      }
      forall k | k in Tallied(w, log).bins
        ensures exists i :: 0 <= i < |log| && Inside(w, log[i].at) && Second(w, log[i].at) == k
      {
        if k in t.bins {
          var i :| 0 <= i < |front| && Inside(w, front[i].at) && Second(w, front[i].at) == k;
          assert log[i] == front[i];
        } else {
          assert Second(w, log[|log| - 1].at) == k;
        }
      }
    } else {
      EmptyBins((w.end - w.start).Floor + 1);
    }
  }

  lemma {:induction false} EmptyBins(n: nat)
    ensures SumTo(map[], n) == 0
  {
    if n > 0 { EmptyBins(n - 1); }
  }

  /** The sum of the deltas observed in [lo, hi). */
  function Between(log: seq<Observation>, lo: real, hi: real): int {
    if log == [] then 0
    else
      var o := log[|log| - 1];
      Between(log[..|log| - 1], lo, hi) + if lo <= o.at < hi then o.delta else 0
  }

  /** Every bin holds what was observed in its second, up to the end of the window. */
  lemma {:induction false} BinIsSecond(w: Span, log: seq<Observation>, k: nat)
    requires w.start <= w.end
    ensures Get(Tallied(w, log).bins, k) == Between(log, w.start + k as real, Earlier(w.start + (k + 1) as real, w.end))
  {
    if log != [] {
      BinIsSecond(w, log[..|log| - 1], k);
    }
  }

  function Earlier(x: real, y: real): real {
    if x < y then x else y
  }

  /**
    The report lists one number per whole second of the duration. What it omits is what was observed
    in the last, partial second, so the numbers add up to the total exactly when that comes to
    nothing, and for a whole duration they always do.
  */
  lemma ReportedSecondsAddUp(w: Span, log: seq<Observation>)
    requires w.start <= w.end
    ensures var t, d := Tallied(w, log), (w.end - w.start).Floor;
      var omitted := Between(log, w.start + d as real, w.end);
      && SumTo(t.bins, d) == t.tokens - omitted
      && (SumTo(t.bins, d) == t.tokens <==> omitted == 0)
      && (d as real == w.end - w.start ==> omitted == 0)
  {
    TotalsAgree(w, log);
    BinIsSecond(w, log, (w.end - w.start).Floor);
    if (w.end - w.start).Floor as real == w.end - w.start { NothingBetween(log, w.end); }
  }

  lemma {:induction false} NothingBetween(log: seq<Observation>, at: real)
    ensures Between(log, at, at) == 0
  {
    if log != [] { NothingBetween(log[..|log| - 1], at); }
  }

  /** Seven tokens, five of them in the last half second: the report of one second shows two. */
  lemma PartialSecondIsOmitted()
    ensures var w, log := Span(0.0, 1.5), [Observation(0.5, 2), Observation(1.25, 5)];
      Tallied(w, log).tokens == 7 && SumTo(Tallied(w, log).bins, 1) == 2
  {
    var w, log := Span(0.0, 1.5), [Observation(0.5, 2), Observation(1.25, 5)];
    assert log[..1] == [log[0]] && log[..1][..0] == [];
    assert Tallied(w, []) == Tally(0, map[]);
    assert Second(w, 0.5) == 0 && Second(w, 1.25) == 1;
    assert Tallied(w, log[..1]) == Tally(2, map[0 := 2]);
    assert Tallied(w, log) == Tally(7, map[0 := 2, 1 := 5]);
    assert SumTo(Tallied(w, log).bins, 0) == 0;
  }
}
