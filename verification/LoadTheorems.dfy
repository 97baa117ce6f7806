/** The load generator's promises, for every schedule. */
module LoadTheorems {
  import opened Common
  import opened Sums
  import DivMod
  import opened LoadWindow
  import opened LoadGenerator
  import opened LoadInvariant

  /**
    In every interleaving, including failing streams: `active` is the number of requests in
    flight and never exceeds the concurrency; the window's total is the sum of the deltas observed
    inside it and of its bins; and every observed token belongs to a completed request, to one in
    flight or to one that failed.
  */
  lemma Conservation(c: Workload, concurrency: nat, schedule: seq<Event>)
    requires c.wanted != [] && c.span.start <= c.span.end
    ensures var s := Exec(c, Initial(concurrency), schedule);
      && s.active == InFlight(s.workers) <= s.peak <= concurrency
      && s.tally.tokens == InsideSum(c.span, s.log)
      && s.tally.tokens == SumTo(s.tally.bins, (c.span.end - c.span.start).Floor + 1)
      && LogTotal(s.log) == OutputTotal(s.results) + Received(s.workers) + s.wasted
  {
    InitialInv(c, concurrency);
    ExecKept(c, Initial(concurrency), schedule);
    TotalsAgree(c.span, Exec(c, Initial(concurrency), schedule).log);
  }

  predicate Over(s: State) {
    forall i :: 0 <= i < |s.workers| ==> s.workers[i].phase.Stopped? || s.workers[i].phase.Failed?
  }

  lemma {:induction false} NobodyInFlight(workers: seq<Worker>)
    requires forall i :: 0 <= i < |workers| ==> !workers[i].phase.Streaming?
    ensures InFlight(workers) == 0 && Received(workers) == 0
  {
    if workers != [] { NobodyInFlight(workers[..|workers| - 1]); }
  }

  /** When every worker is gone `active` is back at 0 and nothing is left in flight. */
  lemma DrainEndsAtZero(c: Workload, concurrency: nat, schedule: seq<Event>)
    requires c.wanted != [] && Over(Exec(c, Initial(concurrency), schedule))
    ensures var s := Exec(c, Initial(concurrency), schedule);
      s.active == 0 && LogTotal(s.log) == OutputTotal(s.results) + s.wasted
  {
    InitialInv(c, concurrency);
    ExecKept(c, Initial(concurrency), schedule);
    NobodyInFlight(Exec(c, Initial(concurrency), schedule).workers);
  }

  /** Each completed stream delivered exactly the tokens its payload asked for. */
  lemma CompletedStreamsAreWhole(c: Workload, concurrency: nat, schedule: seq<Event>, r: Result)
    requires c.wanted != [] && r in Exec(c, Initial(concurrency), schedule).results
    ensures r.payload < |c.wanted| && Sum(r.deltas) == r.output == c.wanted[r.payload] > 0
    ensures r.payload == (r.slot + (r.sequence - 1) * concurrency) % |c.wanted|
    ensures r.cohort <==> c.span.start <= r.begin < c.span.end
    ensures FirstToken(r.deltas, r.stamps, Some(r.begin + r.ttft))
  {
    InitialInv(c, concurrency);
    ExecKept(c, Initial(concurrency), schedule);
    assert |Exec(c, Initial(concurrency), schedule).workers| == concurrency;
    ResultMeans(c, concurrency, r);
  }

  lemma ResultMeans(c: Workload, n: nat, r: Result)
    requires ResultInv(c, n, r)
    ensures r.payload < |c.wanted| && Sum(r.deltas) == r.output == c.wanted[r.payload] > 0
    ensures r.payload == (r.slot + (r.sequence - 1) * n) % |c.wanted|
    ensures r.cohort <==> c.span.start <= r.begin < c.span.end
    ensures FirstToken(r.deltas, r.stamps, Some(r.begin + r.ttft))
  {
  }

  /**
    What the events leave behind. A request begins only before the end of the window; every line adds
    its increment at its own time to the log and to the stream; and the end of a stream that is whole
    is recorded with the clock readings of its begin and its end.
  */
  lemma EventsAreRecorded(c: Workload, s: State, slot: nat, now: real, begin: real, newCount: int)
    requires c.wanted != [] && PayloadsInRange(c, s) && slot < |s.workers|
    ensures var s' := Step(c, s, Begin(slot, now, begin));
      if s.workers[slot].phase.Idle? && now < c.span.end
      then s'.workers[slot].phase.Streaming? && s'.workers[slot].phase.begin == begin && s'.active == s.active + 1
      else s' == s
    ensures var phase, s' := s.workers[slot].phase, Step(c, s, Line(slot, now, newCount));
      phase.Streaming? && newCount >= phase.count ==>
        && s'.log == s.log + [Observation(now, newCount - phase.count)]
        && s'.workers[slot].phase.Streaming? && s'.workers[slot].phase.count == newCount
        && s'.workers[slot].phase.stamps == phase.stamps + [now]
    ensures var phase, s' := s.workers[slot].phase, Step(c, s, Done(slot, now));
      phase.Streaming? && phase.first.Some? && phase.count == c.wanted[phase.payload] ==>
        && |s'.results| == |s.results| + 1
        && s'.results[|s.results|].begin == phase.begin && s'.results[|s.results|].end == now
        && s'.results[|s.results|].stamps == phase.stamps && s'.results[|s.results|].slot == slot
  {
  }

  /** The stream is over without a result: its place is given back and its tokens are written off. */
  predicate FailsAt(s: State, s': State, slot: nat) {
    && slot < |s.workers| && s.workers[slot].phase.Streaming?
    && s' == State(s.workers[slot := Worker(s.workers[slot].sequence, Failed)], s.active - 1, s.peak, s.tally,
                   s.results, s.log, s.issued, s.wasted + s.workers[slot].phase.count)
  }

  /**
    How workers go. A stream fails when its count falls, when it ends short of what its payload asked
    for or without a token, or when it breaks; a worker between requests stops once the end of the
    window has come, or breaks. In no other case does anything change.
  */
  lemma ExitsAreRecorded(c: Workload, s: State, slot: nat, now: real, newCount: int)
    requires c.wanted != [] && PayloadsInRange(c, s) && slot < |s.workers|
    ensures var w := s.workers[slot];
      && (w.phase.Streaming? && newCount < w.phase.count ==> FailsAt(s, Step(c, s, Line(slot, now, newCount)), slot))
      && (w.phase.Streaming? && (w.phase.count != c.wanted[w.phase.payload] || w.phase.first.None?) ==>
            FailsAt(s, Step(c, s, Done(slot, now)), slot))
      && (w.phase.Streaming? ==> FailsAt(s, Step(c, s, Break(slot)), slot))
    ensures var w := s.workers[slot];
      && (!w.phase.Streaming? ==> Step(c, s, Line(slot, now, newCount)) == s && Step(c, s, Done(slot, now)) == s)
      && Step(c, s, Quit(slot, now)) ==
           (if w.phase.Idle? && now >= c.span.end then s.(workers := s.workers[slot := Worker(w.sequence, Stopped)])
            else s)
      && (!w.phase.Streaming? ==>
            Step(c, s, Break(slot)) ==
              if w.phase.Idle? then s.(workers := s.workers[slot := Worker(w.sequence, Failed)]) else s)
  {
  }

  lemma StepPeak(c: Workload, s: State, e: Event)
    requires Inv(c, s)
    ensures Step(c, s, e).peak == Max(s.peak, Step(c, s, e).active)
  {
  }

  /** `peak_active` is the largest number of requests ever in flight. */
  lemma {:induction false} PeakIsMaximum(c: Workload, concurrency: nat, schedule: seq<Event>) returns (k: nat)
    requires c.wanted != []
    ensures k <= |schedule|
    ensures Exec(c, Initial(concurrency), schedule).peak == Exec(c, Initial(concurrency), schedule[..k]).active
    ensures forall n :: 0 <= n <= |schedule| ==>
      Exec(c, Initial(concurrency), schedule[..n]).active <= Exec(c, Initial(concurrency), schedule).peak
  {
    assert schedule[..|schedule|] == schedule;
    k := 0;
    if schedule != [] {
      var front, e := schedule[..|schedule| - 1], schedule[|schedule| - 1];
      var before := Exec(c, Initial(concurrency), front);
      k := PeakIsMaximum(c, concurrency, front);
      assert front[..k] == schedule[..k];
      InitialInv(c, concurrency);
      ExecKept(c, Initial(concurrency), front);
      StepPeak(c, before, e);
      if before.peak < Step(c, before, e).active { k := |schedule|; }
      forall n | 0 <= n <= |schedule|
        ensures Exec(c, Initial(concurrency), schedule[..n]).active <= Exec(c, Initial(concurrency), schedule).peak
      {
        if n < |schedule| { assert front[..n] == schedule[..n]; }
      }
    }
  }

  // ----- Coverage of the payloads

  /** How often payload `i` of `p` has been sent. */
  function Uses(issued: seq<nat>, p: nat, i: nat): nat
    requires p > 0
  {
    if issued == [] then 0
    else Uses(issued[..|issued| - 1], p, i) + if issued[|issued| - 1] % p == i then 1 else 0
  }

  /** How many numbers below `m` leave remainder `i`. */
  function Residues(m: nat, p: nat, i: nat): nat
    requires p > 0
  {
    if m == 0 then 0 else Residues(m - 1, p, i) + if (m - 1) % p == i then 1 else 0
  }

  lemma NextQuotient(m: nat, p: nat)
    requires p > 0
    ensures if m % p + 1 < p then (m + 1) / p == m / p && (m + 1) % p == m % p + 1
            else (m + 1) / p == m / p + 1 && (m + 1) % p == 0
  {
    var q, r := m / p, m % p;
    assert m == q * p + r;
    if r + 1 < p { DivMod.Unique(m + 1, p, q, r + 1); }
    else {
      assert m + 1 == (q + 1) * p + 0;
      DivMod.Unique(m + 1, p, q + 1, 0);
    }
  }

  lemma {:induction false} ResidueCount(m: nat, p: nat, i: nat)
    requires i < p
    ensures Residues(m, p, i) == m / p + if i < m % p then 1 else 0
  {
    if m > 0 {
      ResidueCount(m - 1, p, i);
      NextQuotient(m - 1, p);
    } else {
      DivMod.Unique(0, p, 0, 0);
    }
  }

  lemma {:induction false} UsesWithout(issued: seq<nat>, p: nat, i: nat, k: nat)
    requires p > 0 && k < |issued|
    ensures Uses(issued, p, i) == Uses(issued[..k] + issued[k + 1..], p, i) + if issued[k] % p == i then 1 else 0
  {
    var n := |issued| - 1;
    if k == n {
      assert issued[..k] + issued[k + 1..] == issued[..n];
    } else {
      UsesWithout(issued[..n], p, i, k);
      var rest, less := issued[..k] + issued[k + 1..], issued[..n][..k] + issued[..n][k + 1..];
      assert issued[k + 1..] == issued[..n][k + 1..] + [issued[n]];
      assert rest == less + [issued[n]] && rest[..n - 1] == less;
    }
  }

  /** If the request numbers are exactly those below `m`, the uses are the residues. */
  lemma {:induction false} UsesOfAll(issued: seq<nat>, m: nat, p: nat, i: nat)
    requires p > 0 && Permutation(issued, m)
    ensures Uses(issued, p, i) == Residues(m, p, i)
    decreases m
  {
    if m > 0 {
      IndexOccurs(issued, m, m - 1);
      var k :| 0 <= k < m && issued[k] == m - 1;
      Remove(issued, m, k);
      UsesOfAll(issued[..k] + issued[k + 1..], m - 1, p, i);
      UsesWithout(issued, p, i, k);
    }
  }

  lemma {:induction false} DistinctBelow(issued: seq<nat>, m: nat)
    requires Distinct(issued) && forall n: nat :: n in issued <==> n < m
    ensures Permutation(issued, m)
  {
    DistinctSize(issued);
    assert Elements(issued) == Range(0, m);
    forall i | 0 <= i < |issued| ensures issued[i] < m { assert issued[i] in issued; }
  }

  /**
    When every worker has issued exactly `m` requests, the request numbers are exactly those below
    concurrency * m, once each, so any two payloads have been used equally often, up to one.
  */
  lemma PayloadsCoveredEvenly(c: Workload, concurrency: nat, schedule: seq<Event>, m: nat, i: nat, j: nat)
    requires c.wanted != [] && concurrency > 0 && i < |c.wanted| && j < |c.wanted|
    requires forall w :: w in Exec(c, Initial(concurrency), schedule).workers ==> w.sequence == m
    ensures var issued := Exec(c, Initial(concurrency), schedule).issued;
      && Permutation(issued, concurrency * m)
      && Uses(issued, |c.wanted|, i) <= Uses(issued, |c.wanted|, j) + 1
  {
    InitialInv(c, concurrency);
    ExecKept(c, Initial(concurrency), schedule);
    var s := Exec(c, Initial(concurrency), schedule);
    forall n: nat ensures n in s.issued <==> n < concurrency * m {
      assert s.workers[n % concurrency] in s.workers;
      DivMod.QuotientBelow(n, concurrency, m);
    }
    DistinctBelow(s.issued, concurrency * m);
    UsesOfAll(s.issued, concurrency * m, |c.wanted|, i);
    UsesOfAll(s.issued, concurrency * m, |c.wanted|, j);
    ResidueCount(concurrency * m, |c.wanted|, i);
    ResidueCount(concurrency * m, |c.wanted|, j);
  }
}
