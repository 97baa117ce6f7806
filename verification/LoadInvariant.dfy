/** What every interleaving of the load generator's workers keeps. */
module LoadInvariant {
  import opened Common
  import opened Sums
  import DivMod
  import opened LoadWindow
  import opened LoadGenerator

  // ----- Counting over the workers

  function One(w: Worker): nat {
    if w.phase.Streaming? then 1 else 0
  }

  function Pending(w: Worker): int {
    if w.phase.Streaming? then w.phase.count else 0
  }

  /** The number of requests in flight. */
  function InFlight(workers: seq<Worker>): (n: nat)
    ensures n <= |workers|
  {
    if workers == [] then 0 else InFlight(workers[..|workers| - 1]) + One(workers[|workers| - 1])
  }

  /** The tokens received by requests in flight. */
  function Received(workers: seq<Worker>): int {
    if workers == [] then 0 else Received(workers[..|workers| - 1]) + Pending(workers[|workers| - 1])
  }

  lemma {:induction false} CountsAfterSet(workers: seq<Worker>, slot: nat, w: Worker)
    requires slot < |workers|
    ensures InFlight(workers[slot := w]) == InFlight(workers) - One(workers[slot]) + One(w)
    ensures Received(workers[slot := w]) == Received(workers) - Pending(workers[slot]) + Pending(w)
  {
    var n := |workers| - 1;
    if slot == n {
      assert workers[slot := w][..n] == workers[..n];
    } else {
      CountsAfterSet(workers[..n], slot, w);
      assert workers[slot := w][..n] == workers[..n][slot := w];
    }
  }

  lemma {:induction false} IdleCounts(n: nat)
    ensures InFlight(Initial(n).workers) == 0 && Received(Initial(n).workers) == 0
  {
    if n > 0 {
      IdleCounts(n - 1);
      assert Initial(n).workers[..n - 1] == Initial(n - 1).workers;
    }
  }

  function LogTotal(log: seq<Observation>): int {
    if log == [] then 0 else LogTotal(log[..|log| - 1]) + log[|log| - 1].delta
  }

  function OutputTotal(results: seq<Result>): int {
    if results == [] then 0 else OutputTotal(results[..|results| - 1]) + results[|results| - 1].output
  }

  // ----- The invariant

  /** The first increment that is not zero arrived at `first`. */
  predicate FirstToken(deltas: seq<int>, stamps: seq<real>, first: Option<real>) {
    && |stamps| == |deltas|
    && match first
       case None => forall k :: 0 <= k < |deltas| ==> deltas[k] == 0
       case Some(at) =>
         exists k :: 0 <= k < |deltas| && deltas[k] != 0 && stamps[k] == at
                     && forall j :: 0 <= j < k ==> deltas[j] == 0
  }

  lemma FirstTokenNext(deltas: seq<int>, stamps: seq<real>, first: Option<real>, delta: int, now: real)
    requires FirstToken(deltas, stamps, first)
    ensures FirstToken(deltas + [delta], stamps + [now], if delta != 0 && first.None? then Some(now) else first)
  {
    var deltas', stamps' := deltas + [delta], stamps + [now];
    if first.Some? {
      var k :| 0 <= k < |deltas| && deltas[k] != 0 && stamps[k] == first.value
        && forall j :: 0 <= j < k ==> deltas[j] == 0;
      assert deltas'[k] == deltas[k] && stamps'[k] == stamps[k];
    } else if delta != 0 {
      assert deltas'[|deltas|] == delta && stamps'[|deltas|] == now;
    }
  }

  predicate StreamInv(c: Workload, workers: seq<Worker>, i: nat)
    requires i < |workers|
  {
    var w := workers[i];
    w.phase.Streaming? ==>
      && w.sequence >= 1
      && c.wanted != [] && w.phase.payload == (i + (w.sequence - 1) * |workers|) % |c.wanted|
      && w.phase.count == Sum(w.phase.deltas) >= 0
      && (forall k :: 0 <= k < |w.phase.deltas| ==> w.phase.deltas[k] >= 0)
      && (w.phase.first.None? <==> w.phase.count == 0)
      && FirstToken(w.phase.deltas, w.phase.stamps, w.phase.first)
  }

  predicate StreamsInv(c: Workload, workers: seq<Worker>) {
    forall i :: 0 <= i < |workers| ==> StreamInv(c, workers, i)
  }

  predicate ResultInv(c: Workload, n: nat, r: Result) {
    && r.slot < n && r.sequence >= 1
    && c.wanted != [] && r.payload == (r.slot + (r.sequence - 1) * n) % |c.wanted|
    && r.output == c.wanted[r.payload] == Sum(r.deltas) > 0
    && (forall k :: 0 <= k < |r.deltas| ==> r.deltas[k] >= 0)
    && r.cohort == Inside(c.span, r.begin)
    && FirstToken(r.deltas, r.stamps, Some(r.begin + r.ttft))
  }

  /** A request number has been issued exactly when its worker has got that far. */
  ghost predicate IssuedInv(workers: seq<Worker>, issued: seq<nat>) {
    && Distinct(issued)
    && (workers != [] ==>
          forall n: nat :: n in issued <==> n / |workers| < workers[n % |workers|].sequence)
    && (workers == [] ==> issued == [])
  }

  ghost predicate Inv(c: Workload, s: State) {
    && c.wanted != [] && PayloadsInRange(c, s)
    && s.active == InFlight(s.workers) <= s.peak <= |s.workers|
    && s.tally == Tallied(c.span, s.log)
    && LogTotal(s.log) == OutputTotal(s.results) + Received(s.workers) + s.wasted
    && StreamsInv(c, s.workers)
    && (forall r :: r in s.results ==> ResultInv(c, |s.workers|, r))
    && IssuedInv(s.workers, s.issued)
  }

  // ----- Every step keeps it

  lemma StreamsKept(c: Workload, workers: seq<Worker>, slot: nat, w: Worker)
    requires slot < |workers| && StreamsInv(c, workers)
    requires StreamInv(c, workers[slot := w], slot)
    ensures StreamsInv(c, workers[slot := w])
  {
    var workers' := workers[slot := w];
    forall i | 0 <= i < |workers'| ensures StreamInv(c, workers', i) {
      assert StreamInv(c, workers, i);
    }
  }

  lemma IssuedKept(workers: seq<Worker>, issued: seq<nat>, slot: nat, w: Worker)
    requires slot < |workers| && IssuedInv(workers, issued) && w.sequence == workers[slot].sequence
    ensures IssuedInv(workers[slot := w], issued)
  {
  }

  lemma DivideRequest(n: nat, slot: nat, q: nat)
    requires slot < n
    ensures (slot + q * n) / n == q && (slot + q * n) % n == slot
  {
    DivMod.Unique(slot + q * n, n, q, slot);
  }

  lemma IssueNext(workers: seq<Worker>, issued: seq<nat>, slot: nat, w: Worker)
    requires slot < |workers| && IssuedInv(workers, issued) && w.sequence == workers[slot].sequence + 1
    ensures IssuedInv(workers[slot := w], issued + [slot + workers[slot].sequence * |workers|])
  {
    var n, q := |workers|, workers[slot].sequence;
    var number, workers' := slot + q * n, workers[slot := w];
    DivideRequest(n, slot, q);
    assert number !in issued;
    forall m: nat ensures m in issued + [number] <==> m / n < workers'[m % n].sequence {
      if m % n == slot && m / n == q { assert m == n * (m / n) + m % n == number; }
    }
  }

  lemma BeginKept(c: Workload, s: State, slot: nat, begin: real)
    requires Inv(c, s) && slot < |s.workers| && s.workers[slot].phase.Idle?
    ensures Inv(c, BeginRequest(c, s, slot, begin))
  {
    var s' := BeginRequest(c, s, slot, begin);
    var w' := s'.workers[slot];
    assert s'.workers == s.workers[slot := w'];
    CountsAfterSet(s.workers, slot, w');
    StreamsKept(c, s.workers, slot, w');
    IssueNext(s.workers, s.issued, slot, w');
  }

  lemma FailKept(c: Workload, s: State, slot: nat)
    requires Inv(c, s) && slot < |s.workers| && s.workers[slot].phase.Streaming?
    ensures Inv(c, Fail(s, slot))
  {
    var w' := Fail(s, slot).workers[slot];
    CountsAfterSet(s.workers, slot, w');
    StreamsKept(c, s.workers, slot, w');
    IssuedKept(s.workers, s.issued, slot, w');
  }

  lemma SumAppend(s: seq<int>, x: int)
    ensures Sum(s + [x]) == Sum(s) + x
  {
    assert (s + [x])[..|s|] == s;
  }

  lemma LineKept(c: Workload, s: State, slot: nat, now: real, newCount: int)
    requires Inv(c, s) && slot < |s.workers| && s.workers[slot].phase.Streaming?
    ensures Inv(c, ReadLine(c, s, slot, now, newCount))
  {
    var p := s.workers[slot].phase;
    var delta := newCount - p.count;
    if delta < 0 {
      FailKept(c, s, slot);
    } else {
      assert StreamInv(c, s.workers, slot);
      var s' := ReadLine(c, s, slot, now, newCount);
      CountsAfterSet(s.workers, slot, s'.workers[slot]);
      SumAppend(p.deltas, delta);
      FirstTokenNext(p.deltas, p.stamps, p.first, delta, now);
      StreamsKept(c, s.workers, slot, s'.workers[slot]);
      IssuedKept(s.workers, s.issued, slot, s'.workers[slot]);
      assert s'.log[..|s.log|] == s.log;
    }
  }

  lemma ResultsKept(c: Workload, s: State, slot: nat, now: real)
    requires Inv(c, s) && slot < |s.workers| && s.workers[slot].phase.Streaming?
    ensures forall r :: r in FinishStream(c, s, slot, now).results ==> ResultInv(c, |s.workers|, r)
  {
    assert StreamInv(c, s.workers, slot);
  }

  lemma FinishKept(c: Workload, s: State, slot: nat, now: real)
    requires Inv(c, s) && slot < |s.workers| && s.workers[slot].phase.Streaming?
    ensures Inv(c, FinishStream(c, s, slot, now))
  {
    var p := s.workers[slot].phase;
    if p.count != c.wanted[p.payload] || p.first.None? {
      FailKept(c, s, slot);
    } else {
      ResultsKept(c, s, slot, now);
      var s' := FinishStream(c, s, slot, now);
      CountsAfterSet(s.workers, slot, s'.workers[slot]);
      StreamsKept(c, s.workers, slot, s'.workers[slot]);
      IssuedKept(s.workers, s.issued, slot, s'.workers[slot]);
      assert s'.results[..|s.results|] == s.results;
    }
  }

  lemma LeaveKept(c: Workload, s: State, slot: nat, phase: Phase)
    requires Inv(c, s) && slot < |s.workers| && s.workers[slot].phase.Idle? && !phase.Streaming?
    ensures Inv(c, Set(s, slot, s.workers[slot].(phase := phase)))
  {
    var w' := s.workers[slot].(phase := phase);
    CountsAfterSet(s.workers, slot, w');
    StreamsKept(c, s.workers, slot, w');
    IssuedKept(s.workers, s.issued, slot, w');
  }

  lemma StepKept(c: Workload, s: State, e: Event)
    requires Inv(c, s)
    ensures Inv(c, Step(c, s, e))
  {
    if e.slot < |s.workers| {
      var phase := s.workers[e.slot].phase;
      match e
      case Begin(slot, now, begin) => if phase.Idle? && now < c.span.end { BeginKept(c, s, slot, begin); }
      case Line(slot, now, newCount) => if phase.Streaming? { LineKept(c, s, slot, now, newCount); }
      case Done(slot, now) => if phase.Streaming? { FinishKept(c, s, slot, now); }
      case Break(slot) =>
        if phase.Streaming? { FailKept(c, s, slot); } else if phase.Idle? { LeaveKept(c, s, slot, Failed); }
      case Quit(slot, now) => if phase.Idle? && now >= c.span.end { LeaveKept(c, s, slot, Stopped); }
    }
  }

  lemma InitialInv(c: Workload, concurrency: nat)
    requires c.wanted != []
    ensures Inv(c, Initial(concurrency))
  {
    IdleCounts(concurrency);
  }

  lemma {:induction false} ExecKept(c: Workload, s: State, schedule: seq<Event>)
    requires Inv(c, s)
    ensures Inv(c, Exec(c, s, schedule))
  {
    if schedule != [] {
      ExecKept(c, s, schedule[..|schedule| - 1]);
      StepKept(c, Exec(c, s, schedule[..|schedule| - 1]), schedule[|schedule| - 1]);
    }
  }
}
