/**
  The closed-loop load generator `run` of scripts/disaggregation/pd_overlap_benchmark.py. Its
  workers are coroutines of one event loop, so the code between two awaits is one atomic step; a
  schedule of events fixes the interleaving, the clock readings, the stream contents and every
  failure or cancellation.
*/
module LoadGenerator {
  import opened Common
  import opened LoadWindow

  /** `deltas` and `stamps` are history: the increments the stream has brought so far, and when. */
  datatype Phase =
    | Idle
    | Streaming(payload: nat, begin: real, count: int, first: Option<real>, deltas: seq<int>,
                stamps: seq<real>)
    | Stopped
    | Failed

  datatype Worker = Worker(sequence: nat, phase: Phase)

  datatype Result = Result(
    payload: nat, slot: nat, sequence: nat, begin: real, end: real, cohort: bool, output: int, ttft: real,
    deltas: seq<int>, stamps: seq<real>)

  /** `wanted[i]` is the `max_new_tokens` of payload `i`. */
  datatype Workload = Workload(wanted: seq<int>, span: Span)

  /** `log`, `issued` and `wasted` are history: all observations, request numbers, tokens of failed streams. */
  datatype State = State(
    workers: seq<Worker>, active: int, peak: int, tally: Tally, results: seq<Result>,
    log: seq<Observation>, issued: seq<nat>, wasted: int)

  /** A worker reads the clock twice as it begins: once against the end of the window, once for the record. */
  datatype Event =
    | Begin(slot: nat, now: real, begin: real)
    | Line(slot: nat, now: real, newCount: int)
    | Done(slot: nat, now: real)
    | Break(slot: nat)
    | Quit(slot: nat, now: real)

  function Initial(concurrency: nat): State {
    State(seq(concurrency, _ => Worker(0, Idle)), 0, 0, Tally(0, map[]), [], [], [], 0)
  }

  function Set(s: State, slot: nat, w: Worker): State
    requires slot < |s.workers|
  {
    s.(workers := s.workers[slot := w])
  }

  /** The exception path: `finally` gives the place back and the worker is gone. */
  function Fail(s: State, slot: nat): State
    requires slot < |s.workers| && s.workers[slot].phase.Streaming?
  {
    Set(s, slot, s.workers[slot].(phase := Failed))
      .(active := s.active - 1, wasted := s.wasted + s.workers[slot].phase.count)
  }

  function BeginRequest(c: Workload, s: State, slot: nat, begin: real): State
    requires slot < |s.workers| && s.workers[slot].phase.Idle? && c.wanted != []
  {
    var w := s.workers[slot];
    var number := slot + w.sequence * |s.workers|;
    Set(s, slot, Worker(w.sequence + 1, Streaming(number % |c.wanted|, begin, 0, None, [], [])))
      .(active := s.active + 1, peak := Max(s.peak, s.active + 1), issued := s.issued + [number])
  }

  function ReadLine(c: Workload, s: State, slot: nat, now: real, newCount: int): State
    requires slot < |s.workers| && s.workers[slot].phase.Streaming?
  {
    var w := s.workers[slot];
    var delta := newCount - w.phase.count;
    if delta < 0 then Fail(s, slot)
    else
      var o := Observation(now, delta);
      var first := if delta != 0 && w.phase.first.None? then Some(now) else w.phase.first;
      Set(s, slot, w.(phase := w.phase.(count := newCount, first := first, deltas := w.phase.deltas + [delta],
                                        stamps := w.phase.stamps + [now])))
        .(tally := Observed(c.span, s.tally, o), log := s.log + [o])
  }

  function FinishStream(c: Workload, s: State, slot: nat, now: real): State
    requires slot < |s.workers| && s.workers[slot].phase.Streaming? && s.workers[slot].phase.payload < |c.wanted|
  {
    var w := s.workers[slot];
    var p := w.phase;
    if p.count != c.wanted[p.payload] || p.first.None? then Fail(s, slot)
    else
      var r := Result(p.payload, slot, w.sequence, p.begin, now, Inside(c.span, p.begin), p.count,
                      p.first.value - p.begin, p.deltas, p.stamps);
      Set(s, slot, w.(phase := Idle)).(active := s.active - 1, results := s.results + [r])
  }

  predicate PayloadsInRange(c: Workload, s: State) {
    forall i :: 0 <= i < |s.workers| && s.workers[i].phase.Streaming? ==> s.workers[i].phase.payload < |c.wanted|
  }

  /** An event that does not fit the worker's phase or the clock changes nothing. */
  function Step(c: Workload, s: State, e: Event): (s': State)
    requires c.wanted != [] && PayloadsInRange(c, s)
    ensures PayloadsInRange(c, s') && |s'.workers| == |s.workers|
  {
    if e.slot >= |s.workers| then s
    else
      var phase := s.workers[e.slot].phase;
      match e
      case Begin(slot, now, begin) => if phase.Idle? && now < c.span.end then BeginRequest(c, s, slot, begin) else s
      case Line(slot, now, newCount) => if phase.Streaming? then ReadLine(c, s, slot, now, newCount) else s
      case Done(slot, now) => if phase.Streaming? then FinishStream(c, s, slot, now) else s
      case Break(slot) =>
        if phase.Streaming? then Fail(s, slot)
        else if phase.Idle? then Set(s, slot, s.workers[slot].(phase := Failed)) else s
      case Quit(slot, now) =>
        if phase.Idle? && now >= c.span.end then Set(s, slot, s.workers[slot].(phase := Stopped)) else s
  }

  function Exec(c: Workload, s: State, schedule: seq<Event>): (s': State)
    requires c.wanted != [] && PayloadsInRange(c, s)
    ensures PayloadsInRange(c, s') && |s'.workers| == |s.workers|
  {
    if schedule == [] then s
    else Step(c, Exec(c, s, schedule[..|schedule| - 1]), schedule[|schedule| - 1])
  }
}
