/**
  With six publishers a call can fail although nothing goes wrong: five others land one commit each,
  always between its read of the head and its ref update. Any number of calls can fail together in
  this way, so five is exact both as the number that is safe and as the number that must succeed.
*/
module PublishingStarvation {
  import opened Common
  import opened Publishing
  import opened PublishingInvariant
  import opened PublishingTheorems
  import opened PublishingProgress
  import opened PublishingScenarios
  import opened PublishingOutcome

  // ----- Schedules without faults

  lemma FaultlessNext(s: System, a: seq<Event>, e: Event)
    requires Valid(s) && Faultless(s, a) && FreshEvent(Exec(s, a), e)
    ensures Faultless(s, a + [e])
  {
    assert (a + [e])[..|a|] == a;
  }

  lemma FaultlessFront(s: System, a: seq<Event>, e: Event)
    requires Valid(s) && Faultless(s, a + [e])
    ensures Faultless(s, a) && FreshEvent(Exec(s, a), e)
  {
    assert (a + [e])[..|a|] == a;
  }

  lemma {:induction false} FaultlessConcat(s: System, a: seq<Event>, b: seq<Event>)
    requires Valid(s) && Faultless(s, a) && Faultless(Exec(s, a), b)
    ensures Faultless(s, a + b)
  {
    if b == [] {
      assert a + b == a;
    } else {
      var front, e := b[..|b| - 1], b[|b| - 1];
      assert b == front + [e];
      FaultlessFront(Exec(s, a), front, e);
      FaultlessConcat(s, a, front);
      ExecConcat(s, a, front);
      FaultlessNext(s, a + front, e);
      assert a + b == (a + front) + [e];
    }
  }

  lemma {:induction false} AnsweredIsFaultless(s: System, i: nat, n: nat)
    requires Valid(s) && i < |s.pubs| && s.pubs[i].phase == ReadHead && n <= Preparation(s.pubs[i])
    ensures Faultless(s, Answered(i, s.repo.head, n))
  {
    if n > 0 {
      AnsweredIsFaultless(s, i, n - 1);
      assert Answered(i, s.repo.head, n)[..n - 1] == Answered(i, s.repo.head, n - 1);
      StageReached(s, i, n - 1);
      StageNext(s, i, n - 1);
    }
  }

  /** A single answered ref update. */
  lemma UpdateIsFaultless(s: System, i: nat)
    requires Valid(s) && i < |s.pubs| && s.pubs[i].phase.UpdateRef?
    ensures Faultless(s, [Event(i, Reply(Served, 0))])
    ensures Exec(s, [Event(i, Reply(Served, 0))]) == Step(s, Event(i, Reply(Served, 0)))
  {
    var one := [Event(i, Reply(Served, 0))];
    assert one[..0] == [];
  }

  lemma ScriptIsFaultless(s: System, j: nat)
    requires Valid(s) && j < |s.pubs| && s.pubs[j].phase == ReadHead
    ensures Faultless(s, Script(s, j, Served))
  {
    var ready := Answered(j, s.repo.head, Preparation(s.pubs[j]));
    AnsweredIsFaultless(s, j, Preparation(s.pubs[j]));
    ReadyToUpdate(s, j);
    UpdateIsFaultless(Exec(s, ready), j);
    FaultlessConcat(s, ready, [Event(j, Reply(Served, 0))]);
  }

  // ----- States that can be reached without faults

  /** A set of states that runs without faults do not leave. */
  ghost predicate Closed(states: iset<System>) {
    && (forall s {:trigger s in states, s.repo} :: s in states ==> Valid(s))
    && (forall s, schedule :: s in states && Valid(s) && Faultless(s, schedule) ==> Exec(s, schedule) in states)
  }

  ghost function RunsFrom(s0: System): iset<System>
    requires Valid(s0)
  {
    iset schedule | Faultless(s0, schedule) :: Exec(s0, schedule)
  }

  lemma RunsAreClosed(s0: System)
    requires Valid(s0)
    ensures Closed(RunsFrom(s0)) && s0 in RunsFrom(s0)
  {
    assert Faultless(s0, []) && Exec(s0, []) == s0;
    forall s, schedule | s in RunsFrom(s0) && Valid(s) && Faultless(s, schedule)
      ensures Exec(s, schedule) in RunsFrom(s0)
    {
      RunExtended(s0, s, schedule);
    }
  }

  lemma RunExtended(s0: System, s: System, schedule: seq<Event>)
    requires Valid(s0) && s in RunsFrom(s0) && Valid(s) && Faultless(s, schedule)
    ensures Exec(s, schedule) in RunsFrom(s0)
  {
    var before :| Faultless(s0, before) && s == Exec(s0, before);
    ExecConcat(s0, before, schedule);
    FaultlessConcat(s0, before, schedule);
  }

  // ----- One lost race

  /** All publishers except those in `xs` are as before. */
  predicate OthersSame(s: System, s': System, xs: set<nat>) {
    |s'.pubs| == |s.pubs| && forall k :: 0 <= k < |s.pubs| && k !in xs ==> s'.pubs[k] == s.pubs[k]
  }

  lemma OthersSameTwice(s: System, m: System, s': System, xs: set<nat>, ys: set<nat>)
    requires OthersSame(s, m, xs) && OthersSame(m, s', ys)
    ensures OthersSame(s, s', xs + ys)
  {
  }

  /** The publishers in `xs` are at the beginning of an attempt. */
  predicate Starting(s: System, xs: set<nat>) {
    forall x :: x in xs ==> x < |s.pubs| && s.pubs[x].phase == ReadHead
  }

  lemma Prepares(states: iset<System>, s: System, i: nat) returns (s': System)
    requires Closed(states) && s in states && i < |s.pubs| && s.pubs[i].phase == ReadHead
    ensures s' in states
    ensures OthersSame(s, s', {i}) && s'.pubs[i].attempt == s.pubs[i].attempt
    ensures s'.pubs[i].phase == UpdateRef(|s.repo.log|, 0) && |s'.repo.log| == |s.repo.log| + 1
  {
    s' := Exec(s, Answered(i, s.repo.head, Preparation(s.pubs[i])));
    AnsweredIsFaultless(s, i, Preparation(s.pubs[i]));
    ReadyToUpdate(s, i);
  }

  /** The publishers in `xs` stand before their ref update, at the attempts they had in `s`. */
  predicate Prepared(s: System, s': System, xs: set<nat>) {
    && |s'.pubs| == |s.pubs|
    && forall x :: x in xs ==>
         && x < |s.pubs| && s'.pubs[x].phase.UpdateRef? && s'.pubs[x].phase.commit < |s'.repo.log|
         && s'.pubs[x].attempt == s.pubs[x].attempt
  }

  lemma PreparedNext(s: System, m: System, s': System, xs: set<nat>, x: nat)
    requires Prepared(s, m, xs) && OthersSame(s, m, xs) && x !in xs && x < |s.pubs|
    requires OthersSame(m, s', {x}) && |m.repo.log| < |s'.repo.log|
    requires s'.pubs[x].phase == UpdateRef(|m.repo.log|, 0) && s'.pubs[x].attempt == m.pubs[x].attempt
    ensures Prepared(s, s', xs + {x}) && OthersSame(s, s', xs + {x})
  {
  }

  lemma {:induction false} AllPrepare(states: iset<System>, s: System, xs: set<nat>) returns (s': System)
    requires Closed(states) && s in states && Starting(s, xs)
    ensures s' in states
    ensures Prepared(s, s', xs) && OthersSame(s, s', xs)
    decreases |xs|
  {
    s' := s;
    if xs != {} {
      var x :| x in xs;
      var m := AllPrepare(states, s, xs - {x});
      s' := Prepares(states, m, x);
      PreparedNext(s, m, s', xs - {x}, x);
      assert xs - {x} + {x} == xs;
    }
  }

  lemma OthersStandStill(s: System, schedule: seq<Event>, j: nat)
    requires Valid(s) && forall k :: 0 <= k < |schedule| ==> schedule[k].who == j
    ensures OthersSame(s, Exec(s, schedule), {j})
  {
    forall k | 0 <= k < |s.pubs| && k != j ensures Exec(s, schedule).pubs[k] == s.pubs[k] {
      OthersLeaveMeAlone(s, schedule, k);
    }
  }

  lemma Overtakes(states: iset<System>, s: System, j: nat) returns (s': System)
    requires Closed(states) && s in states && j < |s.pubs| && s.pubs[j].phase == ReadHead
    ensures s' in states
    ensures OthersSame(s, s', {j}) && s'.pubs[j].phase.Succeeded?
    ensures s'.repo.head == |s.repo.log|
  {
    s' := Exec(s, Script(s, j, Served));
    ScriptIsFaultless(s, j);
    ScriptEffect(s, j, Served);
    OthersStandStill(s, Script(s, j, Served), j);
  }

  lemma IsRefused(states: iset<System>, s: System, i: nat) returns (s': System)
    requires Closed(states) && s in states && i < |s.pubs|
    requires s.pubs[i].phase.UpdateRef? && s.pubs[i].phase.commit < s.repo.head
    ensures s' in states
    ensures s' == Put(s, s.repo, i, AfterError(s.pubs[i], NOT_FAST_FORWARD))
  {
    s' := Exec(s, [Event(i, Reply(Served, 0))]);
    UpdateIsFaultless(s, i);
    UpdateReaction(s.repo, i, s.pubs[i], Reply(Served, 0));
  }

  /** The publishers in `xs` have been refused. */
  predicate Refused(s: System, s': System, xs: set<nat>) {
    && |s'.pubs| == |s.pubs|
    && forall x :: x in xs ==> x < |s.pubs| && s'.pubs[x] == AfterError(s.pubs[x], NOT_FAST_FORWARD)
  }

  predicate Outdated(s: System, xs: set<nat>) {
    forall x :: x in xs ==> x < |s.pubs| && s.pubs[x].phase.UpdateRef? && s.pubs[x].phase.commit < s.repo.head
  }

  lemma RefusedNext(s: System, m: System, xs: set<nat>, x: nat)
    requires Refused(s, m, xs) && OthersSame(s, m, xs) && x !in xs && x < |s.pubs|
    ensures var s' := Put(m, m.repo, x, AfterError(m.pubs[x], NOT_FAST_FORWARD));
      Refused(s, s', xs + {x}) && OthersSame(s, s', xs + {x})
  {
  }

  lemma {:induction false} AllRefused(states: iset<System>, s: System, xs: set<nat>) returns (s': System)
    requires Closed(states) && s in states && Outdated(s, xs)
    ensures s' in states && s'.repo == s.repo
    ensures Refused(s, s', xs) && OthersSame(s, s', xs)
    decreases |xs|
  {
    s' := s;
    if xs != {} {
      var x :| x in xs;
      var m := AllRefused(states, s, xs - {x});
      s' := IsRefused(states, m, x);
      RefusedNext(s, m, xs - {x}, x);
      assert xs - {x} + {x} == xs;
    }
  }

  /** What losing `n` races in a row makes of a publisher. */
  predicate HasLost(p: Publisher, p': Publisher, n: nat) {
    if p.attempt + n < MAX_ATTEMPTS then p'.phase == ReadHead && p'.attempt == p.attempt + n
    else p'.phase == Raised(NOT_FAST_FORWARD)
  }

  /** `xs` have lost `n` races, `ws` have succeeded, and nobody else has moved. */
  predicate Standing(s: System, s': System, xs: set<nat>, ws: set<nat>, n: nat) {
    && OthersSame(s, s', xs + ws)
    && (forall w :: w in ws ==> w < |s.pubs| && s'.pubs[w].phase.Succeeded?)
    && (forall x :: x in xs ==> x < |s.pubs| && HasLost(s.pubs[x], s'.pubs[x], n))
  }

  lemma RefusalsAreLosses(s: System, s1: System, s2: System, s': System, xs: set<nat>, j: nat)
    requires Starting(s, xs) && j !in xs && j < |s.pubs|
    requires forall x :: x in xs ==> s.pubs[x].attempt < MAX_ATTEMPTS
    requires Prepared(s, s1, xs) && OthersSame(s, s1, xs)
    requires OthersSame(s1, s2, {j}) && s2.pubs[j].phase.Succeeded?
    requires Refused(s2, s', xs) && OthersSame(s2, s', xs)
    ensures Standing(s, s', xs, {j}, 1)
  {
  }

  lemma PreparedIsOutdated(s: System, s1: System, s2: System, xs: set<nat>, j: nat)
    requires Prepared(s, s1, xs) && OthersSame(s1, s2, {j}) && j !in xs && s2.repo.head == |s1.repo.log|
    ensures Outdated(s2, xs)
  {
  }

  /** All of `xs` prepare their commits, `j` lands one, and all of `xs` are refused. */
  lemma RaceLost(states: iset<System>, s: System, xs: set<nat>, j: nat) returns (s': System)
    requires Closed(states) && s in states && Starting(s, xs + {j}) && j !in xs
    requires forall x :: x in xs ==> s.pubs[x].attempt < MAX_ATTEMPTS
    ensures s' in states
    ensures Standing(s, s', xs, {j}, 1)
  {
    var s1 := AllPrepare(states, s, xs);
    var s2 := Overtakes(states, s1, j);
    PreparedIsOutdated(s, s1, s2, xs, j);
    s' := AllRefused(states, s2, xs);
    RefusalsAreLosses(s, s1, s2, s', xs, j);
  }

  // ----- Losing every race

  lemma StandingNext(s: System, m: System, s': System, xs: set<nat>, ws: set<nat>, w: nat, n: nat)
    requires Standing(s, m, xs, ws, n) && Standing(m, s', xs, {w}, 1) && w !in xs + ws && xs !! ws
    requires forall x :: x in xs ==> s.pubs[x].attempt == 0
    requires n < MAX_ATTEMPTS
    ensures Standing(s, s', xs, ws + {w}, n + 1)
  {
    OthersSameTwice(s, m, s', xs + ws, xs + {w});
    assert xs + ws + (xs + {w}) == xs + (ws + {w});
  }

  lemma NextRace(s: System, m: System, xs: set<nat>, rest: set<nat>, w: nat)
    requires Starting(s, xs + rest + {w}) && w !in xs + rest && Standing(s, m, xs, rest, |rest|)
    requires |rest| < MAX_ATTEMPTS && forall x :: x in xs ==> s.pubs[x].attempt == 0
    ensures Starting(m, xs + {w}) && forall x :: x in xs ==> m.pubs[x].attempt < MAX_ATTEMPTS
  {
    assert m.pubs[w] == s.pubs[w];
  }

  lemma NoRace(s: System, xs: set<nat>, ws: set<nat>)
    requires ws == {} && Starting(s, xs + ws) && forall x :: x in xs ==> s.pubs[x].attempt == 0
    ensures Standing(s, s, xs, ws, |ws|)
  {
  }

  lemma SplitOff(s: System, xs: set<nat>, ws: set<nat>, w: nat)
    requires Starting(s, xs + ws) && xs !! ws && w in ws
    ensures ws - {w} + {w} == ws && |ws - {w}| == |ws| - 1 && xs + (ws - {w}) + {w} == xs + ws
    ensures Starting(s, xs + (ws - {w})) && xs !! ws - {w} && w !in xs + (ws - {w})
  {
  }

  /** The race that `w` wins after the others of `ws`. */
  lemma OneMoreRace(states: iset<System>, s: System, m: System, xs: set<nat>, ws: set<nat>, w: nat) returns (s': System)
    requires Closed(states) && m in states && Starting(s, xs + ws) && xs !! ws && w in ws && |ws| <= MAX_ATTEMPTS
    requires Standing(s, m, xs, ws - {w}, |ws - {w}|) && forall x :: x in xs ==> s.pubs[x].attempt == 0
    ensures s' in states && Standing(s, s', xs, ws, |ws|)
  {
    var rest := ws - {w};
    SplitOff(s, xs, ws, w);
    NextRace(s, m, xs, rest, w);
    s' := RaceLost(states, m, xs, w);
    StandingNext(s, m, s', xs, rest, w, |rest|);
  }

  /** Every one of `ws` lands a commit in turn, and `xs` lose every time. */
  lemma {:induction false} RacesLost(states: iset<System>, s: System, xs: set<nat>, ws: set<nat>) returns (s': System)
    requires Closed(states) && s in states && Starting(s, xs + ws) && xs !! ws && |ws| <= MAX_ATTEMPTS
    requires forall x :: x in xs ==> s.pubs[x].attempt == 0
    ensures s' in states && Standing(s, s', xs, ws, |ws|)
    decreases |ws|
  {
    if ws == {} {
      s' := s;
      NoRace(s, xs, ws);
    } else {
      var w :| w in ws;
      SplitOff(s, xs, ws, w);
      var m := RacesLost(states, s, xs, ws - {w});
      s' := OneMoreRace(states, s, m, xs, ws, w);
    }
  }

  /** All of `xs` against five others, from the start. */
  lemma LosersAndWinners(s0: System, xs: set<nat>, ws: set<nat>) returns (schedule: seq<Event>, s: System)
    requires Init(s0) && xs + ws <= Busy(s0) && xs !! ws && |ws| == MAX_ATTEMPTS
    ensures Faultless(s0, schedule) && s == Exec(s0, schedule)
    ensures Standing(s0, s, xs, ws, MAX_ATTEMPTS)
    ensures forall x :: x in xs ==> s.pubs[x].phase == Raised(NOT_FAST_FORWARD)
  {
    forall k | k in Busy(s0) ensures s0.pubs[k].phase == ReadHead && s0.pubs[k].attempt == 0 {
      assert s0.pubs[k] == Launch(s0.pubs[k].files);
    }
    RunsAreClosed(s0);
    s := RacesLost(RunsFrom(s0), s0, xs, ws);
    schedule :| Faultless(s0, schedule) && s == Exec(s0, schedule);
  }

  lemma {:induction false} ChooseFrom(xs: set<nat>, n: nat) returns (ws: set<nat>)
    requires |xs| >= n
    ensures ws <= xs && |ws| == n
    decreases n
  {
    ws := {};
    if n > 0 {
      var x :| x in xs;
      var rest := ChooseFrom(xs - {x}, n - 1);
      ws := {x} + rest;
    }
  }

  /** Six publishers with something to upload: any of them can be made to raise a conflict. */
  lemma SixthCanStarve(s0: System, i: nat) returns (schedule: seq<Event>)
    requires Init(s0) && i in Busy(s0) && |Busy(s0)| > 5
    ensures Faultless(s0, schedule) && Exec(s0, schedule).pubs[i].phase == Raised(NOT_FAST_FORWARD)
  {
    BusyRemoved(s0, i);
    var ws := ChooseFrom(Busy(s0) - {i}, MAX_ATTEMPTS);
    var s;
    schedule, s := LosersAndWinners(s0, {i}, ws);
  }

  lemma OnlyWinners(s0: System, s: System, ws: set<nat>)
    requires Init(s0) && Standing(s0, s, Busy(s0) - ws, ws, MAX_ATTEMPTS) && ws <= Busy(s0)
    ensures Winners(s) == ws
  {
    forall i | i in Winners(s) ensures i in ws {
      assert s0.pubs[i] == Launch(s0.pubs[i].files);
    }
  }

  /** However many there are, it can happen that five succeed and all the others raise. */
  lemma OnlyFiveMaySucceed(s0: System) returns (schedule: seq<Event>)
    requires Init(s0) && |Busy(s0)| >= 5
    ensures Faultless(s0, schedule)
    ensures var s := Exec(s0, schedule);
      && |Winners(s)| == 5
      && (forall i :: i in Busy(s0) - Winners(s) ==> s.pubs[i].phase == Raised(NOT_FAST_FORWARD))
  {
    var ws := ChooseFrom(Busy(s0), MAX_ATTEMPTS);
    var s;
    schedule, s := LosersAndWinners(s0, Busy(s0) - ws, ws);
    OnlyWinners(s0, s, ws);
  }

  /** In the absence of faults every call is safe from raising if and only if at most five upload. */
  lemma SafeIffAtMostFive(s0: System)
    requires Init(s0)
    ensures |Busy(s0)| <= 5 <==>
      forall schedule, i :: 0 <= i < |s0.pubs| && Faultless(s0, schedule) ==> !Exec(s0, schedule).pubs[i].phase.Raised?
  {
    if |Busy(s0)| <= 5 {
      forall schedule, i | 0 <= i < |s0.pubs| && Faultless(s0, schedule)
        ensures !Exec(s0, schedule).pubs[i].phase.Raised?
      {
        forall j | 0 <= j < |s0.pubs| ensures ServedFresh(s0, schedule, j) && NoLostReply(s0, schedule, j) {
          FaultlessForEach(s0, schedule, j);
        }
        FewNeverRaise(s0, schedule, i);
      }
    } else {
      var i :| i in Busy(s0);
      var schedule := SixthCanStarve(s0, i);
    }
  }
}
