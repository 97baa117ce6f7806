/**
  What becomes of calls that meet no faults and have had their turns: how many turns suffice, that
  with at most five publishers all of them succeed, and that with more at least five do.
*/
module PublishingOutcome {
  import opened Common
  import opened Publishing
  import opened PublishingInvariant
  import opened PublishingTheorems
  import opened PublishingProgress
  import Sums

  // ----- The length of a call without faults

  /** The requests the current attempt still needs when all of them are answered. */
  function Remaining(p: Publisher): int {
    var f := |p.files|;
    match p.phase
    case ReadHead => 6 + f
    case ReadTree(_) => 5 + f
    case MakeBlob(_, _, items, _) => 4 + f - |items|
    case MakeTree(_, _, _, _) => 4
    case MakeCommit(_, _, _) => 3
    case VerifyCommit(_, _, _, _) => 2
    case UpdateRef(_, _) => 1
    case _ => 0
  }

  /** An answered request brings the attempt forward by one, or the update is refused. */
  lemma ServedStep(r: Repo, i: nat, p: Publisher, reply: Reply)
    requires ValidRepo(r) && InRange(r, p) && reply.fate.Served? && !Terminal(p.phase)
    ensures var p' := StepPublisher(r, i, p, reply).1;
      && p'.files == p.files && 1 <= Remaining(p)
      && (p.phase.UpdateRef? ==> p'.phase.Succeeded? || p' == AfterError(p, NOT_FAST_FORWARD))
      && (!p.phase.UpdateRef? ==> p'.attempt == p.attempt && Remaining(p') == Remaining(p) - 1)
  {
    if p.phase.UpdateRef? { UpdateReaction(r, i, p, reply); }
    else if p.phase.MakeCommit? { ServedCommit(r, i, p, reply); }
    else { QuietReaction(r, i, p, reply); }
  }

  lemma ServedCommit(r: Repo, i: nat, p: Publisher, reply: Reply)
    requires ValidRepo(r) && InRange(r, p) && reply.fate.Served? && p.phase.MakeCommit?
    ensures var p' := StepPublisher(r, i, p, reply).1;
      p'.files == p.files && p'.attempt == p.attempt && p'.phase.VerifyCommit?
  {
  }

  /** Whole attempts of 6 + files requests. */
  function Attempts(n: int, files: nat): int {
    n * (6 + files)
  }

  lemma OneAttemptMore(n: int, files: nat)
    ensures Attempts(n + 1, files) == Attempts(n, files) + 6 + files
  {
  }

  lemma ServedSpends(r: Repo, i: nat, p: Publisher, reply: Reply)
    requires ValidRepo(r) && InRange(r, p) && reply.fate.Served? && !Terminal(p.phase)
    ensures var p' := StepPublisher(r, i, p, reply).1;
      && p'.files == p.files
      && Attempts(p'.attempt + 1, |p.files|) - Remaining(p') >= Attempts(p.attempt + 1, |p.files|) - Remaining(p) + 1
  {
    ServedStep(r, i, p, reply);
    OneAttemptMore(p.attempt + 1, |p.files|);
  }

  /** `n` requests are within the attempts begun so far. */
  predicate InBudget(n: nat, p: Publisher) {
    n <= Attempts(p.attempt + 1, |p.files|) - Remaining(p)
  }

  lemma BudgetKept(s: System, e: Event, i: nat, n: nat)
    requires Valid(s) && i < |s.pubs| && InBudget(n, s.pubs[i]) && (e.who == i ==> e.reply.fate.Served?)
    ensures InBudget(n + if e.who == i && !Terminal(s.pubs[i].phase) then 1 else 0, Step(s, e).pubs[i])
  {
    if e.who == i && !Terminal(s.pubs[i].phase) {
      ServedSpends(s.repo, i, s.pubs[i], e.reply);
    } else {
      FinishedStays(s, e, i);
    }
  }

  lemma NothingSpent(p: Publisher, s0: System, i: nat)
    requires Init(s0) && i < |s0.pubs| && p == s0.pubs[i]
    ensures InBudget(0, p)
  {
    assert p == Launch(p.files);
    OneAttemptMore(0, |p.files|);
  }

  /** Without faults a call makes 6 + files requests in each attempt, and no others. */
  lemma {:induction false} RequestsInAttempts(s0: System, schedule: seq<Event>, i: nat)
    requires Init(s0) && i in Busy(s0) && ServedFresh(s0, schedule, i)
    ensures InBudget(RequestsMade(s0, schedule, i), Exec(s0, schedule).pubs[i])
  {
    if schedule == [] {
      NothingSpent(s0.pubs[i], s0, i);
    } else {
      var front, e := schedule[..|schedule| - 1], schedule[|schedule| - 1];
      RequestsInAttempts(s0, front, i);
      BudgetKept(Exec(s0, front), e, i, RequestsMade(s0, front, i));
    }
  }

  lemma RunningRemains(r: Repo, p: Publisher)
    requires InRange(r, p) && !Terminal(p.phase)
    ensures Remaining(p) >= 1
  {
  }

  /** With `n` attempts to make, a call is over after `n` times 6 + files turns. */
  lemma OverAfterAttempts(s0: System, schedule: seq<Event>, i: nat, n: nat)
    requires Init(s0) && i in Busy(s0) && ServedFresh(s0, schedule, i)
    requires Exec(s0, schedule).pubs[i].attempt < n && Turns(schedule, i) >= Attempts(n, |s0.pubs[i].files|)
    ensures Terminal(Exec(s0, schedule).pubs[i].phase)
  {
    var s := Exec(s0, schedule);
    if !Terminal(s.pubs[i].phase) {
      RunningUsesTurns(s0, schedule, i);
      RequestsInAttempts(s0, schedule, i);
      RunningRemains(s.repo, s.pubs[i]);
      Sums.ScaleUp(s.pubs[i].attempt + 1, n, 6 + |s0.pubs[i].files|);
      assert false;
    }
  }

  /** A call without faults of its own is over after at most five times 6 + files turns. */
  lemma ServedCallsTerminate(s0: System, schedule: seq<Event>, i: nat)
    requires Init(s0) && i in Busy(s0) && ServedFresh(s0, schedule, i)
    requires Turns(schedule, i) >= Attempts(5, |s0.pubs[i].files|)
    ensures var phase := Exec(s0, schedule).pubs[i].phase; phase.Succeeded? || phase.Raised?
  {
    LandedAfter(s0, schedule, i);
    OverAfterAttempts(s0, schedule, i, MAX_ATTEMPTS);
  }

  // ----- Few publishers succeed

  /**
    With at most five publishers that have something to upload, a call without faults of its own has
    succeeded once it has had 6 + files turns for each of them, if no reply of the others is lost.
  */
  lemma FewSucceed(s0: System, schedule: seq<Event>, i: nat)
    requires Init(s0) && i in Busy(s0) && |Busy(s0)| <= 5 && ServedFresh(s0, schedule, i)
    requires forall j :: 0 <= j < |s0.pubs| && j != i ==> NoLostReply(s0, schedule, j)
    requires Turns(schedule, i) >= Attempts(|Busy(s0)|, |s0.pubs[i].files|)
    ensures Exec(s0, schedule).pubs[i].phase.Succeeded?
  {
    FewNeverRaise(s0, schedule, i);
    BusyRemoved(s0, i);
    OverAfterAttempts(s0, schedule, i, |Busy(s0)|);
    LandedAfter(s0, schedule, i);
  }

  // ----- Many publishers: five succeed

  function Winners(s: System): set<nat> {
    set j: nat | j < |s.pubs| && s.pubs[j].phase.Succeeded?
  }

  /** Everybody has had the turns of five attempts. */
  ghost predicate AllHadTurns(s0: System, schedule: seq<Event>) {
    forall j :: j in Busy(s0) ==> Turns(schedule, j) >= Attempts(5, |s0.pubs[j].files|)
  }

  /** Who raises has been overtaken by five publishers that have succeeded. */
  lemma RaisedSawWinners(s0: System, schedule: seq<Event>, i: nat)
    requires Init(s0) && i < |s0.pubs| && Faultless(s0, schedule) && Exec(s0, schedule).pubs[i].phase.Raised?
    ensures |Winners(Exec(s0, schedule))| >= MAX_ATTEMPTS
  {
    var s := Exec(s0, schedule);
    var foreign := Foreign(s.repo.log, s.repo.head, i);
    forall j | 0 <= j < |s0.pubs| ensures ServedFresh(s0, schedule, j) && NoLostReply(s0, schedule, j) {
      FaultlessForEach(s0, schedule, j);
    }
    ConflictsArePaidFor(s0, schedule, i);
    forall c | c in foreign ensures exists j :: j in Winners(s) && j < |s.pubs| && Acknowledged(s.pubs[j]) == c {
      ForeignHasWinner(s0, schedule, i, c);
    }
    ImageSize(foreign, Winners(s), s.pubs);
  }

  lemma ForeignHasWinner(s0: System, schedule: seq<Event>, i: nat, c: CommitId)
    requires Init(s0) && i < |s0.pubs|
    requires forall j :: 0 <= j < |s0.pubs| ==> NoLostReply(s0, schedule, j)
    requires var s := Exec(s0, schedule); c in Foreign(s.repo.log, s.repo.head, i)
    ensures var s := Exec(s0, schedule); exists j :: j in Winners(s) && Acknowledged(s.pubs[j]) == c
  {
    var s := Exec(s0, schedule);
    InitInv(s0);
    ExecKept(s0, schedule);
    assert CommitInv(s.repo, s.pubs, c);
    var j := s.repo.log[c].author.value;
    AllOrNothing(s0, schedule, j);
    assert c in Landed(s.repo, j);
    assert j in Winners(s);
  }

  /**
    When nothing goes wrong and all have had their turns, everybody succeeds, or at least five do:
    contention alone never makes a group of publishers fail.
  */
  lemma FiveOrAllSucceed(s0: System, schedule: seq<Event>)
    requires Init(s0) && Faultless(s0, schedule) && AllHadTurns(s0, schedule)
    ensures var winners := Winners(Exec(s0, schedule));
      && winners <= Busy(s0)
      && |winners| >= Min(5, |Busy(s0)|)
      && (|Busy(s0)| <= 5 ==> winners == Busy(s0))
  {
    var s := Exec(s0, schedule);
    forall j | j in Winners(s) ensures j in Busy(s0) { LandedAfter(s0, schedule, j); }
    if i: nat :| i < |s.pubs| && s.pubs[i].phase.Raised? {
      RaisedSawWinners(s0, schedule, i);
    } else {
      forall j | j in Busy(s0) ensures j in Winners(s) {
        FaultlessForEach(s0, schedule, j);
        ServedCallsTerminate(s0, schedule, j);
      }
      assert Winners(s) == Busy(s0);
    }
    Sums.SubsetSize(Winners(s), Busy(s0));
  }

  // ----- Such schedules exist

  lemma OneMoreTurn(s0: System, schedule: seq<Event>, i: nat) returns (schedule': seq<Event>)
    requires Valid(s0) && Faultless(s0, schedule)
    ensures Faultless(s0, schedule')
    ensures forall j :: Turns(schedule', j) == Turns(schedule, j) + if i == j then 1 else 0
  {
    var e := Event(i, Reply(Served, Exec(s0, schedule).repo.head));
    schedule' := schedule + [e];
    assert schedule'[..|schedule|] == schedule;
  }

  lemma {:induction false} MoreTurns(s0: System, schedule: seq<Event>, i: nat, n: nat) returns (schedule': seq<Event>)
    requires Valid(s0) && Faultless(s0, schedule)
    ensures Faultless(s0, schedule')
    ensures forall j :: Turns(schedule', j) == Turns(schedule, j) + if i == j then n else 0
    decreases n
  {
    schedule' := schedule;
    if n > 0 {
      var next := OneMoreTurn(s0, schedule, i);
      schedule' := MoreTurns(s0, next, i, n - 1);
    }
  }

  lemma {:induction false} TurnsForFirst(s0: System, k: nat) returns (schedule: seq<Event>)
    requires Valid(s0) && k <= |s0.pubs|
    ensures Faultless(s0, schedule)
    ensures forall j :: 0 <= j < k ==> Turns(schedule, j) >= Attempts(5, |s0.pubs[j].files|)
    decreases k
  {
    schedule := [];
    if k > 0 {
      var rest := TurnsForFirst(s0, k - 1);
      schedule := MoreTurns(s0, rest, k - 1, Attempts(MAX_ATTEMPTS, |s0.pubs[k - 1].files|));
    }
  }

  /** From every start there is a run without faults in which all have had their turns. */
  lemma AllCanHaveTurns(s0: System) returns (schedule: seq<Event>)
    requires Init(s0)
    ensures Faultless(s0, schedule) && AllHadTurns(s0, schedule)
  {
    schedule := TurnsForFirst(s0, |s0.pubs|);
  }
}
