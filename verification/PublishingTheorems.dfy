/** The properties of whole runs of the publishing protocol. */
module PublishingTheorems {
  import opened Common
  import opened Publishing
  import opened PublishingInvariant

  // ----- What a commit contains

  function Lookup(t: Tree, path: Path): Option<Content> {
    if path in t then Some(t[path]) else None
  }

  predicate Writes(files: seq<File>, path: Path) {
    exists k :: 0 <= k < |files| && files[k].path == path
  }

  /** File `k` is the last one given for `path`. */
  predicate LastWrite(files: seq<File>, path: Path, k: int) {
    0 <= k < |files| && files[k].path == path && forall m :: k < m < |files| ==> files[m].path != path
  }

  lemma {:induction false} UnwrittenKept(base: Tree, files: seq<File>, path: Path)
    requires !Writes(files, path)
    ensures Lookup(Overlay(base, files), path) == Lookup(base, path)
  {
    if files != [] {
      var front := files[..|files| - 1];
      assert files[|files| - 1].path != path;
      forall k | 0 <= k < |front| ensures front[k].path != path { assert files[k].path != path; }
      UnwrittenKept(base, front, path);
    }
  }

  lemma {:induction false} WrittenFound(base: Tree, files: seq<File>, path: Path, k: int)
    requires LastWrite(files, path, k)
    ensures Lookup(Overlay(base, files), path) == Some(files[k].content)
  {
    if k < |files| - 1 { WrittenFound(base, files[..|files| - 1], path, k); }
  }

  lemma {:induction false} LastWriteExists(files: seq<File>, path: Path) returns (k: int)
    requires Writes(files, path)
    ensures LastWrite(files, path, k)
  {
    k := |files| - 1;
    if files[k].path != path {
      var j :| 0 <= j < |files| && files[j].path == path;
      assert files[..k][j].path == path;
      k := LastWriteExists(files[..k], path);
    }
  }

  /** The overlay holds the last content given for each uploaded path and keeps every other path. */
  lemma OverlayLookup(base: Tree, files: seq<File>, path: Path)
    ensures !Writes(files, path) ==> Lookup(Overlay(base, files), path) == Lookup(base, path)
    ensures Writes(files, path) ==>
      exists k :: LastWrite(files, path, k) && Lookup(Overlay(base, files), path) == Some(files[k].content)
  {
    if Writes(files, path) {
      var k := LastWriteExists(files, path);
      WrittenFound(base, files, path, k);
    } else {
      UnwrittenKept(base, files, path);
    }
  }

  /** Commit `d` is above `c` on the way to `h` and its publisher uploaded `path`. */
  predicate RewrittenBy(s: System, c: CommitId, h: CommitId, path: Path, d: CommitId)
    requires Valid(s) && h < |s.repo.log|
  {
    && d in Ancestors(s.repo.log, h) && d != c && c in Ancestors(s.repo.log, d)
    && s.repo.log[d].author.Some? && s.repo.log[d].author.value < |s.pubs|
    && Writes(s.pubs[s.repo.log[d].author.value].files, path)
  }

  lemma {:induction false} PathKept(s: System, c: CommitId, h: CommitId, path: Path)
    requires Inv(s) && h < |s.repo.log| && c in Ancestors(s.repo.log, h)
    requires s.repo.log[c].author.Some?
    ensures Lookup(s.repo.log[h].tree, path) == Lookup(s.repo.log[c].tree, path)
      || exists d :: RewrittenBy(s, c, h, path, d)
    decreases h
  {
    if h != c {
      assert CommitInv(s.repo, s.pubs, h);
      var par, author := s.repo.log[h].parent.value, s.repo.log[h].author.value;
      if Writes(s.pubs[author].files, path) {
        assert RewrittenBy(s, c, h, path, h);
      } else {
        OverlayLookup(s.repo.log[par].tree, s.pubs[author].files, path);
        PathKept(s, c, par, path);
        if exists d :: RewrittenBy(s, c, par, path, d) {
          var d :| RewrittenBy(s, c, par, path, d);
          assert RewrittenBy(s, c, h, path, d);
        }
      }
    }
  }

  // ----- No lost update

  lemma {:induction false} SuccessIsFinal(s: System, schedule: seq<Event>, i: nat)
    requires Inv(s) && i < |s.pubs| && Terminal(s.pubs[i].phase)
    ensures Exec(s, schedule).pubs[i] == s.pubs[i]
  {
    if schedule != [] { SuccessIsFinal(s, schedule[..|schedule| - 1], i); }
  }

  /**
    Once a publish has returned, its commit is on the branch for ever, and at every later head
    each uploaded path holds the uploaded content unless a later commit of the branch wrote it.
  */
  lemma NoLostUpdate(s0: System, before: seq<Event>, after: seq<Event>, i: nat, path: Path)
    requires Init(s0) && i < |s0.pubs|
    requires Exec(s0, before).pubs[i].phase.Succeeded?
    requires Writes(s0.pubs[i].files, path)
    ensures var c := Exec(s0, before).pubs[i].phase.commit;
      var s := Exec(Exec(s0, before), after);
      && c in Branch(s.repo)
      && ((exists k :: LastWrite(s0.pubs[i].files, path, k)
                       && Lookup(s.repo.log[s.repo.head].tree, path) == Some(s0.pubs[i].files[k].content))
          || exists d :: RewrittenBy(s, c, s.repo.head, path, d))
  {
    InitInv(s0);
    ExecKept(s0, before);
    var s1 := Exec(s0, before);
    ExecKept(s1, after);
    var s := Exec(s1, after);
    SuccessIsFinal(s1, after, i);
    var c := s1.pubs[i].phase.commit;
    assert PublisherInv(s.repo, i, s.pubs[i]);
    assert c in Landed(s.repo, i);
    PathKept(s, c, s.repo.head, path);
    assert CommitInv(s.repo, s.pubs, c);
    OverlayLookup(s.repo.log[s.repo.log[c].parent.value].tree, s.pubs[i].files, path);
  }

  // ----- How many commits one call lands

  lemma {:induction false} SizeAtMost(xs: set<CommitId>, ys: seq<CommitId>)
    requires forall x :: x in xs ==> x in ys
    ensures |xs| <= |ys|
  {
    if ys != [] {
      var y := ys[|ys| - 1];
      SizeAtMost(xs - {y}, ys[..|ys| - 1]);
      if y in xs { assert xs == xs - {y} + {y}; }
      else { assert xs == xs - {y}; }
    } else {
      assert xs == {};
    }
  }

  /** From the invariant to the count. */
  lemma LandedCount(landed: set<CommitId>, p: Publisher)
    requires HistoryInv(p) && landed == p.lost + (if p.phase.Succeeded? then {p.phase.commit} else {})
    requires p.phase.Succeeded? ==> p.phase.commit in p.offered
    ensures |landed| <= p.attempt + 1 <= MAX_ATTEMPTS
    ensures p.phase.Succeeded? ==> 1 <= |landed| && (|landed| == 1 <==> p.lost <= {p.phase.commit})
  {
    SizeAtMost(landed, p.offered);
    if p.phase.Succeeded? {
      var c := p.phase.commit;
      assert landed == {c} + (landed - {c});
      if p.lost <= {c} { assert landed == {c}; }
    }
  }

  /**
    A call lands at most five commits, one per attempt, at least one when it returns, and the
    commits it lands are exactly the acknowledged one and those whose reply was lost. So a
    returned call landed exactly one commit if and only if no reply was lost except on that
    commit, and a call that raised landed none if and only if no reply was lost at all.
  */
  lemma LandingIsBounded(s0: System, schedule: seq<Event>, i: nat)
    requires Init(s0) && i < |s0.pubs|
    ensures var s := Exec(s0, schedule); var p := s.pubs[i]; var landed := Landed(s.repo, i);
      && |landed| <= p.attempt + 1 <= 5
      && (p.phase.Succeeded? ==> 1 <= |landed| && p.phase.commit in landed)
      && (p.phase.Succeeded? ==> (|landed| == 1 <==> p.lost <= {p.phase.commit}))
      && (!p.phase.Succeeded? ==> (landed == {} <==> p.lost == {}))
      && (p.phase.NothingToDo? ==> landed == {})
  {
    LandedAfter(s0, schedule, i);
    SucceededWasOffered(s0, schedule, i);
    LandedCount(Landed(Exec(s0, schedule).repo, i), Exec(s0, schedule).pubs[i]);
  }

  lemma SucceededWasOffered(s0: System, schedule: seq<Event>, i: nat)
    requires Init(s0) && i < |s0.pubs|
    ensures var p := Exec(s0, schedule).pubs[i]; p.phase.Succeeded? ==> p.phase.commit in p.offered
  {
    InitInv(s0);
    ExecKept(s0, schedule);
    assert PublisherInv(Exec(s0, schedule).repo, i, Exec(s0, schedule).pubs[i]);
  }

  /** A schedule in which no ref update of publisher `i` takes effect behind an error reply. */
  predicate NoLostReply(s: System, schedule: seq<Event>, i: nat)
    requires Valid(s) && i < |s.pubs|
  {
    schedule != [] ==>
      var front, e := schedule[..|schedule| - 1], schedule[|schedule| - 1];
      && NoLostReply(s, front, i)
      && (e.who == i && Exec(s, front).pubs[i].phase.UpdateRef? ==> !e.reply.fate.Lost?)
  }

  lemma StepLosesNothing(s: System, e: Event, i: nat)
    requires Valid(s) && i < |s.pubs| && s.pubs[i].lost == {}
    requires e.who == i && s.pubs[i].phase.UpdateRef? ==> !e.reply.fate.Lost?
    ensures Step(s, e).pubs[i].lost == {}
  {
  }

  lemma {:induction false} NothingLost(s: System, schedule: seq<Event>, i: nat)
    requires Valid(s) && i < |s.pubs| && s.pubs[i].lost == {} && NoLostReply(s, schedule, i)
    ensures Exec(s, schedule).pubs[i].lost == {}
  {
    if schedule != [] {
      var front := schedule[..|schedule| - 1];
      NothingLost(s, front, i);
      StepLosesNothing(Exec(s, front), schedule[|schedule| - 1], i);
    }
  }

  /** All or nothing when replies are not lost: returning lands one commit, raising lands none. */
  lemma AllOrNothing(s0: System, schedule: seq<Event>, i: nat)
    requires Init(s0) && i < |s0.pubs| && NoLostReply(s0, schedule, i)
    ensures var s := Exec(s0, schedule);
      Landed(s.repo, i) == if s.pubs[i].phase.Succeeded? then {s.pubs[i].phase.commit} else {}
  {
    assert s0.pubs[i] == Launch(s0.pubs[i].files);
    NothingLost(s0, schedule, i);
    LandedAfter(s0, schedule, i);
  }

  // ----- Termination

  /** The requests one attempt can make: two reads, blobs, tree, commits with verification, ref. */
  function AttemptCost(files: nat): nat {
    2 + MAX_TRIES * files + MAX_TRIES + 2 * MAX_TRIES + MAX_TRIES
  }

  function PhaseCost(p: Publisher): int {
    var f := |p.files|;
    match p.phase
    case ReadHead => AttemptCost(f)
    case ReadTree(_) => AttemptCost(f) - 1
    case MakeBlob(_, _, items, tries) => 12 + 3 * (f - |items|) - tries
    case MakeTree(_, _, _, tries) => 12 - tries
    case MakeCommit(_, _, tries) => 9 - 2 * tries
    case VerifyCommit(_, _, _, tries) => 8 - 2 * tries
    case UpdateRef(_, tries) => 3 - tries
    case _ => 0
  }

  /** An upper bound on the requests the publisher will still make. */
  function Rank(p: Publisher): int {
    if Terminal(p.phase) then 0
    else (MAX_ATTEMPTS - 1 - p.attempt) * AttemptCost(|p.files|) + PhaseCost(p)
  }

  predicate TriesInRange(p: Publisher) {
    && p.attempt < MAX_ATTEMPTS
    && (p.phase.MakeBlob? ==> p.phase.tries < MAX_TRIES && |p.phase.items| < |p.files|)
    && (p.phase.MakeTree? ==> p.phase.tries < MAX_TRIES)
    && (p.phase.MakeCommit? ==> p.phase.tries < MAX_TRIES)
    && (p.phase.VerifyCommit? ==> p.phase.tries < MAX_TRIES)
    && (p.phase.UpdateRef? ==> p.phase.tries < MAX_TRIES)
  }

  lemma ErrorSpendsAttempt(p: Publisher, e: Error)
    requires p.attempt < MAX_ATTEMPTS
    ensures var p' := AfterError(p, e);
      TriesInRange(p') && 0 <= Rank(p') <= (MAX_ATTEMPTS - 1 - p.attempt) * AttemptCost(|p.files|)
  {
    var a, k := AttemptCost(|p.files|), MAX_ATTEMPTS - 1 - p.attempt;
    assert k * a == (k - 1) * a + a;
    assert k >= 1 ==> (k - 1) * a >= 0;
  }

  /** Within an attempt the phase cost falls; otherwise the attempt is spent. */
  lemma StepSpends(r: Repo, who: nat, p: Publisher, reply: Reply)
    requires ValidRepo(r) && InRange(r, p) && TriesInRange(p) && !Terminal(p.phase)
    ensures 0 < PhaseCost(p)
    ensures var p' := StepPublisher(r, who, p, reply).1;
      || (exists e, lost :: p' == AfterError(p.(lost := lost), e))
      || (TriesInRange(p') && p'.attempt == p.attempt && 0 <= PhaseCost(p') < PhaseCost(p))
  {
    var (_, response) := Serve(r, who, Pending(p), reply);
    var p' := StepPublisher(r, who, p, reply).1;
    if response.Failure? && React(p, response) == AfterError(p, response.error) {
      assert p' == AfterError(p.(lost := p'.lost), response.error);
    }
  }

  /** The attempts not yet begun have a cost that is not negative. */
  lemma AttemptsLeft(p: Publisher)
    requires p.attempt < MAX_ATTEMPTS
    ensures 0 <= (MAX_ATTEMPTS - 1 - p.attempt) * AttemptCost(|p.files|)
  {
  }

  lemma RankDecreases(r: Repo, who: nat, p: Publisher, reply: Reply)
    requires ValidRepo(r) && InRange(r, p) && TriesInRange(p)
    ensures var p' := StepPublisher(r, who, p, reply).1;
      TriesInRange(p') && 0 <= Rank(p') && (Terminal(p.phase) || Rank(p') < Rank(p))
  {
    if !Terminal(p.phase) {
      StepSpends(r, who, p, reply);
      var p' := StepPublisher(r, who, p, reply).1;
      AttemptsLeft(p);
      if e, lost :| p' == AfterError(p.(lost := lost), e) {
        ErrorSpendsAttempt(p.(lost := lost), e);
      }
    }
  }

  /** The steps publisher `i` takes while it is still running. */
  function RequestsMade(s: System, schedule: seq<Event>, i: nat): nat
    requires Valid(s) && i < |s.pubs|
  {
    if schedule == [] then 0
    else
      var front := schedule[..|schedule| - 1];
      RequestsMade(s, front, i)
        + (if schedule[|schedule| - 1].who == i && !Terminal(Exec(s, front).pubs[i].phase) then 1 else 0)
  }

  lemma {:induction false} RequestsSpendRank(s: System, schedule: seq<Event>, i: nat)
    requires Valid(s) && i < |s.pubs| && TriesInRange(s.pubs[i]) && 0 <= Rank(s.pubs[i])
    ensures TriesInRange(Exec(s, schedule).pubs[i]) && 0 <= Rank(Exec(s, schedule).pubs[i])
    ensures RequestsMade(s, schedule, i) + Rank(Exec(s, schedule).pubs[i]) <= Rank(s.pubs[i])
  {
    if schedule != [] {
      var front, e := schedule[..|schedule| - 1], schedule[|schedule| - 1];
      RequestsSpendRank(s, front, i);
      if e.who == i {
        var m := Exec(s, front);
        RankDecreases(m.repo, i, m.pubs[i], e.reply);
      }
    }
  }

  /** The turns the schedule gives publisher `i`. */
  function Turns(schedule: seq<Event>, i: nat): nat {
    if schedule == [] then 0
    else Turns(schedule[..|schedule| - 1], i) + if schedule[|schedule| - 1].who == i then 1 else 0
  }

  /** A call that is still running has used every turn for a request. */
  lemma {:induction false} RunningUsesTurns(s: System, schedule: seq<Event>, i: nat)
    requires Valid(s) && i < |s.pubs| && !Terminal(Exec(s, schedule).pubs[i].phase)
    ensures RequestsMade(s, schedule, i) == Turns(schedule, i)
  {
    if schedule != [] {
      var front, e := schedule[..|schedule| - 1], schedule[|schedule| - 1];
      FinishedStays(Exec(s, front), e, i);
      RunningUsesTurns(s, front, i);
    }
  }

  lemma FinishedStays(s: System, e: Event, i: nat)
    requires Valid(s) && i < |s.pubs|
    ensures Terminal(s.pubs[i].phase) ==> Step(s, e).pubs[i] == s.pubs[i]
  {
  }

  /**
    Every call terminates: in any schedule it makes at most 5 * (14 + 3 * files) requests, and
    once the schedule has given it that many turns it has returned or raised.
  */
  lemma CallsTerminate(s0: System, schedule: seq<Event>, i: nat)
    requires Init(s0) && i < |s0.pubs|
    ensures RequestsMade(s0, schedule, i) <= 5 * (14 + 3 * |s0.pubs[i].files|)
    ensures Turns(schedule, i) >= 5 * (14 + 3 * |s0.pubs[i].files|) ==> Terminal(Exec(s0, schedule).pubs[i].phase)
  {
    assert s0.pubs[i] == Launch(s0.pubs[i].files);
    RequestsSpendRank(s0, schedule, i);
    var p := Exec(s0, schedule).pubs[i];
    if !Terminal(p.phase) {
      RankPositive(p, Exec(s0, schedule).repo);
      RunningUsesTurns(s0, schedule, i);
    }
  }

  lemma RankPositive(p: Publisher, r: Repo)
    requires InRange(r, p) && TriesInRange(p) && !Terminal(p.phase)
    ensures 0 < Rank(p)
  {
    AttemptsLeft(p);
  }
}
