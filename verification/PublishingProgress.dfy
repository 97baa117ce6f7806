/**
  Who makes a call fail: without faults of its own, every conflict of a call is paid for by a commit
  that another publisher has landed since the attempt read the head.
*/
module PublishingProgress {
  import opened Common
  import opened Publishing
  import opened PublishingInvariant
  import opened PublishingTheorems
  import Sums

  // ----- Runs without faults

  /** The request is answered, and a read of the head returns the current one. */
  predicate FreshEvent(s: System, e: Event)
    requires Valid(s)
  {
    && e.reply.fate.Served?
    && (e.who < |s.pubs| && s.pubs[e.who].phase.ReadHead? ==> AnsweredHead(s.repo, e.reply.hint) == s.repo.head)
  }

  /** No request of publisher `i` meets a fault. */
  predicate ServedFresh(s: System, schedule: seq<Event>, i: nat)
    requires Valid(s)
  {
    schedule != [] ==>
      var front, e := schedule[..|schedule| - 1], schedule[|schedule| - 1];
      ServedFresh(s, front, i) && (e.who == i ==> FreshEvent(Exec(s, front), e))
  }

  /** No request of anybody meets a fault. */
  predicate Faultless(s: System, schedule: seq<Event>)
    requires Valid(s)
  {
    schedule != [] ==>
      var front, e := schedule[..|schedule| - 1], schedule[|schedule| - 1];
      Faultless(s, front) && FreshEvent(Exec(s, front), e)
  }

  lemma {:induction false} FaultlessForEach(s: System, schedule: seq<Event>, i: nat)
    requires Valid(s) && i < |s.pubs| && Faultless(s, schedule)
    ensures ServedFresh(s, schedule, i) && NoLostReply(s, schedule, i)
  {
    if schedule != [] { FaultlessForEach(s, schedule[..|schedule| - 1], i); }
  }

  // ----- What an attempt has seen

  /** The head on which the current attempt builds; before the read, the one it would get. */
  function Base(r: Repo, p: Publisher): Option<CommitId> {
    match p.phase
    case ReadHead => Some(r.head)
    case ReadTree(h) => Some(h)
    case MakeBlob(h, _, _, _) => Some(h)
    case MakeTree(h, _, _, _) => Some(h)
    case MakeCommit(h, _, _) => Some(h)
    case VerifyCommit(h, _, _, _) => Some(h)
    case UpdateRef(c, _) => if c < |r.log| then r.log[c].parent else None
    case _ => None
  }

  /** The commits of publishers other than `i` on the way to `c`. */
  function Foreign(log: seq<Commit>, c: CommitId, i: nat): set<CommitId>
    requires WellParented(log) && c < |log|
  {
    set a | a in Ancestors(log, c) && log[a].author.Some? && log[a].author != Some(i)
  }

  lemma ForeignGrows(log: seq<Commit>, b: CommitId, c: CommitId, i: nat)
    requires WellParented(log) && c < |log| && b in Ancestors(log, c)
    ensures Foreign(log, b, i) <= Foreign(log, c, i) && |Foreign(log, b, i)| <= |Foreign(log, c, i)|
  {
    AncestorsTransitive(log, b, c);
    Sums.SubsetSize(Foreign(log, b, i), Foreign(log, c, i));
  }

  /** `start` is the branch at the start of the run. */
  ghost predicate BranchFrom(start: set<CommitId>, r: Repo)
    requires ValidRepo(r)
  {
    start <= Branch(r) && forall c :: c in Branch(r) ==> c in start || r.log[c].author.Some?
  }

  /** Each failed attempt has been paid for before the current one began. */
  ghost predicate Paid(start: set<CommitId>, r: Repo, i: nat, p: Publisher)
    requires ValidRepo(r)
  {
    var b := Base(r, p);
    && p.lost == {}
    && p.attempt + (if p.phase.Raised? then 1 else 0) <= |Foreign(r.log, r.head, i)|
    && (p.phase.Raised? ==> p.attempt == MAX_ATTEMPTS - 1)
    && (b.Some? ==>
          && b.value in Branch(r) && b.value < |r.log| && start <= Ancestors(r.log, b.value)
          && p.attempt <= |Foreign(r.log, b.value, i)|)
  }

  // ----- A conflict is paid for

  /**
    When the call has met no fault of its own, the server refuses its commit only because somebody
    else's commit, now the head, has landed above the head on which the attempt had built.
  */
  lemma ConflictIsCharged(start: set<CommitId>, s: System, i: nat)
    requires Inv(s) && i < |s.pubs| && s.pubs[i].phase.UpdateRef?
    requires BranchFrom(start, s.repo) && Paid(start, s.repo, i, s.pubs[i])
    requires !FastForward(s.repo, s.pubs[i].phase.commit)
    ensures var h := s.repo.log[s.pubs[i].phase.commit].parent;
      && h.Some? && h.value in Branch(s.repo) && h.value < |s.repo.log|
      && s.repo.head in Foreign(s.repo.log, s.repo.head, i) - Foreign(s.repo.log, h.value, i)
      && |Foreign(s.repo.log, h.value, i)| < |Foreign(s.repo.log, s.repo.head, i)|
  {
    var p, c, head := s.pubs[i], s.pubs[i].phase.commit, s.repo.head;
    assert PublisherInv(s.repo, i, p) && CommitInv(s.repo, s.pubs, c);
    var h := s.repo.log[c].parent.value;
    FastForwardIsCompareAndSwap(s, c);
    assert head !in Ancestors(s.repo.log, h);
    assert s.repo.log[head].author != Some(i) by { assert Landed(s.repo, i) == {}; }
    ForeignGrows(s.repo.log, h, head, i);
    assert Foreign(s.repo.log, h, i) + {head} <= Foreign(s.repo.log, head, i);
    Sums.SubsetSize(Foreign(s.repo.log, h, i) + {head}, Foreign(s.repo.log, head, i));
  }

  // ----- Every step keeps it

  lemma ForeignAfter(r: Repo, who: nat, files: seq<File>, k: Change, i: nat)
    requires ValidRepo(r) && ChangeAllowed(r, who, files, k)
    ensures var r' := Apply(r, who, files, k);
      && Foreign(r.log, r.head, i) <= Foreign(r'.log, r'.head, i)
      && |Foreign(r.log, r.head, i)| <= |Foreign(r'.log, r'.head, i)|
  {
    var r' := Apply(r, who, files, k);
    BranchAfter(r, who, files, k);
    Sums.SubsetSize(Foreign(r.log, r.head, i), Foreign(r'.log, r'.head, i));
  }

  lemma ForeignKept(r: Repo, who: nat, files: seq<File>, k: Change, b: CommitId, i: nat)
    requires ValidRepo(r) && ChangeAllowed(r, who, files, k) && b < |r.log|
    ensures var r' := Apply(r, who, files, k);
      Ancestors(r'.log, b) == Ancestors(r.log, b) && Foreign(r'.log, b, i) == Foreign(r.log, b, i)
  {
    AncestorsGrow(r.log, Apply(r, who, files, k).log, b);
  }

  /** A change of the repository, by anyone, keeps what a publisher has paid for. */
  lemma ChangePaid(start: set<CommitId>, r: Repo, who: nat, files: seq<File>, k: Change, i: nat, p: Publisher)
    requires ValidRepo(r) && ChangeAllowed(r, who, files, k) && InRange(r, p)
    requires BranchFrom(start, r) && Paid(start, r, i, p)
    ensures var r' := Apply(r, who, files, k); BranchFrom(start, r') && Paid(start, r', i, p)
  {
    var r' := Apply(r, who, files, k);
    BranchAfter(r, who, files, k);
    ForeignAfter(r, who, files, k, i);
    var b := Base(r, p);
    if b.Some? { ForeignKept(r, who, files, k, b.value, i); }
  }

  /** Moving on within an attempt, still on the same head. */
  lemma SameBasePaid(start: set<CommitId>, r: Repo, i: nat, p: Publisher, p': Publisher)
    requires ValidRepo(r) && Paid(start, r, i, p) && Base(r, p) == Base(r, p') && !p.phase.Raised? && !p'.phase.Raised?
    requires p'.attempt == p.attempt && p'.lost == p.lost
    ensures Paid(start, r, i, p')
  {
  }

  lemma QuietPaid(start: set<CommitId>, r: Repo, i: nat, p: Publisher, hint: nat)
    requires ValidRepo(r) && InRange(r, p) && PublisherInv(r, i, p) && Paid(start, r, i, p)
    requires !Terminal(p.phase) && !p.phase.MakeCommit? && !p.phase.UpdateRef?
    requires p.phase.ReadHead? ==> AnsweredHead(r, hint) == r.head
    ensures Paid(start, r, i, React(p, QuietAnswer(r, p, hint)))
  {
    SameBasePaid(start, r, i, p, React(p, QuietAnswer(r, p, hint)));
  }

  lemma MakeCommitPaid(start: set<CommitId>, r: Repo, i: nat, p: Publisher, reply: Reply)
    requires ValidRepo(r) && InRange(r, p) && PublisherInv(r, i, p) && p.phase.MakeCommit? && reply.fate.Served?
    requires BranchFrom(start, r) && Paid(start, r, i, p)
    ensures var (r', p') := StepPublisher(r, i, p, reply); BranchFrom(start, r') && Paid(start, r', i, p')
  {
    var (r', p') := StepPublisher(r, i, p, reply);
    var k := MakeCommitKept(r, i, p, reply);
    ChangePaid(start, r, i, p.files, k, i, p);
    SameBasePaid(start, r', i, p, p');
  }

  /** A refused update ends the attempt and has been paid for. */
  lemma RefusedPaid(start: set<CommitId>, s: System, i: nat)
    requires Inv(s) && i < |s.pubs| && s.pubs[i].phase.UpdateRef?
    requires BranchFrom(start, s.repo) && Paid(start, s.repo, i, s.pubs[i])
    requires !FastForward(s.repo, s.pubs[i].phase.commit)
    ensures Paid(start, s.repo, i, ReactToError(s.pubs[i], NOT_FAST_FORWARD))
  {
    ConflictIsCharged(start, s, i);
    assert PublisherInv(s.repo, i, s.pubs[i]);
  }

  lemma UpdatePaid(start: set<CommitId>, s: System, i: nat, reply: Reply)
    requires Inv(s) && i < |s.pubs| && s.pubs[i].phase.UpdateRef? && reply.fate.Served?
    requires BranchFrom(start, s.repo) && Paid(start, s.repo, i, s.pubs[i])
    ensures var (r', p') := StepPublisher(s.repo, i, s.pubs[i], reply); BranchFrom(start, r') && Paid(start, r', i, p')
  {
    var p := s.pubs[i];
    UpdateReaction(s.repo, i, p, reply);
    if FastForward(s.repo, p.phase.commit) {
      var k := UpdateRefKept(s, i, reply);
      ChangePaid(start, s.repo, i, p.files, k, i, p);
    } else {
      RefusedPaid(start, s, i);
    }
  }

  lemma QuietStepPaid(start: set<CommitId>, r: Repo, i: nat, p: Publisher, reply: Reply)
    requires ValidRepo(r) && InRange(r, p) && PublisherInv(r, i, p) && BranchFrom(start, r) && Paid(start, r, i, p)
    requires !p.phase.MakeCommit? && !p.phase.UpdateRef? && reply.fate.Served?
    requires p.phase.ReadHead? ==> AnsweredHead(r, reply.hint) == r.head
    ensures var (r', p') := StepPublisher(r, i, p, reply); BranchFrom(start, r') && Paid(start, r', i, p')
  {
    if Terminal(p.phase) {
      FinishedStep(r, i, p, reply);
    } else {
      QuietReaction(r, i, p, reply);
      QuietPaid(start, r, i, p, reply.hint);
    }
  }

  lemma FinishedStep(r: Repo, i: nat, p: Publisher, reply: Reply)
    requires ValidRepo(r) && InRange(r, p) && Terminal(p.phase)
    ensures StepPublisher(r, i, p, reply) == (r, p)
  {
  }

  lemma OwnStepPaid(start: set<CommitId>, s: System, i: nat, reply: Reply)
    requires Inv(s) && i < |s.pubs| && FreshEvent(s, Event(i, reply))
    requires BranchFrom(start, s.repo) && Paid(start, s.repo, i, s.pubs[i])
    ensures var (r', p') := StepPublisher(s.repo, i, s.pubs[i], reply); BranchFrom(start, r') && Paid(start, r', i, p')
  {
    assert PublisherInv(s.repo, i, s.pubs[i]);
    if s.pubs[i].phase.UpdateRef? { UpdatePaid(start, s, i, reply); }
    else if s.pubs[i].phase.MakeCommit? { MakeCommitPaid(start, s.repo, i, s.pubs[i], reply); }
    else { QuietStepPaid(start, s.repo, i, s.pubs[i], reply); }
  }

  lemma StepPaid(start: set<CommitId>, s: System, e: Event, i: nat)
    requires Inv(s) && i < |s.pubs| && (e.who == i ==> FreshEvent(s, e))
    requires BranchFrom(start, s.repo) && Paid(start, s.repo, i, s.pubs[i])
    ensures BranchFrom(start, Step(s, e).repo) && Paid(start, Step(s, e).repo, i, Step(s, e).pubs[i])
  {
    if e.who == i {
      OwnStepPaid(start, s, i, e.reply);
    } else if e.who < |s.pubs| {
      var k := SenderKept(s, e.who, e.reply);
      ChangePaid(start, s.repo, e.who, s.pubs[e.who].files, k, i, s.pubs[i]);
    }
  }

  lemma {:induction false} RunPaid(s0: System, schedule: seq<Event>, i: nat)
    requires Init(s0) && i < |s0.pubs| && ServedFresh(s0, schedule, i)
    ensures var s := Exec(s0, schedule);
      BranchFrom(Branch(s0.repo), s.repo) && Paid(Branch(s0.repo), s.repo, i, s.pubs[i])
  {
    InitInv(s0);
    if schedule == [] {
      assert s0.pubs[i] == Launch(s0.pubs[i].files);
    } else {
      var front := schedule[..|schedule| - 1];
      RunPaid(s0, front, i);
      ExecKept(s0, front);
      StepPaid(Branch(s0.repo), Exec(s0, front), schedule[|schedule| - 1], i);
    }
  }

  /**
    A call whose own requests meet no fault has at most as many failed attempts as other publishers
    have commits on the branch since the start, whatever happens to those publishers; if it raises
    they have at least five.
  */
  lemma ConflictsArePaidFor(s0: System, schedule: seq<Event>, i: nat)
    requires Init(s0) && i < |s0.pubs| && ServedFresh(s0, schedule, i)
    ensures var s := Exec(s0, schedule); var foreign := Foreign(s.repo.log, s.repo.head, i);
      && s.pubs[i].attempt <= |foreign|
      && (s.pubs[i].phase.Raised? ==> 5 <= |foreign|)
      && foreign !! Branch(s0.repo)
  {
    RunPaid(s0, schedule, i);
    ForeignIsNew(s0, schedule, i);
  }

  lemma ForeignIsNew(s0: System, schedule: seq<Event>, i: nat)
    requires Init(s0) && i < |s0.pubs|
    ensures var s := Exec(s0, schedule); Foreign(s.repo.log, s.repo.head, i) !! Branch(s0.repo)
  {
    var s := Exec(s0, schedule);
    forall c | c in Branch(s0.repo) ensures s.repo.log[c].author.None? {
      assert s.repo.log[c] == s0.repo.log[c];
    }
  }

  // ----- How much the others can land

  /** The publishers that have something to upload. */
  function Busy(s: System): set<nat> {
    set j: nat | j < |s.pubs| && s.pubs[j].files != []
  }

  function Acknowledged(p: Publisher): CommitId {
    if p.phase.Succeeded? then p.phase.commit else 0
  }

  lemma {:induction false} ImageSize(xs: set<CommitId>, js: set<nat>, pubs: seq<Publisher>)
    requires forall c :: c in xs ==> exists j :: j in js && j < |pubs| && Acknowledged(pubs[j]) == c
    ensures |xs| <= |js|
    decreases |js|
  {
    if js == {} {
      assert xs == {};
    } else {
      var j :| j in js;
      var c := if j < |pubs| then Acknowledged(pubs[j]) else 0;
      ImageSize(xs - {c}, js - {j}, pubs);
      if c in xs { assert xs == xs - {c} + {c}; } else { assert xs == xs - {c}; }
    }
  }

  /** A commit of another publisher on the branch is the one its call returned. */
  lemma ForeignIsAcknowledged(s0: System, schedule: seq<Event>, i: nat, c: CommitId)
    requires Init(s0) && i < |s0.pubs|
    requires forall j :: 0 <= j < |s0.pubs| && j != i ==> NoLostReply(s0, schedule, j)
    requires var s := Exec(s0, schedule); c in Foreign(s.repo.log, s.repo.head, i)
    ensures exists j :: j in Busy(s0) - {i} && Acknowledged(Exec(s0, schedule).pubs[j]) == c
  {
    var s := Exec(s0, schedule);
    InitInv(s0);
    ExecKept(s0, schedule);
    assert CommitInv(s.repo, s.pubs, c);
    var j := s.repo.log[c].author.value;
    AllOrNothing(s0, schedule, j);
    assert c in Landed(s.repo, j);
    LandedAfter(s0, schedule, j);
  }

  lemma OthersLandAtMostOneEach(s0: System, schedule: seq<Event>, i: nat)
    requires Init(s0) && i < |s0.pubs|
    requires forall j :: 0 <= j < |s0.pubs| && j != i ==> NoLostReply(s0, schedule, j)
    ensures var s := Exec(s0, schedule); |Foreign(s.repo.log, s.repo.head, i)| <= |Busy(s0) - {i}|
  {
    var s := Exec(s0, schedule);
    forall c | c in Foreign(s.repo.log, s.repo.head, i)
      ensures exists j :: j in Busy(s0) - {i} && j < |s.pubs| && Acknowledged(s.pubs[j]) == c
    {
      ForeignIsAcknowledged(s0, schedule, i, c);
    }
    ImageSize(Foreign(s.repo.log, s.repo.head, i), Busy(s0) - {i}, s.pubs);
  }

  // ----- Few publishers always succeed

  lemma BusyRemoved(s: System, i: nat)
    requires i in Busy(s)
    ensures |Busy(s) - {i}| == |Busy(s)| - 1
  {
    assert Busy(s) == Busy(s) - {i} + {i};
  }

  lemma RaisedIsBusy(s0: System, schedule: seq<Event>, i: nat)
    requires Init(s0) && i < |s0.pubs| && Exec(s0, schedule).pubs[i].phase.Raised?
    ensures i in Busy(s0)
  {
    LandedAfter(s0, schedule, i);
  }

  /**
    Without faults of its own, and without lost replies of the others, a call needs at most as many
    attempts as there are publishers with something to upload; so with five of them it never raises.
  */
  lemma FewNeverRaise(s0: System, schedule: seq<Event>, i: nat)
    requires Init(s0) && i < |s0.pubs| && ServedFresh(s0, schedule, i)
    requires forall j :: 0 <= j < |s0.pubs| && j != i ==> NoLostReply(s0, schedule, j)
    ensures Exec(s0, schedule).pubs[i].attempt <= |Busy(s0) - {i}|
    ensures |Busy(s0)| <= 5 ==> !Exec(s0, schedule).pubs[i].phase.Raised?
  {
    var s := Exec(s0, schedule);
    ConflictsArePaidFor(s0, schedule, i);
    OthersLandAtMostOneEach(s0, schedule, i);
    if s.pubs[i].phase.Raised? {
      RaisedIsBusy(s0, schedule, i);
      BusyRemoved(s0, i);
    }
  }
}
