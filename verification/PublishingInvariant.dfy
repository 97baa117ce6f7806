/** What every step of every publisher keeps, whatever the interleaving and the faults. */
module PublishingInvariant {
  import opened Common
  import opened Publishing

  // ----- Reachability

  lemma {:induction false} AncestorsGrow(log: seq<Commit>, log': seq<Commit>, c: CommitId)
    requires WellParented(log) && WellParented(log') && log <= log' && c < |log|
    ensures Ancestors(log', c) == Ancestors(log, c)
    decreases c
  {
    assert log'[c] == log[c];
    if log[c].parent.Some? { AncestorsGrow(log, log', log[c].parent.value); }
  }

  lemma {:induction false} AncestorsTransitive(log: seq<Commit>, b: CommitId, c: CommitId)
    requires WellParented(log) && c < |log| && b in Ancestors(log, c)
    ensures Ancestors(log, b) <= Ancestors(log, c)
    decreases c
  {
    if b != c { AncestorsTransitive(log, b, log[c].parent.value); }
  }

  // ----- The invariant

  /** The commits of the branch. */
  function Branch(r: Repo): (b: set<CommitId>)
    requires ValidRepo(r)
    ensures r.head in b && forall c :: c in b ==> c <= r.head
  {
    Ancestors(r.log, r.head)
  }

  /** The commits of publisher `i` that are on the branch. */
  function Landed(r: Repo, i: nat): set<CommitId>
    requires ValidRepo(r)
  {
    set c | c in Branch(r) && r.log[c].author == Some(i)
  }

  /** A published commit overlays its publisher's files on its parent, which was once the head. */
  predicate CommitInv(r: Repo, pubs: seq<Publisher>, c: CommitId)
    requires ValidRepo(r) && c < |r.log|
  {
    r.log[c].author.Some? ==>
      && r.log[c].author.value < |pubs|
      && r.log[c].parent.Some?
      && r.log[c].parent.value in Branch(r)
      && r.log[c].tree ==
           Overlay(r.log[r.log[c].parent.value].tree, pubs[r.log[c].author.value].files)
  }

  /** What a publisher knows in each phase. */
  predicate PhaseInv(r: Repo, i: nat, p: Publisher)
    requires ValidRepo(r) && InRange(r, p)
  {
    match p.phase
    case ReadTree(h) => h in Branch(r)
    case MakeBlob(h, base, items, _) =>
      h in Branch(r) && base == r.log[h].tree && items == p.files[..|items|]
    case MakeTree(h, base, items, _) => h in Branch(r) && base == r.log[h].tree && items == p.files
    case MakeCommit(h, tree, _) => h in Branch(r) && tree == Overlay(r.log[h].tree, p.files)
    case VerifyCommit(h, tree, c, _) =>
      && h in Branch(r) && tree == Overlay(r.log[h].tree, p.files)
      && r.log[c] == Commit(Some(h), tree, Some(i))
    case UpdateRef(c, _) => r.log[c].author == Some(i) && p.offered != [] && p.offered[|p.offered| - 1] == c
    case Succeeded(c) => c in Branch(r) && p.offered != [] && p.offered[|p.offered| - 1] == c
    case _ => true
  }

  /** One commit is offered per attempt, and a retryable error is raised only by the last one. */
  predicate HistoryInv(p: Publisher) {
    && p.attempt < MAX_ATTEMPTS
    && |p.offered| <= p.attempt + (if p.phase.UpdateRef? || Terminal(p.phase) then 1 else 0)
    && (forall c :: c in p.lost ==> c in p.offered)
    && (p.phase.NothingToDo? <==> p.files == [])
    && (p.phase.NothingToDo? ==> p.lost == {})
    && (p.phase.Raised? && Retryable(p.phase.error) ==> p.attempt == MAX_ATTEMPTS - 1)
  }

  /** The commits on the branch are exactly the acknowledged one and those whose reply was lost. */
  predicate LandedInv(r: Repo, i: nat, p: Publisher)
    requires ValidRepo(r)
  {
    Landed(r, i) == p.lost + (if p.phase.Succeeded? then {p.phase.commit} else {})
  }

  predicate PublisherInv(r: Repo, i: nat, p: Publisher)
    requires ValidRepo(r) && InRange(r, p)
  {
    PhaseInv(r, i, p) && HistoryInv(p) && LandedInv(r, i, p)
  }

  /** Published commits are younger than the history the run started from. */
  predicate RecentInv(log: seq<Commit>) {
    forall c, d :: 0 <= c < d < |log| && log[c].author.Some? ==> log[d].author.Some?
  }

  ghost predicate Inv(s: System) {
    && Valid(s)
    && RecentInv(s.repo.log)
    && (forall c :: 0 <= c < |s.repo.log| ==> CommitInv(s.repo, s.pubs, c))
    && (forall i :: 0 <= i < |s.pubs| ==> PublisherInv(s.repo, i, s.pubs[i]))
  }

  // ----- The fast-forward rule is a compare-and-swap

  /**
    Because a publisher's commit has a former head as its parent, the server accepts it exactly
    when the head is still that parent, or is the commit itself.
  */
  lemma FastForwardIsCompareAndSwap(s: System, c: CommitId)
    requires Inv(s) && c < |s.repo.log| && s.repo.log[c].author.Some?
    ensures s.repo.log[c].parent.Some?
    ensures FastForward(s.repo, c)
      <==> s.repo.head == c || s.repo.head == s.repo.log[c].parent.value
  {
    assert CommitInv(s.repo, s.pubs, c);
    var par := s.repo.log[c].parent.value;
    assert Ancestors(s.repo.log, c) == {c} + Ancestors(s.repo.log, par);
  }

  // ----- How the repository changes in one step

  datatype Change = Unchanged | Created(commit: Commit) | Advanced(to: CommitId)

  predicate ChangeAllowed(r: Repo, who: nat, files: seq<File>, k: Change)
    requires ValidRepo(r)
  {
    match k
    case Unchanged => true
    case Created(c) =>
      && c.author == Some(who) && c.parent.Some? && c.parent.value in Branch(r)
      && c.parent.value < |r.log| && c.tree == Overlay(r.log[c.parent.value].tree, files)
    case Advanced(c) =>
      c < |r.log| && r.log[c].author == Some(who) && r.log[c].parent == Some(r.head)
  }

  function Apply(r: Repo, who: nat, files: seq<File>, k: Change): (r': Repo)
    requires ValidRepo(r) && ChangeAllowed(r, who, files, k)
    ensures ValidRepo(r') && r.log <= r'.log
  {
    match k
    case Unchanged => r
    case Created(c) => r.(log := r.log + [c])
    case Advanced(c) => r.(head := c)
  }

  lemma BranchAfter(r: Repo, who: nat, files: seq<File>, k: Change)
    requires ValidRepo(r) && ChangeAllowed(r, who, files, k)
    ensures var r' := Apply(r, who, files, k);
      && Branch(r') == Branch(r) + (if k.Advanced? then {k.to} else {})
      && (forall i :: Landed(r', i) == Landed(r, i) + (if k.Advanced? && i == who then {k.to} else {}))
  {
    var r' := Apply(r, who, files, k);
    if k.Created? { AncestorsGrow(r.log, r'.log, r.head); }
    forall i
      ensures Landed(r', i) == Landed(r, i) + (if k.Advanced? && i == who then {k.to} else {})
    {
      assert Branch(r') == Branch(r) + (if k.Advanced? then {k.to} else {});
    }
  }

  lemma CommitsKept(s: System, who: nat, k: Change, c: CommitId)
    requires Inv(s) && who < |s.pubs| && ChangeAllowed(s.repo, who, s.pubs[who].files, k)
    requires c < |Apply(s.repo, who, s.pubs[who].files, k).log|
    ensures CommitInv(Apply(s.repo, who, s.pubs[who].files, k), s.pubs, c)
  {
    BranchAfter(s.repo, who, s.pubs[who].files, k);
    if c < |s.repo.log| { assert CommitInv(s.repo, s.pubs, c); }
  }

  lemma OtherPublishersKept(s: System, who: nat, k: Change, i: nat)
    requires Inv(s) && who < |s.pubs| && ChangeAllowed(s.repo, who, s.pubs[who].files, k)
    requires i < |s.pubs| && i != who
    ensures var r' := Apply(s.repo, who, s.pubs[who].files, k);
      InRange(r', s.pubs[i]) && PublisherInv(r', i, s.pubs[i])
  {
    BranchAfter(s.repo, who, s.pubs[who].files, k);
    assert PublisherInv(s.repo, i, s.pubs[i]);
  }

  // ----- Every step keeps the invariant

  /** Giving up an attempt keeps what the publisher knows. */
  lemma AttemptEndKept(r: Repo, who: nat, p: Publisher, e: Error)
    requires ValidRepo(r) && HistoryInv(p) && LandedInv(r, who, p) && !Terminal(p.phase)
    ensures InRange(r, AfterError(p, e)) && PublisherInv(r, who, AfterError(p, e))
  {
  }

  /** So does repeating a request. */
  lemma RepeatKept(r: Repo, who: nat, p: Publisher)
    requires ValidRepo(r) && InRange(r, p) && PublisherInv(r, who, p) && !Terminal(p.phase)
    ensures InRange(r, p.(phase := Again(p.phase))) && PublisherInv(r, who, p.(phase := Again(p.phase)))
  {
  }

  /** Whatever request fails, the reaction keeps what the publisher knows. */
  lemma ErrorKept(r: Repo, who: nat, p: Publisher, e: Error)
    requires ValidRepo(r) && InRange(r, p) && PublisherInv(r, who, p) && !Terminal(p.phase)
    ensures InRange(r, ReactToError(p, e)) && PublisherInv(r, who, ReactToError(p, e))
  {
    if Repeats(p.phase, e) { RepeatKept(r, who, p); } else { AttemptEndKept(r, who, p, e); }
  }

  lemma BlobKept(r: Repo, who: nat, p: Publisher)
    requires ValidRepo(r) && InRange(r, p) && PublisherInv(r, who, p) && p.phase.MakeBlob?
    ensures PublisherInv(r, who, React(p, BlobMade(p.files[|p.phase.items|])))
  {
    var items := p.phase.items;
    assert items + [p.files[|items|]] == p.files[..|items| + 1];
    assert p.files[..|p.files|] == p.files;
  }

  lemma ReadsKept(r: Repo, who: nat, p: Publisher, hint: nat)
    requires ValidRepo(r) && InRange(r, p) && PublisherInv(r, who, p)
    ensures p.phase.ReadHead? ==> PublisherInv(r, who, React(p, HeadIs(AnsweredHead(r, hint))))
    ensures p.phase.ReadTree? ==> PublisherInv(r, who, React(p, TreeIs(r.log[p.phase.head].tree)))
  {
  }

  lemma BuildsKept(r: Repo, who: nat, p: Publisher)
    requires ValidRepo(r) && InRange(r, p) && PublisherInv(r, who, p)
    ensures p.phase.MakeTree? ==> PublisherInv(r, who, React(p, TreeMade(Overlay(p.phase.base, p.phase.items))))
    ensures p.phase.VerifyCommit? ==> PublisherInv(r, who, React(p, CommitSeen))
  {
  }

  /** The requests that leave the repository alone: reads, blobs, trees, verification. */
  lemma QuietStepKept(r: Repo, who: nat, p: Publisher, reply: Reply)
    requires ValidRepo(r) && InRange(r, p) && PublisherInv(r, who, p)
    requires !p.phase.MakeCommit? && !p.phase.UpdateRef?
    ensures var (r', p') := StepPublisher(r, who, p, reply); r' == r && PublisherInv(r', who, p')
  {
    if !Terminal(p.phase) {
      QuietReaction(r, who, p, reply);
      if !reply.fate.Served? { ErrorKept(r, who, p, reply.fate.error); }
      else if p.phase.MakeBlob? { BlobKept(r, who, p); }
      else if p.phase.ReadHead? || p.phase.ReadTree? { ReadsKept(r, who, p, reply.hint); }
      else { BuildsKept(r, who, p); }
    }
  }

  /** What the server answers to a request that leaves it alone. */
  function QuietAnswer(r: Repo, p: Publisher, hint: nat): Response
    requires ValidRepo(r) && InRange(r, p)
  {
    match p.phase
    case ReadHead => HeadIs(AnsweredHead(r, hint))
    case ReadTree(h) => TreeIs(r.log[h].tree)
    case MakeBlob(_, _, items, _) => BlobMade(p.files[|items|])
    case MakeTree(_, base, items, _) => TreeMade(Overlay(base, items))
    case _ => CommitSeen
  }

  lemma QuietReaction(r: Repo, who: nat, p: Publisher, reply: Reply)
    requires ValidRepo(r) && InRange(r, p)
    requires !Terminal(p.phase) && !p.phase.MakeCommit? && !p.phase.UpdateRef?
    ensures StepPublisher(r, who, p, reply) ==
      (r, if reply.fate.Served? then React(p, QuietAnswer(r, p, reply.hint)) else ReactToError(p, reply.fate.error))
  {
  }

  lemma MakeCommitKept(r: Repo, who: nat, p: Publisher, reply: Reply) returns (k: Change)
    requires ValidRepo(r) && InRange(r, p) && PublisherInv(r, who, p) && p.phase.MakeCommit?
    ensures ChangeAllowed(r, who, p.files, k)
    ensures var (r', p') := StepPublisher(r, who, p, reply);
      r' == Apply(r, who, p.files, k) && PublisherInv(r', who, p')
  {
    var c := Commit(Some(p.phase.head), p.phase.tree, Some(who));
    var (r', p') := StepPublisher(r, who, p, reply);
    k := if r' == r then Unchanged else Created(c);
    BranchAfter(r, who, p.files, k);
    if !reply.fate.Served? { ErrorKept(r', who, p, reply.fate.error); }
  }

  /** A ref update the server carries out, whether or not the publisher hears of it. */
  lemma AcceptedUpdateKept(s: System, who: nat) returns (k: Change)
    requires Inv(s) && who < |s.pubs| && s.pubs[who].phase.UpdateRef?
    requires FastForward(s.repo, s.pubs[who].phase.commit)
    ensures ChangeAllowed(s.repo, who, s.pubs[who].files, k)
    ensures var r' := Apply(s.repo, who, s.pubs[who].files, k);
      && r' == Move(s.repo, s.pubs[who].phase.commit)
      && s.pubs[who].phase.commit in Branch(r')
      && Landed(r', who) == s.pubs[who].lost + {s.pubs[who].phase.commit}
  {
    var p := s.pubs[who];
    assert PublisherInv(s.repo, who, p);
    var c := p.phase.commit;
    FastForwardIsCompareAndSwap(s, c);
    k := if s.repo.head == c then Unchanged else Advanced(c);
    BranchAfter(s.repo, who, p.files, k);
    if s.repo.head == c { assert c in Landed(s.repo, who); }
  }

  lemma HeardKept(r: Repo, who: nat, p: Publisher, c: CommitId)
    requires ValidRepo(r) && c < |r.log| && HistoryInv(p) && p.phase.UpdateRef? && p.phase.commit == c
    requires p.offered != [] && p.offered[|p.offered| - 1] == c && c in Branch(r) && Landed(r, who) == p.lost + {c}
    ensures PublisherInv(r, who, p.(phase := Succeeded(c)))
  {
  }

  lemma UnheardKept(r: Repo, who: nat, p: Publisher, c: CommitId, e: Error)
    requires ValidRepo(r) && c < |r.log| && HistoryInv(p) && p.phase.UpdateRef? && p.phase.commit == c
    requires p.offered != [] && p.offered[|p.offered| - 1] == c && r.log[c].author == Some(who)
    requires Landed(r, who) == p.lost + {c}
    ensures var p' := ReactToError(p, e); var p'' := p'.(lost := p'.lost + {c});
      InRange(r, p'') && PublisherInv(r, who, p'')
  {
  }

  lemma UpdateRefKept(s: System, who: nat, reply: Reply) returns (k: Change)
    requires Inv(s) && who < |s.pubs| && s.pubs[who].phase.UpdateRef?
    ensures ChangeAllowed(s.repo, who, s.pubs[who].files, k)
    ensures var (r', p') := StepPublisher(s.repo, who, s.pubs[who], reply);
      r' == Apply(s.repo, who, s.pubs[who].files, k) && PublisherInv(r', who, p')
  {
    var p, c := s.pubs[who], s.pubs[who].phase.commit;
    assert PublisherInv(s.repo, who, p);
    UpdateReaction(s.repo, who, p, reply);
    if !reply.fate.Failed? && FastForward(s.repo, c) {
      k := AcceptedUpdateKept(s, who);
      var r' := Apply(s.repo, who, p.files, k);
      if reply.fate.Served? { HeardKept(r', who, p, c); } else { UnheardKept(r', who, p, c, reply.fate.error); }
    } else {
      k := Unchanged;
      ErrorKept(s.repo, who, p, if reply.fate.Served? then NOT_FAST_FORWARD else reply.fate.error);
    }
  }

  /** A ref update is carried out or refused, and is heard of or not. */
  lemma UpdateReaction(r: Repo, who: nat, p: Publisher, reply: Reply)
    requires ValidRepo(r) && InRange(r, p) && p.phase.UpdateRef?
    ensures var c := p.phase.commit;
      StepPublisher(r, who, p, reply) ==
        if reply.fate.Failed? then (r, ReactToError(p, reply.fate.error))
        else if !FastForward(r, c) then
          (r, ReactToError(p, if reply.fate.Served? then NOT_FAST_FORWARD else reply.fate.error))
        else if reply.fate.Served? then (r.(head := c), p.(phase := Succeeded(c)))
        else (r.(head := c), ReactToError(p, reply.fate.error).(lost := p.lost + {c}))
  {
    if reply.fate.Lost? { assert ReactToError(p, reply.fate.error).lost == p.lost; }
  }

  /** A step changes the repository in an allowed way and keeps what the sender knows. */
  lemma SenderKept(s: System, who: nat, reply: Reply) returns (k: Change)
    requires Inv(s) && who < |s.pubs|
    ensures ChangeAllowed(s.repo, who, s.pubs[who].files, k)
    ensures var (r', p') := StepPublisher(s.repo, who, s.pubs[who], reply);
      r' == Apply(s.repo, who, s.pubs[who].files, k) && PublisherInv(r', who, p')
  {
    k := Unchanged;
    assert PublisherInv(s.repo, who, s.pubs[who]);
    if s.pubs[who].phase.MakeCommit? { k := MakeCommitKept(s.repo, who, s.pubs[who], reply); }
    else if s.pubs[who].phase.UpdateRef? { k := UpdateRefKept(s, who, reply); }
    else { QuietStepKept(s.repo, who, s.pubs[who], reply); }
  }

  /** An allowed change keeps everything that does not belong to the sender. */
  lemma ChangeKept(s: System, who: nat, k: Change, p': Publisher)
    requires Inv(s) && who < |s.pubs| && ChangeAllowed(s.repo, who, s.pubs[who].files, k)
    requires p'.files == s.pubs[who].files
    requires var r' := Apply(s.repo, who, s.pubs[who].files, k); InRange(r', p') && PublisherInv(r', who, p')
    ensures Inv(System(Apply(s.repo, who, s.pubs[who].files, k), s.pubs[who := p']))
  {
    var r', pubs' := Apply(s.repo, who, s.pubs[who].files, k), s.pubs[who := p'];
    forall c | 0 <= c < |r'.log| ensures CommitInv(r', pubs', c) { CommitsKept(s, who, k, c); }
    forall i | 0 <= i < |pubs'| ensures InRange(r', pubs'[i]) && PublisherInv(r', i, pubs'[i]) {
      if i != who { OtherPublishersKept(s, who, k, i); }
    }
  }

  lemma StepKept(s: System, e: Event)
    requires Inv(s)
    ensures Inv(Step(s, e))
    ensures Branch(s.repo) <= Branch(Step(s, e).repo)
  {
    if e.who < |s.pubs| {
      var k := SenderKept(s, e.who, e.reply);
      var (_, p') := StepPublisher(s.repo, e.who, s.pubs[e.who], e.reply);
      ChangeKept(s, e.who, k, p');
      BranchAfter(s.repo, e.who, s.pubs[e.who].files, k);
    }
  }

  lemma InitInv(s: System)
    requires Init(s)
    ensures Inv(s)
  {
    forall i | 0 <= i < |s.pubs| ensures PublisherInv(s.repo, i, s.pubs[i]) {
      assert s.pubs[i] == Launch(s.pubs[i].files);
      assert Landed(s.repo, i) == {};
    }
  }

  /** The invariant holds after every schedule, and the branch only ever grows. */
  lemma {:induction false} ExecKept(s: System, schedule: seq<Event>)
    requires Inv(s)
    ensures Inv(Exec(s, schedule))
    ensures Branch(s.repo) <= Branch(Exec(s, schedule).repo)
  {
    if schedule != [] {
      ExecKept(s, schedule[..|schedule| - 1]);
      StepKept(Exec(s, schedule[..|schedule| - 1]), schedule[|schedule| - 1]);
    }
  }

  /** After any schedule: the landed commits are the acknowledged one and those with a lost reply. */
  lemma LandedAfter(s0: System, schedule: seq<Event>, i: nat)
    requires Init(s0) && i < |s0.pubs|
    ensures LandedInv(Exec(s0, schedule).repo, i, Exec(s0, schedule).pubs[i])
    ensures HistoryInv(Exec(s0, schedule).pubs[i])
  {
    InitInv(s0);
    ExecKept(s0, schedule);
    assert PublisherInv(Exec(s0, schedule).repo, i, Exec(s0, schedule).pubs[i]);
  }
}
