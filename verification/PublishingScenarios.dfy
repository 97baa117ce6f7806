/**
  What can be reached: an undisturbed publish succeeds at its first attempt, and lost replies make
  every number of landed commits from one to five possible for one successful call, so the promise
  of a single commit fails exactly as `PublishingTheorems.LandingIsBounded` says.
*/
module PublishingScenarios {
  import opened Common
  import opened Publishing
  import opened PublishingInvariant
  import opened PublishingTheorems

  const BAD_GATEWAY := Http(502, Body(false, false, false))
  const FORBIDDEN := Http(403, Body(false, false, false))

  /** `n` requests of publisher `i`, all answered. */
  function Answered(i: nat, hint: nat, n: nat): (r: seq<Event>)
    ensures |r| == n
  {
    seq(n, _ => Event(i, Reply(Served, hint)))
  }

  lemma AnsweredNext(s: System, i: nat, hint: nat, n: nat)
    requires Valid(s)
    ensures Exec(s, Answered(i, hint, n + 1)) ==
      Step(Exec(s, Answered(i, hint, n)), Event(i, Reply(Served, hint)))
  {
    assert Answered(i, hint, n + 1)[..n] == Answered(i, hint, n);
  }

  /** The system with repository `r` and publisher `i` at `p`. */
  function Put(s: System, r: Repo, i: nat, p: Publisher): System
    requires i < |s.pubs|
  {
    System(r, s.pubs[i := p])
  }

  lemma StepPut(s: System, r: Repo, i: nat, p: Publisher, reply: Reply)
    requires i < |s.pubs| && ValidRepo(r) && InRange(r, p) && Valid(Put(s, r, i, p))
    ensures var (r', p') := StepPublisher(r, i, p, reply);
      Step(Put(s, r, i, p), Event(i, reply)) == Put(s, r', i, p')
  {
    var (r', p') := StepPublisher(r, i, p, reply);
    assert s.pubs[i := p][i := p'] == s.pubs[i := p'];
  }

  lemma NextAnswered(s: System, r: Repo, i: nat, p: Publisher, hint: nat, n: nat, r': Repo, p': Publisher)
    requires i < |s.pubs| && Valid(s) && Exec(s, Answered(i, hint, n)) == Put(s, r, i, p)
    requires ValidRepo(r) && InRange(r, p) && StepPublisher(r, i, p, Reply(Served, hint)) == (r', p')
    ensures Exec(s, Answered(i, hint, n + 1)) == Put(s, r', i, p')
  {
    AnsweredNext(s, i, hint, n);
    StepPut(s, r, i, p, Reply(Served, hint));
  }

  lemma HeadAnswered(r: Repo, i: nat, p: Publisher)
    requires ValidRepo(r) && p.phase == ReadHead
    ensures StepPublisher(r, i, p, Reply(Served, r.head)) == (r, p.(phase := ReadTree(r.head)))
  {
  }

  lemma TreeAnswered(r: Repo, i: nat, p: Publisher, hint: nat)
    requires ValidRepo(r) && p.phase.ReadTree? && p.phase.head < |r.log|
    ensures StepPublisher(r, i, p, Reply(Served, hint)) ==
      (r, p.(phase := NextBlob(p, p.phase.head, r.log[p.phase.head].tree, [])))
  {
  }

  lemma OverlayAnswered(r: Repo, i: nat, p: Publisher, hint: nat)
    requires ValidRepo(r) && p.phase.MakeTree? && p.phase.head < |r.log|
    ensures StepPublisher(r, i, p, Reply(Served, hint)) ==
      (r, p.(phase := MakeCommit(p.phase.head, Overlay(p.phase.base, p.phase.items), 0)))
  {
  }

  lemma VerificationAnswered(r: Repo, i: nat, p: Publisher, hint: nat)
    requires ValidRepo(r) && p.phase.VerifyCommit? && p.phase.head < |r.log| && p.phase.commit < |r.log|
    ensures StepPublisher(r, i, p, Reply(Served, hint)) ==
      (r, p.(phase := UpdateRef(p.phase.commit, 0), offered := p.offered + [p.phase.commit]))
  {
  }

  lemma CommitAnswered(r: Repo, i: nat, p: Publisher)
    requires ValidRepo(r) && p.phase.MakeCommit? && p.phase.head == r.head && p.phase.tries == 0
    ensures var c := Commit(Some(r.head), p.phase.tree, Some(i));
      StepPublisher(r, i, p, Reply(Served, r.head)) ==
        (r.(log := r.log + [c]), p.(phase := VerifyCommit(r.head, p.phase.tree, |r.log|, 0)))
  {
  }

  lemma BlobAnswered(r: Repo, i: nat, p: Publisher, h: CommitId, base: Tree, j: nat, hint: nat)
    requires ValidRepo(r) && h < |r.log| && j < |p.files|
    requires p.phase == MakeBlob(h, base, p.files[..j], 0)
    ensures StepPublisher(r, i, p, Reply(Served, hint)) == (r, p.(phase := NextBlob(p, h, base, p.files[..j + 1])))
  {
    assert p.files[..j] + [p.files[j]] == p.files[..j + 1];
  }

  /** The commit an undisturbed attempt prepares. */
  function Prepared(s: System, i: nat): Commit
    requires Valid(s) && i < |s.pubs|
  {
    Commit(Some(s.repo.head), Overlay(s.repo.log[s.repo.head].tree, s.pubs[i].files), Some(i))
  }

  /** The requests of an attempt before the ref update. */
  function Preparation(p: Publisher): nat {
    5 + |p.files|
  }

  /** Where an undisturbed attempt stands after `n` requests. */
  function Stage(s: System, i: nat, n: nat): (Repo, Publisher)
    requires Valid(s) && i < |s.pubs|
  {
    var p, h, f := s.pubs[i], s.repo.head, |s.pubs[i].files|;
    var base := s.repo.log[h].tree;
    var tree := Overlay(base, p.files);
    var r' := s.repo.(log := s.repo.log + [Prepared(s, i)]);
    if n == 0 then (s.repo, p)
    else if n == 1 then (s.repo, p.(phase := ReadTree(h)))
    else if n <= 2 + f then (s.repo, p.(phase := NextBlob(p, h, base, p.files[..n - 2])))
    else if n == 3 + f then (s.repo, p.(phase := MakeCommit(h, tree, 0)))
    else if n == 4 + f then (r', p.(phase := VerifyCommit(h, tree, |s.repo.log|, 0)))
    else (r', p.(phase := UpdateRef(|s.repo.log|, 0), offered := p.offered + [|s.repo.log|]))
  }

  lemma StageNext(s: System, i: nat, n: nat)
    requires Valid(s) && i < |s.pubs| && s.pubs[i].phase == ReadHead && n < Preparation(s.pubs[i])
    ensures var (r, p) := Stage(s, i, n);
      && ValidRepo(r) && InRange(r, p) && (p.phase.ReadHead? ==> n == 0) && !p.phase.UpdateRef?
      && StepPublisher(r, i, p, Reply(Served, s.repo.head)) == Stage(s, i, n + 1)
  {
    var h, f := s.repo.head, |s.pubs[i].files|;
    var (r, p) := Stage(s, i, n);
    if n == 0 { HeadAnswered(r, i, p); }
    else if n == 1 { TreeAnswered(r, i, p, h); }
    else if n < 2 + f { BlobAnswered(r, i, p, h, s.repo.log[h].tree, n - 2, h); }
    else if n == 2 + f {
      assert s.pubs[i].files[..f] == s.pubs[i].files;
      OverlayAnswered(r, i, p, h);
    }
    else if n == 3 + f { CommitAnswered(r, i, p); }
    else { VerificationAnswered(r, i, p, h); }
  }

  lemma {:induction false} StageReached(s: System, i: nat, n: nat)
    requires Valid(s) && i < |s.pubs| && s.pubs[i].phase == ReadHead && n <= Preparation(s.pubs[i])
    ensures Exec(s, Answered(i, s.repo.head, n)) == Put(s, Stage(s, i, n).0, i, Stage(s, i, n).1)
  {
    if n == 0 {
      assert Answered(i, s.repo.head, 0) == [] && s.pubs[i := s.pubs[i]] == s.pubs;
    } else {
      StageReached(s, i, n - 1);
      StageNext(s, i, n - 1);
      var (r, p) := Stage(s, i, n - 1);
      var (r', p') := Stage(s, i, n);
      NextAnswered(s, r, i, p, s.repo.head, n - 1, r', p');
    }
  }

  lemma ReadyToUpdate(s: System, i: nat)
    requires Valid(s) && i < |s.pubs| && s.pubs[i].phase == ReadHead
    ensures Exec(s, Answered(i, s.repo.head, Preparation(s.pubs[i]))) ==
      Put(s, s.repo.(log := s.repo.log + [Prepared(s, i)]), i,
          s.pubs[i].(phase := UpdateRef(|s.repo.log|, 0), offered := s.pubs[i].offered + [|s.repo.log|]))
  {
    StageReached(s, i, Preparation(s.pubs[i]));
  }

  /** One attempt without interference whose ref update meets `fate`. */
  function Script(s: System, i: nat, fate: Fate): seq<Event>
    requires i < |s.pubs|
  {
    Answered(i, s.repo.head, Preparation(s.pubs[i])) + [Event(i, Reply(fate, 0))]
  }

  lemma UpdateAccepted(r: Repo, i: nat, p: Publisher, reply: Reply)
    requires ValidRepo(r) && p.phase.UpdateRef? && p.phase.commit < |r.log| && !reply.fate.Failed?
    requires r.log[p.phase.commit].parent == Some(r.head)
    ensures var (r', p') := StepPublisher(r, i, p, reply); var c := p.phase.commit;
      && r' == r.(head := c)
      && (reply.fate.Served? ==> p' == p.(phase := Succeeded(c)))
      && (reply.fate.Lost? ==> p' == ReactToError(p, reply.fate.error).(lost := p.lost + {c}))
  {
    var c := p.phase.commit;
    assert Ancestors(r.log, c) == {c} + Ancestors(r.log, r.head);
    if reply.fate.Lost? { assert ReactToError(p, reply.fate.error).lost == p.lost; }
  }

  lemma ScriptEffect(s: System, i: nat, fate: Fate)
    requires Valid(s) && i < |s.pubs| && s.pubs[i].phase == ReadHead && !fate.Failed?
    ensures var p', c := Exec(s, Script(s, i, fate)).pubs[i], |s.repo.log|;
      && Exec(s, Script(s, i, fate)).repo == Repo(s.repo.log + [Prepared(s, i)], c)
      && (fate.Served? ==> p'.phase == Succeeded(c) && p'.lost == s.pubs[i].lost)
      && (fate.Lost? ==>
           var p := s.pubs[i].(phase := UpdateRef(c, 0), offered := s.pubs[i].offered + [c]);
           p' == ReactToError(p, fate.error).(lost := p.lost + {c}))
  {
    var ready, c := Answered(i, s.repo.head, Preparation(s.pubs[i])), |s.repo.log|;
    ReadyToUpdate(s, i);
    var p := s.pubs[i].(phase := UpdateRef(c, 0), offered := s.pubs[i].offered + [c]);
    var r := s.repo.(log := s.repo.log + [Prepared(s, i)]);
    assert Script(s, i, fate)[..|ready|] == ready;
    StepPut(s, r, i, p, Reply(fate, 0));
    UpdateAccepted(r, i, p, Reply(fate, 0));
  }

  /** With no interference and no faults, one attempt publishes exactly the overlay of the files. */
  lemma UndisturbedPublishSucceeds(s: System, i: nat)
    requires Inv(s) && i < |s.pubs| && s.pubs[i].phase == ReadHead
    ensures var s' := Exec(s, Script(s, i, Served));
      && s'.pubs[i].phase == Succeeded(s'.repo.head)
      && s'.repo.log[s'.repo.head].parent == Some(s.repo.head)
      && s'.repo.log[s'.repo.head].tree
           == Overlay(s.repo.log[s.repo.head].tree, s.pubs[i].files)
  {
    ScriptEffect(s, i, Served);
  }

  lemma ServerErrorRetries(p: Publisher, c: CommitId)
    requires p.attempt < MAX_ATTEMPTS - 1 && p.phase == UpdateRef(c, 0)
    ensures ReactToError(p, BAD_GATEWAY) == p.(phase := ReadHead, attempt := p.attempt + 1)
  {
  }

  lemma LostAttemptEffect(s: System, i: nat)
    requires Valid(s) && i < |s.pubs| && s.pubs[i].phase == ReadHead && s.pubs[i].attempt < MAX_ATTEMPTS - 1
    ensures var p' := Exec(s, Script(s, i, Lost(BAD_GATEWAY))).pubs[i];
      && p'.phase == ReadHead && p'.attempt == s.pubs[i].attempt + 1 && p'.lost == s.pubs[i].lost + {|s.repo.log|}
  {
    var c := |s.repo.log|;
    ScriptEffect(s, i, Lost(BAD_GATEWAY));
    ServerErrorRetries(s.pubs[i].(phase := UpdateRef(c, 0), offered := s.pubs[i].offered + [c]), c);
  }

  lemma AddNew(lost: set<CommitId>, c: CommitId)
    requires forall x :: x in lost ==> x < c
    ensures |lost + {c}| == |lost| + 1
  {
    assert c !in lost;
  }

  /** One attempt whose ref update takes effect behind a 502 reply. */
  lemma LostAttempt(s: System, i: nat) returns (s': System)
    requires Inv(s) && i < |s.pubs| && s.pubs[i].phase == ReadHead && s.pubs[i].attempt < MAX_ATTEMPTS - 1
    ensures s' == Exec(s, Script(s, i, Lost(BAD_GATEWAY))) && Inv(s')
    ensures s'.pubs[i].phase == ReadHead && s'.pubs[i].attempt == s.pubs[i].attempt + 1
    ensures |s'.pubs[i].lost| == |s.pubs[i].lost| + 1
  {
    var script := Script(s, i, Lost(BAD_GATEWAY));
    s' := Exec(s, script);
    LostAttemptEffect(s, i);
    LostOnBranch(s, i);
    AddNew(s.pubs[i].lost, |s.repo.log|);
    assert Inv(s') by { ExecKept(s, script); }
  }

  lemma LostOnBranch(s: System, i: nat)
    requires Inv(s) && i < |s.pubs|
    ensures forall c :: c in s.pubs[i].lost ==> c < |s.repo.log|
  {
    assert PublisherInv(s.repo, i, s.pubs[i]);
    assert s.pubs[i].lost <= Landed(s.repo, i);
  }

  lemma {:induction false} LostAttempts(s: System, i: nat, n: nat) returns (schedule: seq<Event>)
    requires Inv(s) && i < |s.pubs| && s.pubs[i].phase == ReadHead
    requires s.pubs[i].attempt + n < MAX_ATTEMPTS
    decreases n
    ensures Inv(Exec(s, schedule)) && Exec(s, schedule).pubs[i].phase == ReadHead
    ensures |Exec(s, schedule).pubs[i].lost| == |s.pubs[i].lost| + n
  {
    schedule := [];
    if n > 0 {
      var first := Script(s, i, Lost(BAD_GATEWAY));
      var s' := LostAttempt(s, i);
      var rest := LostAttempts(s', i, n - 1);
      ExecConcat(s, first, rest);
      schedule := first + rest;
    }
  }

  /** One successful call can land any number of commits from one to five. */
  lemma EveryLandingCountIsReachable(s0: System, i: nat, n: nat) returns (schedule: seq<Event>)
    requires Init(s0) && i < |s0.pubs| && s0.pubs[i].files != [] && 1 <= n <= 5
    ensures var s := Exec(s0, schedule);
      s.pubs[i].phase.Succeeded? && |Landed(s.repo, i)| == n
  {
    assert s0.pubs[i] == Launch(s0.pubs[i].files);
    InitInv(s0);
    var first := LostAttempts(s0, i, n - 1);
    var m := Exec(s0, first);
    LostOnBranch(m, i);
    AddNew(m.pubs[i].lost, |m.repo.log|);
    ScriptEffect(m, i, Served);
    ExecConcat(s0, first, Script(m, i, Served));
    schedule := first + Script(m, i, Served);
    LandedAfter(s0, schedule, i);
    assert Landed(Exec(s0, schedule).repo, i) == m.pubs[i].lost + {|m.repo.log|};
  }

  lemma RaisedEffect(s: System, i: nat)
    requires Valid(s) && i < |s.pubs| && s.pubs[i].phase == ReadHead && s.pubs[i].lost == {}
    ensures var s' := Exec(s, Script(s, i, Lost(FORBIDDEN)));
      s'.pubs[i].phase.Raised? && s'.pubs[i].lost == {s'.repo.head}
  {
    var c := |s.repo.log|;
    ScriptEffect(s, i, Lost(FORBIDDEN));
    ForbiddenRaises(s.pubs[i].(phase := UpdateRef(c, 0), offered := s.pubs[i].offered + [c]), c);
  }

  lemma ForbiddenRaises(p: Publisher, c: CommitId)
    requires p.phase == UpdateRef(c, 0)
    ensures ReactToError(p, FORBIDDEN) == p.(phase := Raised(FORBIDDEN))
  {
  }

  /** A call can raise although its commit is on the branch. */
  lemma RaisedCallCanHaveLanded(s0: System, i: nat) returns (schedule: seq<Event>)
    requires Init(s0) && i < |s0.pubs| && s0.pubs[i].files != []
    ensures var s := Exec(s0, schedule);
      s.pubs[i].phase.Raised? && Landed(s.repo, i) == {s.repo.head}
  {
    assert s0.pubs[i] == Launch(s0.pubs[i].files);
    schedule := Script(s0, i, Lost(FORBIDDEN));
    RaisedEffect(s0, i);
    LandedAfter(s0, schedule, i);
  }

  // ----- What the server is free to do

  /** A head read may be answered with any commit of the branch, and with no other. */
  lemma HeadsMayBeOld(r: Repo, who: nat, head: CommitId)
    requires ValidRepo(r)
    ensures (exists hint: nat :: Serve(r, who, GetHead, Reply(Served, hint)) == (r, HeadIs(head)))
      <==> head in Branch(r)
  {
    if head in Branch(r) { assert Serve(r, who, GetHead, Reply(Served, head)) == (r, HeadIs(head)); }
  }

  /** A commit request may be answered with a new commit or with any equal one, and with no other. */
  lemma CommitsMayRepeat(r: Repo, who: nat, parent: CommitId, tree: Tree, c: CommitId)
    requires ValidRepo(r) && parent < |r.log|
    ensures (exists hint: nat :: Serve(r, who, PostCommit(parent, tree), Reply(Served, hint)).1 == CommitMade(c))
      <==> c == |r.log| || (c < |r.log| && r.log[c] == Commit(Some(parent), tree, Some(who)))
  {
    if c == |r.log| || (c < |r.log| && r.log[c] == Commit(Some(parent), tree, Some(who))) {
      assert Serve(r, who, PostCommit(parent, tree), Reply(Served, c)).1 == CommitMade(c);
    }
  }

  /** Behind any error the request may have taken its full effect, or none. */
  lemma RepliesMayBeLost(r: Repo, who: nat, q: Request, hint: nat, e: Error)
    requires ValidRepo(r) && RequestInRange(r, q)
    ensures Serve(r, who, q, Reply(Lost(e), hint)).0 == Serve(r, who, q, Reply(Served, hint)).0
    ensures Serve(r, who, q, Reply(Failed(e), hint)).0 == r
    ensures Serve(r, who, q, Reply(Lost(e), hint)).1 == Serve(r, who, q, Reply(Failed(e), hint)).1 == Failure(e)
  {
  }
}
