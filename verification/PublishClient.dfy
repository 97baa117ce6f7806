/**
  `publish` and `publish_traces` as the nested retry loops they are. Between any two of its
  requests the other publishers run an arbitrary schedule, and every request meets an arbitrary
  fate. The loops are proved to take exactly the steps of the machine in `Publishing`, so the
  state a call leaves behind is one that the theorems about all schedules speak of.
*/
module PublishClient {
  import opened Common
  import opened Publishing
  import opened PublishingInvariant
  import opened PublishingTheorems
  import opened PublishingRetries

  datatype Result<+T> = Ok(value: T) | Err(error: Error)

  function Others(schedule: seq<Event>, me: nat): (r: seq<Event>)
    ensures forall k :: 0 <= k < |r| ==> r[k].who != me
  {
    if schedule == [] then []
    else Others(schedule[..|schedule| - 1], me)
         + if schedule[|schedule| - 1].who == me then [] else [schedule[|schedule| - 1]]
  }

  predicate Answers(q: Request, response: Response) {
    || response.Failure?
    || match q {
         case GetHead => response.HeadIs?
         case GetTree(_) => response.TreeIs?
         case PostBlob(_) => response.BlobMade?
         case PostTree(_, _) => response.TreeMade?
         case PostCommit(_, _) => response.CommitMade?
         case GetCommit(_) => response.CommitSeen?
         case PatchRef(_) => response.RefMoved?
         case NoRequest => true
       }
  }

  /** Serving a publisher's request and letting it react is one step of the machine. */
  lemma ServeIsStep(s: System, me: nat, reply: Reply)
    requires Valid(s) && me < |s.pubs|
    ensures RequestInRange(s.repo, Pending(s.pubs[me]))
    ensures var p := s.pubs[me]; var (r, response) := Serve(s.repo, me, Pending(p), reply);
      var s' := Step(s, Event(me, reply));
      && s'.repo == r && Answers(Pending(p), response)
      && s'.pubs[me] == React(p, response).(lost := s'.pubs[me].lost)
      && (!Pending(p).PatchRef? ==> s'.pubs[me] == React(p, response))
  {
  }

  /** What a commit that has been made and read back leaves behind. */
  lemma CommitReactions(p: Publisher, parent: CommitId, tree: Tree, tries: nat, c: CommitId)
    requires p.phase == MakeCommit(parent, tree, tries)
    ensures React(p, CommitMade(c)) == p.(phase := VerifyCommit(parent, tree, c, tries))
    ensures React(React(p, CommitMade(c)), CommitSeen) == p.(phase := UpdateRef(c, 0), offered := p.offered + [c])
  {
  }

  lemma CommitErrors(p: Publisher, c: CommitId, e: Error)
    requires p.phase.MakeCommit?
    ensures var made := p.(phase := VerifyCommit(p.phase.head, p.phase.tree, c, p.phase.tries));
      ReactToError(made, e) == ReactToError(p, e)
  {
  }

  /** The outer error handling depends on the attempt only. */
  lemma ErrorForgetsPhase(p: Publisher, phase: Phase, e: Error)
    ensures AfterError(p.(phase := phase), e) == AfterError(p, e)
  {
  }

  /** Nothing for nothing to upload, the commit of a call that succeeded, or the error raised. */
  predicate PhaseTells(r: Result<Option<CommitId>>, p: Publisher) {
    match r
    case Ok(None) => p.files == []
    case Ok(Some(c)) => p.files != [] && p.phase == Succeeded(c)
    case Err(e) => p.files != [] && p.phase == Raised(e)
  }

  /** The result of a call: a returned commit has landed; without one only lost replies landed any. */
  predicate Returned(r: Result<Option<CommitId>>, p: Publisher, landed: set<CommitId>) {
    && PhaseTells(r, p) && |landed| <= 5
    && (if r.Ok? && r.value.Some? then r.value.value in landed else landed == p.lost)
  }

  lemma Conclusion(s0: System, schedule: seq<Event>, i: nat, r: Result<Option<CommitId>>)
    requires Init(s0) && i < |s0.pubs| && PhaseTells(r, Exec(s0, schedule).pubs[i])
    ensures var s := Exec(s0, schedule); Returned(r, s.pubs[i], Landed(s.repo, i))
    ensures Accounts(Exec(s0, schedule).pubs[i], EndedBy(s0, schedule, i))
  {
    LandingIsBounded(s0, schedule, i);
    LandedAfter(s0, schedule, i);
    AttemptsAccountedFor(s0, schedule, i);
  }

  /** The remote repository as publisher `me` sees it. */
  class Remote {
    const me: nat
    const interference: nat -> seq<Event>
    const replies: nat -> Reply
    var sent: nat
    var world: System
    ghost const origin: System
    ghost var trace: seq<Event>

    /** The world is what the schedule so far has made of a fresh start. */
    ghost predicate Valid()
      reads this
    {
      Init(origin) && me < |origin.pubs| && Publishing.Valid(origin) && world == Exec(origin, trace)
    }

    /** The errors that have ended an attempt of this call explain where it stands. */
    ghost predicate Accounted()
      requires Valid()
      reads this
    {
      Accounts(Me(), EndedBy(origin, trace, me))
    }

    ghost function Me(): Publisher
      requires Valid()
      reads this
    {
      world.pubs[me]
    }

    constructor (me: nat, start: System, interference: nat -> seq<Event>, replies: nat -> Reply)
      requires Init(start) && me < |start.pubs|
      ensures Valid() && origin == start && this.me == me && Me() == Launch(start.pubs[me].files)
    {
      this.me, this.interference, this.replies, sent := me, interference, replies, 0;
      world, origin, trace := start, start, [];
      new;
      assert start.pubs[me] == Launch(start.pubs[me].files);
    }

    /** One API request: the others run, then the server answers. */
    method Send(q: Request) returns (response: Response)
      requires Valid() && !Terminal(Me().phase) && q == Pending(Me())
      modifies this`sent, this`world, this`trace
      ensures Valid() && old(trace) <= trace
      ensures Me() == React(old(Me()), response).(lost := Me().lost)
      ensures !q.PatchRef? ==> Me() == React(old(Me()), response)
      ensures Answers(q, response)
    {
      var turn, reply := Others(interference(sent), me), replies(sent);
      OthersLeaveMeAlone(world, turn, me);
      ExecConcat(origin, trace, turn);
      world, trace := Exec(world, turn), trace + turn;
      ServeIsStep(world, me, reply);
      ExecNext(origin, trace, Event(me, reply));
      var (_, answer) := Serve(world.repo, me, q, reply);
      world, trace, sent := Step(world, Event(me, reply)), trace + [Event(me, reply)], sent + 1;
      response := answer;
    }

    method CreateBlob(file: File, ghost head: CommitId, ghost base: Tree, ghost items: seq<File>)
      returns (r: Result<File>)
      requires Valid() && Me().phase == MakeBlob(head, base, items, 0)
      requires |items| < |Me().files| && file == Me().files[|items|]
      modifies this`sent, this`world, this`trace
      ensures Valid() && old(trace) <= trace
      ensures r.Ok? ==> Me() == old(Me()).(phase := NextBlob(old(Me()), head, base, items + [r.value]))
      ensures r.Err? ==> Me() == AfterError(old(Me()), r.error)
    {
      var tries := 0;
      while true
        invariant Valid() && old(trace) <= trace && tries < MAX_TRIES
        invariant Me() == old(Me()).(phase := MakeBlob(head, base, items, tries))
        decreases MAX_TRIES - tries
      {
        var response := Send(PostBlob(file));
        if !response.Failure? { return Ok(response.item); }
        if tries >= MAX_TRIES - 1 { return Err(response.error); }
        tries := tries + 1;
      }
    }

    method CreateTree(ghost head: CommitId, base: Tree, files: seq<File>) returns (r: Result<Tree>)
      requires Valid() && files == Me().files && files != []
      requires Me().phase == MakeBlob(head, base, [], 0)
      modifies this`sent, this`world, this`trace
      ensures Valid() && old(trace) <= trace
      ensures r.Ok? ==> Me() == old(Me()).(phase := MakeCommit(head, r.value, 0))
      ensures r.Err? ==> Me() == AfterError(old(Me()), r.error)
    {
      var items := [];
      for i := 0 to |files|
        invariant Valid() && old(trace) <= trace && |items| == i
        invariant Me() == old(Me()).(phase := NextBlob(old(Me()), head, base, items))
      {
        var blob := CreateBlob(files[i], head, base, items);
        if blob.Err? { return Err(blob.error); }
        items := items + [blob.value];
      }
      r := MakeTreeOf(head, base, items);
    }

    /** The second half of `create_tree`: three tries to make the tree of the blobs. */
    method MakeTreeOf(ghost head: CommitId, base: Tree, items: seq<File>) returns (r: Result<Tree>)
      requires Valid() && Me().phase == MakeTree(head, base, items, 0)
      modifies this`sent, this`world, this`trace
      ensures Valid() && old(trace) <= trace
      ensures r.Ok? ==> Me() == old(Me()).(phase := MakeCommit(head, r.value, 0))
      ensures r.Err? ==> Me() == AfterError(old(Me()), r.error)
    {
      var tries := 0;
      while true
        invariant Valid() && old(trace) <= trace && tries < MAX_TRIES
        invariant Me() == old(Me()).(phase := MakeTree(head, base, items, tries))
        decreases MAX_TRIES - tries
      {
        var response := Send(PostTree(base, items));
        if !response.Failure? { return Ok(response.tree); }
        if tries >= MAX_TRIES - 1 { return Err(response.error); }
        tries := tries + 1;
      }
    }

    /** One try of `create_commit`: create the commit, then read it back. */
    method CommitOnce(tree: Tree, parent: CommitId, ghost tries: nat) returns (r: Result<CommitId>)
      requires Valid() && Me().phase == MakeCommit(parent, tree, tries)
      modifies this`sent, this`world, this`trace
      ensures Valid() && old(trace) <= trace
      ensures r.Ok? ==>
        Me() == old(Me()).(phase := UpdateRef(r.value, 0), offered := old(Me()).offered + [r.value])
      ensures r.Err? ==> Me() == ReactToError(old(Me()), r.error)
    {
      var made := Send(PostCommit(parent, tree));
      if made.Failure? { return Err(made.error); }
      CommitReactions(old(Me()), parent, tree, tries, made.commit);
      assert Me() == old(Me()).(phase := VerifyCommit(parent, tree, made.commit, tries));
      var seen := Send(GetCommit(made.commit));
      if seen.Failure? {
        CommitErrors(old(Me()), made.commit, seen.error);
        return Err(seen.error);
      }
      return Ok(made.commit);
    }

    method CreateCommit(tree: Tree, parent: CommitId) returns (r: Result<CommitId>)
      requires Valid() && Me().phase == MakeCommit(parent, tree, 0)
      modifies this`sent, this`world, this`trace
      ensures Valid() && old(trace) <= trace
      ensures r.Ok? ==>
        Me() == old(Me()).(phase := UpdateRef(r.value, 0), offered := old(Me()).offered + [r.value])
      ensures r.Err? ==> Me() == AfterError(old(Me()), r.error)
    {
      var tries := 0;
      while true
        invariant Valid() && old(trace) <= trace && tries < MAX_TRIES
        invariant Me() == old(Me()).(phase := MakeCommit(parent, tree, tries))
        decreases MAX_TRIES - tries
      {
        r := CommitOnce(tree, parent, tries);
        if r.Ok? || tries >= MAX_TRIES - 1 { return; }
        tries := tries + 1;
      }
    }

    method UpdateBranchRef(commit: CommitId) returns (r: Result<()>)
      requires Valid() && Me().phase == UpdateRef(commit, 0)
      modifies this`sent, this`world, this`trace
      ensures Valid() && old(trace) <= trace
      ensures r.Ok? ==> Me() == old(Me()).(phase := Succeeded(commit), lost := Me().lost)
      ensures r.Err? ==> Me() == AfterError(old(Me()), r.error).(lost := Me().lost)
    {
      var tries := 0;
      while true
        invariant Valid() && old(trace) <= trace && tries < MAX_TRIES
        invariant Me() == old(Me()).(phase := UpdateRef(commit, tries), lost := Me().lost)
        decreases MAX_TRIES - tries
      {
        var response := Send(PatchRef(commit));
        if !response.Failure? { return Ok(()); }
        if !RetryableUpdate(response.error) || tries >= MAX_TRIES - 1 { return Err(response.error); }
        tries := tries + 1;
      }
    }

    /** The first part of an attempt: read the head and its tree. */
    method ReadBranch() returns (r: Result<(CommitId, Tree)>)
      requires Valid() && Me().phase == ReadHead && Me().files != []
      modifies this`sent, this`world, this`trace
      ensures Valid() && old(trace) <= trace
      ensures r.Ok? ==> Me() == old(Me()).(phase := MakeBlob(r.value.0, r.value.1, [], 0))
      ensures r.Err? ==> Me() == AfterError(old(Me()), r.error)
    {
      var head := Send(GetHead);
      if head.Failure? { return Err(head.error); }
      assert Me() == old(Me()).(phase := ReadTree(head.commit));
      var tree := Send(GetTree(head.commit));
      if tree.Failure? { return Err(tree.error); }
      return Ok((head.commit, tree.tree));
    }

    /** The body of the outer loop: read the head and its tree, build on them, move the branch. */
    method Attempt(files: seq<File>) returns (r: Result<CommitId>)
      requires Valid() && Me().phase == ReadHead && files == Me().files && files != []
      modifies this`sent, this`world, this`trace
      ensures Valid() && old(trace) <= trace && Me().files == old(Me()).files
      ensures r.Ok? ==> Me().phase == Succeeded(r.value)
      ensures r.Err? ==>
        Me() == AfterError(old(Me()), r.error).(lost := Me().lost, offered := Me().offered)
    {
      var branch := ReadBranch();
      if branch.Err? { return Err(branch.error); }
      var tree := CreateTree(branch.value.0, branch.value.1, files);
      if tree.Err? {
        ErrorForgetsPhase(old(Me()), MakeBlob(branch.value.0, branch.value.1, [], 0), tree.error);
        return Err(tree.error);
      }
      var commit := CreateCommit(tree.value, branch.value.0);
      if commit.Err? {
        ErrorForgetsPhase(old(Me()), MakeCommit(branch.value.0, tree.value, 0), commit.error);
        return Err(commit.error);
      }
      var moved := UpdateBranchRef(commit.value);
      if moved.Err? { return Err(moved.error); }
      return Ok(commit.value);
    }

    /** The outer loop over attempts. */
    method RetryLoop(files: seq<File>) returns (r: Result<Option<CommitId>>)
      requires Valid() && Me() == Launch(files) && files != []
      modifies this`sent, this`world, this`trace
      ensures Valid() && old(trace) <= trace && Me().files == files && PhaseTells(r, Me())
    {
      var attempt := 0;
      while true
        invariant Valid() && old(trace) <= trace && attempt < MAX_ATTEMPTS
        invariant Me().files == files && Me().phase == ReadHead && Me().attempt == attempt
        decreases MAX_ATTEMPTS - attempt
      {
        var commit := Attempt(files);
        if commit.Ok? { return Ok(Some(commit.value)); }
        if !(Retryable(commit.error) && attempt < MAX_ATTEMPTS - 1) { return Err(commit.error); }
        attempt := attempt + 1;
      }
    }

    /**
      `publish`: returns the commit when it succeeds, nothing when there was nothing to upload,
      and the error it raises otherwise. It always comes back, the commit it returns is on the
      branch, and it has put at most five commits there. Its attempts are accounted for: each but
      the last was ended by a transient error, and the error it raises is not transient or ended the
      fifth.
    */
    method Publish(files: seq<File>) returns (r: Result<Option<CommitId>>)
      requires Valid() && Me() == Launch(files)
      modifies this`sent, this`world, this`trace
      ensures Valid() && old(trace) <= trace && Me().files == files
      ensures Returned(r, Me(), Landed(world.repo, me))
      ensures Accounted()
    {
      if files == [] {
        r := Ok(None);
        NothingPublished(r);
      } else {
        r := PublishFiles(files);
      }
    }

    lemma NothingPublished(r: Result<Option<CommitId>>)
      requires Valid() && Me().files == [] && r == Ok(None)
      ensures Returned(r, Me(), Landed(world.repo, me)) && Accounted()
    {
      Concludes(r);
    }

    /** `publish` with something to upload. */
    method PublishFiles(files: seq<File>) returns (r: Result<Option<CommitId>>)
      requires Valid() && Me() == Launch(files) && files != []
      modifies this`sent, this`world, this`trace
      ensures Valid() && old(trace) <= trace && Me().files == files
      ensures Returned(r, Me(), Landed(world.repo, me))
      ensures Accounted()
    {
      r := RetryLoop(files);
      Concludes(r);
    }

    lemma Concludes(r: Result<Option<CommitId>>)
      requires Valid() && PhaseTells(r, Me())
      ensures Returned(r, Me(), Landed(world.repo, me)) && Accounted()
    {
      Conclusion(origin, trace, me, r);
    }
  }
}
