/** Which errors are met with another try, another attempt, or the end of the call. */
module PublishingRetries {
  import opened Common
  import opened Publishing
  import opened PublishingInvariant
  import opened PublishingTheorems

  /** A conflict, a missing object, or one of the status codes that may pass. */
  predicate Transient(e: Error) {
    && e.Http?
    && (e.code == 422 || e.code == 500 || e.code == 502 || e.code == 503 || e.code == 504
        || e.body.conflict || e.body.missing)
  }

  // ----- The outer loop

  /** What publisher `p` hears of its next request. */
  function Heard(r: Repo, who: nat, p: Publisher, reply: Reply): Response
    requires ValidRepo(r) && InRange(r, p)
  {
    Serve(r, who, Pending(p), reply).1
  }

  /** Does this step end an attempt that has failed? */
  predicate EndsAttempt(p: Publisher, p': Publisher) {
    !Terminal(p.phase) && (p'.phase.Raised? || p'.attempt != p.attempt)
  }

  /**
    An attempt fails because of the error just heard. If that error is transient and this was not the
    fifth attempt, the next one begins with reading the head; otherwise the call raises the error.
  */
  lemma AttemptEnds(r: Repo, who: nat, p: Publisher, reply: Reply)
    requires ValidRepo(r) && InRange(r, p) && p.attempt <= 4
    requires EndsAttempt(p, StepPublisher(r, who, p, reply).1)
    ensures var p', heard := StepPublisher(r, who, p, reply).1, Heard(r, who, p, reply);
      && heard.Failure?
      && (if Transient(heard.error) && p.attempt < 4
          then p'.phase == ReadHead && p'.attempt == p.attempt + 1
          else p'.phase == Raised(heard.error) && p'.attempt == p.attempt)
  {
    var heard := Heard(r, who, p, reply);
    if heard.Failure? { ErrorEnds(p, heard.error); } else { AnswerContinues(p, heard); }
  }

  lemma ErrorEnds(p: Publisher, e: Error)
    requires p.attempt <= 4 && EndsAttempt(p, ReactToError(p, e))
    ensures var p' := ReactToError(p, e);
      if Transient(e) && p.attempt < 4 then p'.phase == ReadHead && p'.attempt == p.attempt + 1
      else p'.phase == Raised(e) && p'.attempt == p.attempt
  {
    assert !Repeats(p.phase, e);
  }

  lemma AnswerContinues(p: Publisher, response: Response)
    requires !response.Failure?
    ensures !EndsAttempt(p, React(p, response))
  {
  }

  /** The errors that have ended an attempt of publisher `i`, in order. */
  function EndedBy(s: System, schedule: seq<Event>, i: nat): seq<Error>
    requires Valid(s) && i < |s.pubs|
  {
    if schedule == [] then []
    else
      var front, e := schedule[..|schedule| - 1], schedule[|schedule| - 1];
      var m := Exec(s, front);
      var heard := Heard(m.repo, i, m.pubs[i], e.reply);
      EndedBy(s, front, i)
        + if e.who == i && EndsAttempt(m.pubs[i], Step(m, e).pubs[i]) && heard.Failure? then [heard.error] else []
  }

  /** `errors` are those of the failed attempts: all but the last one of a raised call transient. */
  predicate Accounts(p: Publisher, errors: seq<Error>) {
    && p.attempt <= 4
    && |errors| == p.attempt + (if p.phase.Raised? then 1 else 0)
    && (forall k :: 0 <= k < p.attempt && k < |errors| ==> Transient(errors[k]))
    && (p.phase.Raised? ==>
          errors[p.attempt] == p.phase.error && (Transient(p.phase.error) ==> p.attempt == 4))
  }

  lemma AccountsNext(s: System, e: Event, i: nat, errors: seq<Error>)
    requires Valid(s) && i < |s.pubs| && e.who == i && Accounts(s.pubs[i], errors)
    ensures var heard := Heard(s.repo, i, s.pubs[i], e.reply);
      Accounts(Step(s, e).pubs[i],
               errors + if EndsAttempt(s.pubs[i], Step(s, e).pubs[i]) && heard.Failure? then [heard.error] else [])
  {
    var p, p' := s.pubs[i], Step(s, e).pubs[i];
    if EndsAttempt(p, p') { AttemptEnds(s.repo, i, p, e.reply); } else { FinishedStays(s, e, i); }
  }

  /**
    In every schedule: the call is at its attempt number k + 1 because k attempts have been ended by
    transient errors, and it has raised an error because that error ended an attempt and was not
    transient, or because the attempt was the fifth.
  */
  lemma {:induction false} AttemptsAccountedFor(s0: System, schedule: seq<Event>, i: nat)
    requires Init(s0) && i < |s0.pubs|
    ensures Accounts(Exec(s0, schedule).pubs[i], EndedBy(s0, schedule, i))
  {
    if schedule == [] {
      assert s0.pubs[i] == Launch(s0.pubs[i].files);
    } else {
      var front, e := schedule[..|schedule| - 1], schedule[|schedule| - 1];
      AttemptsAccountedFor(s0, front, i);
      if e.who == i { AccountsNext(Exec(s0, front), e, i, EndedBy(s0, front, i)); }
    }
  }

  /**
    In every schedule a call raises a conflict, a missing object or one of the transient status codes
    only after its fifth attempt, and has then offered at most one commit per attempt.
  */
  lemma ConflictsAreRetried(s0: System, schedule: seq<Event>, i: nat)
    requires Init(s0) && i < |s0.pubs|
    ensures var p := Exec(s0, schedule).pubs[i];
      && |p.offered| <= p.attempt + 1 <= 5
      && (p.phase.Raised? && p.phase.error.Http?
          && (p.phase.error.code in {422, 500, 502, 503, 504}
              || p.phase.error.body.conflict || p.phase.error.body.missing)
          ==> p.attempt == 4)
  {
    LandedAfter(s0, schedule, i);
    AttemptsAccountedFor(s0, schedule, i);
  }

  // ----- The inner loops

  /** Hearing an error. */
  function After(p: Publisher, e: Error): Publisher {
    React(p, Failure(e))
  }

  /** The attempt is over: the next one begins, or the call has raised `e`. */
  predicate Over(p: Publisher, p': Publisher, e: Error) {
    (p'.phase == ReadHead && p'.attempt == p.attempt + 1) || (p'.phase == Raised(e) && p'.attempt == p.attempt)
  }

  /** A blob, a tree or a commit that fails is sent again twice; the third error ends the attempt. */
  lemma ThreeTries(p: Publisher, e: Error, e': Error, e'': Error)
    requires p.phase.MakeBlob? || p.phase.MakeTree? || p.phase.MakeCommit?
    requires p.phase.tries == 0
    ensures var p1 := After(p, e); var p2 := After(p1, e'); var p3 := After(p2, e'');
      && Pending(p1) == Pending(p2) == Pending(p)
      && p1.attempt == p2.attempt == p.attempt
      && Over(p, p3, e'')
  {
  }

  /** A commit that has been made but cannot be read back is made again, with the same three tries. */
  lemma UnverifiedIsMadeAgain(p: Publisher, c: CommitId, e: Error)
    requires p.phase.MakeCommit?
    ensures After(React(p, CommitMade(c)), e) == After(p, e)
  {
  }

  /** The same ref update is sent three times when what it meets is no HTTP error or a missing object. */
  lemma ThreeUpdates(p: Publisher, e: Error, e': Error, e'': Error)
    requires p.phase.UpdateRef? && p.phase.tries == 0
    requires e.Transport? || e.body.missingInMessage
    requires e'.Transport? || e'.body.missingInMessage
    ensures var p1 := After(p, e); var p2 := After(p1, e'); var p3 := After(p2, e'');
      && Pending(p1) == Pending(p2) == Pending(p)
      && p1.attempt == p2.attempt == p.attempt
      && Over(p, p3, e'')
  {
  }

  /** Any other error of a ref update, and every error of a read, ends the attempt at once. */
  lemma NoSecondTry(p: Publisher, e: Error)
    requires p.phase.ReadHead? || p.phase.ReadTree?
      || (p.phase.UpdateRef? && e.Http? && !e.body.missingInMessage)
    ensures Over(p, After(p, e), e)
  {
  }
}
