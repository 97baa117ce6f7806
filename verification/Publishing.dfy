/**
  The protocol by which the CI publishers (`publish` in scripts/ci/publish.py and
  `publish_traces` in scripts/ci/publish_trend.py) race on one branch of one repository.

  The server is a log of commits plus the branch head. A commit is named by its position in the
  log, an injective renaming of the hashes in order of creation, so a parent is always a smaller
  number. Trees and blobs are content addressed and are therefore modelled by their contents.

  Each publisher is a step machine whose program counter follows the nested retry loops; one step
  is one API request together with the reaction to its reply. A schedule (`seq<Event>`) fixes the
  interleaving and the fate of every request, and `Exec` runs it, so "for every schedule" is
  "for every interleaving of any number of publishers under arbitrary request failures".
*/
module Publishing {
  import opened Common

  type Path = string
  type Content = seq<bv8>
  type Tree = map<Path, Content>
  type CommitId = nat

  datatype File = File(path: Path, content: Content)

  /** `author` is the publisher that asked for the commit; commits older than the run have none. */
  datatype Commit = Commit(parent: Option<CommitId>, tree: Tree, author: Option<nat>)

  datatype Repo = Repo(log: seq<Commit>, head: CommitId)

  // ----- Requests and what can happen to them

  datatype Request =
    | GetHead
    | GetTree(commit: CommitId)
    | PostBlob(file: File)
    | PostTree(base: Tree, items: seq<File>)
    | PostCommit(parent: CommitId, tree: Tree)
    | GetCommit(commit: CommitId)
    | PatchRef(commit: CommitId)
    | NoRequest

  datatype Response =
    | HeadIs(commit: CommitId)
    | TreeIs(tree: Tree)
    | BlobMade(item: File)
    | TreeMade(tree: Tree)
    | CommitMade(commit: CommitId)
    | CommitSeen
    | RefMoved
    | Failure(error: Error)

  /**
    What the publishers look for in an HTTP error body. The outer loop searches the raw text for
    either phrase; the ref update searches only the decoded `message`, which may have the phrase in
    a different spelling or not at all.
  */
  datatype Body = Body(conflict: bool, missing: bool, missingInMessage: bool)

  const NOT_FAST_FORWARD := Http(422, Body(true, false, false))

  /** `Transport` is every exception that is not an `HTTPError`; it carries no error body. */
  datatype Error = Transport | Http(code: int, body: Body)

  /** A request is answered, fails without effect, or takes effect while its reply is an error. */
  datatype Fate = Served | Failed(error: Error) | Lost(error: Error)

  /**
    `hint` resolves what the server is free to choose: a head read may return an older head of the
    branch, and re-creating an identical commit may return the commit that already exists.
  */
  datatype Reply = Reply(fate: Fate, hint: nat)

  const MAX_ATTEMPTS := 5
  const MAX_TRIES := 3

  // ----- Publishers

  datatype Phase =
    | NothingToDo
    | ReadHead
    | ReadTree(head: CommitId)
    | MakeBlob(head: CommitId, base: Tree, items: seq<File>, tries: nat)
    | MakeTree(head: CommitId, base: Tree, items: seq<File>, tries: nat)
    | MakeCommit(head: CommitId, tree: Tree, tries: nat)
    | VerifyCommit(head: CommitId, tree: Tree, commit: CommitId, tries: nat)
    | UpdateRef(commit: CommitId, tries: nat)
    | Succeeded(commit: CommitId)
    | Raised(error: Error)

  /**
    `offered` and `lost` are history: the commits handed to `update_branch_ref`, one per attempt,
    and those whose ref update took effect although its reply was an error.
  */
  datatype Publisher = Publisher(
    files: seq<File>, attempt: nat, phase: Phase, offered: seq<CommitId>, lost: set<CommitId>)

  datatype System = System(repo: Repo, pubs: seq<Publisher>)

  datatype Event = Event(who: nat, reply: Reply)

  function Launch(files: seq<File>): Publisher {
    Publisher(files, 0, if files == [] then NothingToDo else ReadHead, [], {})
  }

  predicate Terminal(phase: Phase) {
    phase.NothingToDo? || phase.Succeeded? || phase.Raised?
  }

  /** The errors after which the whole read-to-update sequence is attempted again. */
  predicate Retryable(e: Error) {
    e.Http? && (e.body.conflict || e.body.missing || e.code in {422, 500, 502, 503, 504})
  }

  /** The errors after which the same ref update is sent again. */
  predicate RetryableUpdate(e: Error) {
    e.Transport? || e.body.missingInMessage
  }

  /** The `except` clause of the outer loop. */
  function AfterError(p: Publisher, e: Error): Publisher {
    if Retryable(e) && p.attempt < MAX_ATTEMPTS - 1
    then p.(attempt := p.attempt + 1, phase := ReadHead)
    else p.(phase := Raised(e))
  }

  /** The `except` clause of an inner loop: is the request sent again? */
  predicate Repeats(phase: Phase, e: Error) {
    match phase
    case MakeBlob(_, _, _, tries) => tries < MAX_TRIES - 1
    case MakeTree(_, _, _, tries) => tries < MAX_TRIES - 1
    case MakeCommit(_, _, tries) => tries < MAX_TRIES - 1
    case VerifyCommit(_, _, _, tries) => tries < MAX_TRIES - 1
    case UpdateRef(_, tries) => RetryableUpdate(e) && tries < MAX_TRIES - 1
    case _ => false
  }

  /** The phase that sends the request again; a commit that cannot be read back is made again. */
  function Again(phase: Phase): Phase {
    match phase
    case MakeBlob(h, base, items, tries) => MakeBlob(h, base, items, tries + 1)
    case MakeTree(h, base, items, tries) => MakeTree(h, base, items, tries + 1)
    case MakeCommit(h, tree, tries) => MakeCommit(h, tree, tries + 1)
    case VerifyCommit(h, tree, _, tries) => MakeCommit(h, tree, tries + 1)
    case UpdateRef(c, tries) => UpdateRef(c, tries + 1)
    case _ => phase
  }

  function NextBlob(p: Publisher, head: CommitId, base: Tree, items: seq<File>): Phase {
    if |items| < |p.files| then MakeBlob(head, base, items, 0) else MakeTree(head, base, items, 0)
  }

  // ----- The server

  function Overlay(base: Tree, items: seq<File>): Tree {
    if items == [] then base
    else Overlay(base, items[..|items| - 1])[items[|items| - 1].path := items[|items| - 1].content]
  }

  predicate WellParented(log: seq<Commit>) {
    forall c :: 0 <= c < |log| && log[c].parent.Some? ==> log[c].parent.value < c
  }

  predicate ValidRepo(r: Repo) {
    WellParented(r.log) && r.head < |r.log|
  }

  /** The commits reachable from `c`, `c` included. */
  function Ancestors(log: seq<Commit>, c: CommitId): (r: set<CommitId>)
    requires WellParented(log) && c < |log|
    ensures c in r && forall a :: a in r ==> a <= c
    decreases c
  {
    {c} + if log[c].parent.None? then {} else Ancestors(log, log[c].parent.value)
  }

  /** The branch moves without force: the current head must be reachable from the new one. */
  predicate FastForward(r: Repo, c: CommitId)
    requires ValidRepo(r) && c < |r.log|
  {
    r.head in Ancestors(r.log, c)
  }

  function Move(r: Repo, c: CommitId): Repo
    requires ValidRepo(r) && c < |r.log|
  {
    if FastForward(r, c) then r.(head := c) else r
  }

  function AnsweredHead(r: Repo, hint: nat): CommitId
    requires ValidRepo(r)
  {
    if hint in Ancestors(r.log, r.head) then hint else r.head
  }

  /** Creating a commit yields a new one, or an existing commit with the same content. */
  function Create(r: Repo, c: Commit, hint: nat): (Repo, CommitId)
    requires ValidRepo(r)
  {
    if hint < |r.log| && r.log[hint] == c then (r, hint) else (r.(log := r.log + [c]), |r.log|)
  }

  predicate RequestInRange(r: Repo, q: Request) {
    match q
    case GetTree(c) => c < |r.log|
    case PostCommit(h, _) => h < |r.log|
    case GetCommit(c) => c < |r.log|
    case PatchRef(c) => c < |r.log|
    case _ => true
  }

  function Answer(fate: Fate, ok: Response): Response {
    if fate.Served? then ok else Failure(fate.error)
  }

  /** The server: the effect of a request sent by publisher `who`, and the reply it gets. */
  function Serve(r: Repo, who: nat, q: Request, reply: Reply): (result: (Repo, Response))
    requires ValidRepo(r) && RequestInRange(r, q)
    ensures ValidRepo(result.0) && r.log <= result.0.log
  {
    match q
    case GetHead => (r, Answer(reply.fate, HeadIs(AnsweredHead(r, reply.hint))))
    case GetTree(c) => (r, Answer(reply.fate, TreeIs(r.log[c].tree)))
    case PostBlob(f) => (r, Answer(reply.fate, BlobMade(f)))
    case PostTree(base, items) => (r, Answer(reply.fate, TreeMade(Overlay(base, items))))
    case PostCommit(h, tree) =>
      var (r', c) := Create(r, Commit(Some(h), tree, Some(who)), reply.hint);
      (if reply.fate.Failed? then r else r', Answer(reply.fate, CommitMade(c)))
    case GetCommit(_) => (r, Answer(reply.fate, CommitSeen))
    case PatchRef(c) =>
      (if reply.fate.Failed? then r else Move(r, c),
       Answer(reply.fate, if FastForward(r, c) then RefMoved else Failure(NOT_FAST_FORWARD)))
    case NoRequest => (r, Answer(reply.fate, CommitSeen))
  }

  // ----- The client

  predicate InRange(r: Repo, p: Publisher) {
    match p.phase
    case ReadTree(h) => h < |r.log|
    case MakeBlob(h, _, items, _) => h < |r.log| && |items| < |p.files|
    case MakeTree(h, _, _, _) => h < |r.log|
    case MakeCommit(h, _, _) => h < |r.log|
    case VerifyCommit(h, _, c, _) => h < |r.log| && c < |r.log|
    case UpdateRef(c, _) => c < |r.log|
    case Succeeded(c) => c < |r.log|
    case _ => true
  }

  predicate Valid(s: System) {
    ValidRepo(s.repo) && forall i :: 0 <= i < |s.pubs| ==> InRange(s.repo, s.pubs[i])
  }

  /** The request a publisher sends next. */
  function Pending(p: Publisher): Request {
    match p.phase
    case ReadHead => GetHead
    case ReadTree(h) => GetTree(h)
    case MakeBlob(_, _, items, _) => if |items| < |p.files| then PostBlob(p.files[|items|]) else NoRequest
    case MakeTree(_, base, items, _) => PostTree(base, items)
    case MakeCommit(h, tree, _) => PostCommit(h, tree)
    case VerifyCommit(_, _, c, _) => GetCommit(c)
    case UpdateRef(c, _) => PatchRef(c)
    case _ => NoRequest
  }

  /** The `except` clauses: what a publisher does when its request failed. */
  function ReactToError(p: Publisher, e: Error): Publisher {
    if Repeats(p.phase, e) then p.(phase := Again(p.phase)) else AfterError(p, e)
  }

  /** What a publisher does with a reply. */
  function React(p: Publisher, response: Response): Publisher {
    if Terminal(p.phase) then p
    else if response.Failure? then ReactToError(p, response.error)
    else
      match (p.phase, response)
      case (ReadHead, HeadIs(h)) => p.(phase := ReadTree(h))
      case (ReadTree(h), TreeIs(base)) => p.(phase := NextBlob(p, h, base, []))
      case (MakeBlob(h, base, items, _), BlobMade(item)) => p.(phase := NextBlob(p, h, base, items + [item]))
      case (MakeTree(h, _, _, _), TreeMade(tree)) => p.(phase := MakeCommit(h, tree, 0))
      case (MakeCommit(h, tree, tries), CommitMade(c)) => p.(phase := VerifyCommit(h, tree, c, tries))
      case (VerifyCommit(_, _, c, _), CommitSeen) => p.(phase := UpdateRef(c, 0), offered := p.offered + [c])
      case (UpdateRef(c, _), RefMoved) => p.(phase := Succeeded(c))
      case _ => p
  }

  // ----- One step of the system

  /** Did this reply hide a ref update that took effect? */
  predicate LosesUpdate(r: Repo, p: Publisher, fate: Fate)
    requires ValidRepo(r) && InRange(r, p)
  {
    p.phase.UpdateRef? && fate.Lost? && FastForward(r, p.phase.commit)
  }

  /** One request of publisher `who` and its reaction to the reply. */
  function StepPublisher(r: Repo, who: nat, p: Publisher, reply: Reply): (result: (Repo, Publisher))
    requires ValidRepo(r) && InRange(r, p)
    ensures ValidRepo(result.0) && InRange(result.0, result.1)
    ensures r.log <= result.0.log && result.1.files == p.files
  {
    var (r', response) := Serve(r, who, Pending(p), reply);
    var p' := React(p, response);
    (r', if LosesUpdate(r, p, reply.fate) then p'.(lost := p'.lost + {p.phase.commit}) else p')
  }

  /** An event of a publisher that does not exist changes nothing. */
  function Step(s: System, e: Event): (s': System)
    requires Valid(s)
    ensures Valid(s') && s.repo.log <= s'.repo.log && |s'.pubs| == |s.pubs|
    ensures forall i :: 0 <= i < |s.pubs| ==> s'.pubs[i].files == s.pubs[i].files
  {
    if e.who < |s.pubs| then
      var (r, p) := StepPublisher(s.repo, e.who, s.pubs[e.who], e.reply);
      System(r, s.pubs[e.who := p])
    else s
  }

  /** Runs a schedule. */
  function Exec(s: System, schedule: seq<Event>): (s': System)
    requires Valid(s)
    ensures Valid(s') && s.repo.log <= s'.repo.log && |s'.pubs| == |s.pubs|
    ensures forall i :: 0 <= i < |s.pubs| ==> s'.pubs[i].files == s.pubs[i].files
  {
    if schedule == [] then s
    else Step(Exec(s, schedule[..|schedule| - 1]), schedule[|schedule| - 1])
  }

  lemma ExecNext(s: System, trace: seq<Event>, e: Event)
    requires Valid(s)
    ensures Exec(s, trace + [e]) == Step(Exec(s, trace), e)
  {
    assert (trace + [e])[..|trace|] == trace;
  }

  /** Two runs that take the same steps from the same state stay together. */
  lemma {:induction false} StayTogether<S(!new), E(!new)>(
    f: seq<E> -> S, g: seq<E> -> S, step: (S, E) -> S, a: seq<E>, b: seq<E>)
    requires forall t, e :: f(t + [e]) == step(f(t), e)
    requires forall t, e :: g(t + [e]) == step(g(t), e)
    requires f(a) == g([])
    ensures f(a + b) == g(b)
  {
    if b == [] {
      assert a + b == a;
    } else {
      var front, e := b[..|b| - 1], b[|b| - 1];
      StayTogether(f, g, step, a, front);
      assert a + b == (a + front) + [e] && b == front + [e];
    }
  }

  lemma ExecConcat(s: System, a: seq<Event>, b: seq<Event>)
    requires Valid(s)
    ensures Exec(s, a + b) == Exec(Exec(s, a), b)
  {
    var m := Exec(s, a);
    var f, g := t => Exec(s, t), t => Exec(m, t);
    var step := (x: System, e: Event) => if Valid(x) then Step(x, e) else x;
    forall t, e ensures f(t + [e]) == step(f(t), e) { ExecNext(s, t, e); }
    forall t, e ensures g(t + [e]) == step(g(t), e) { ExecNext(m, t, e); }
    StayTogether(f, g, step, a, b);
  }

  lemma {:induction false} OthersLeaveMeAlone(s: System, schedule: seq<Event>, me: nat)
    requires Valid(s) && me < |s.pubs| && forall k :: 0 <= k < |schedule| ==> schedule[k].who != me
    ensures Exec(s, schedule).pubs[me] == s.pubs[me]
  {
    if schedule != [] { OthersLeaveMeAlone(s, schedule[..|schedule| - 1], me); }
  }

  /** Any repository history, and any number of publishers that have just been called. */
  predicate Init(s: System) {
    && ValidRepo(s.repo)
    && (forall c :: 0 <= c < |s.repo.log| ==> s.repo.log[c].author.None?)
    && (forall i :: 0 <= i < |s.pubs| ==> s.pubs[i] == Launch(s.pubs[i].files))
  }
}
