/** The file hand-off between the acquisition runner and the native QMT model: the files both
    sides see, the runner's progress table, and the steps either side takes
    (acquisition/qmt_transport.py, acquisition/qmt_model.py, acquisition/store.py). */
module Handoff {
  import opened Basics

  type Id = nat
  type UnitKey = nat

  // An immutable request; its units are what `units_from_request` derives from it.
  datatype Request = Request(id: Id, units: seq<UnitKey>)

  // What a native result says of a unit.
  datatype Answer = Data | Nothing | Fault

  datatype Result = Result(request: Request, outcomes: map<UnitKey, Answer>)

  // What the progress table says of it; a staged unit awaits the publication of its date.
  datatype Outcome = Complete | NoData | Error | Staged

  datatype Progress = Running | Done(outcome: Outcome)

  // One row of the progress table.
  datatype Row = Row(owner: Id, status: Progress)

  // Where the model is inside `poll`.
  datatype Poll =
    | Idle
    | Saw(request: Request)
    | NotInRoot(request: Request)
    | Unexecuted(request: Request)
    | Executing(request: Request, result: Result)

  // What happened, oldest first; kept only to state properties of whole runs.
  datatype Event =
    | Begun(id: Id) | Activated(id: Id) | Executed(id: Id)
    | Published(result: Result) | Committed(result: Result) | Released(id: Id)

  /** `prepared`, `ready` and `active` are the files in the root; `folders` are the directories
      under processed/, and `keptPrepared` and `keptReady` the files inside them. */
  datatype World = World(
    prepared: map<Id, Request>,
    ready: map<Id, Result>,
    active: Option<Request>,
    folders: set<Id>,
    keptPrepared: map<Id, Request>,
    keptReady: map<Id, Result>,
    db: map<UnitKey, Row>,
    poll: Poll,
    log: seq<Event>)

  predicate IsActive(w: World, id: Id) {
    w.active.Some? && w.active.value.id == id
  }

  predicate HasResult(w: World, id: Id) {
    id in w.ready || id in w.keptReady
  }

  // `_read_retained`: the root first, then the processed directory.
  function ResultOf(w: World, id: Id): Option<Result> {
    if id in w.ready then Some(w.ready[id])
    else if id in w.folders && id in w.keptReady then Some(w.keptReady[id])
    else None
  }

  function RequestOf(w: World, id: Id): Option<Request> {
    if id in w.prepared then Some(w.prepared[id])
    else if id in w.folders && id in w.keptPrepared then Some(w.keptPrepared[id])
    else None
  }

  // `validate_result` against the prepared request.
  predicate ValidResult(r: Result, q: Request) {
    r.request == q && r.outcomes.Keys == set u <- q.units
  }

  predicate Owns(db: map<UnitKey, Row>, q: Request) {
    forall u <- q.units :: u in db && db[u].owner == q.id
  }

  predicate NothingRunning(db: map<UnitKey, Row>, id: Id) {
    forall u <- db :: db[u].owner == id ==> db[u].status != Running
  }

  /* ---------- lawful histories ---------- */

  predicate WasPublished(log: seq<Event>, id: Id) {
    exists e <- log :: e.Published? && e.result.request.id == id
  }

  predicate WasCommitted(log: seq<Event>, id: Id) {
    exists e <- log :: e.Committed? && e.result.request.id == id
  }

  // Whether `e` may happen after `log`.
  predicate Permitted(log: seq<Event>, e: Event) {
    match e
    case Begun(id) => Released(id) !in log
    case Activated(id) =>
      && Begun(id) in log && Activated(id) !in log
      && forall a <- log :: a.Activated? ==> Released(a.id) in log
    case Executed(id) => Activated(id) in log && Released(id) !in log && !WasPublished(log, id)
    case Published(result) => Executed(result.request.id) in log && !WasPublished(log, result.request.id)
    case Committed(result) => Published(result) in log && Released(result.request.id) !in log
    case Released(id) => Activated(id) in log && Released(id) !in log && WasCommitted(log, id)
  }

  predicate Lawful(log: seq<Event>) {
    log == [] || (Lawful(log[..|log| - 1]) && Permitted(log[..|log| - 1], log[|log| - 1]))
  }

  lemma LawfulAppend(log: seq<Event>, e: Event)
    requires Lawful(log) && Permitted(log, e)
    ensures Lawful(log + [e])
    ensures forall f :: f in log + [e] <==> f in log || f == e
    ensures forall id :: WasPublished(log + [e], id) <==> WasPublished(log, id) || (e.Published? && e.result.request.id == id)
    ensures forall id :: WasCommitted(log + [e], id) <==> WasCommitted(log, id) || (e.Committed? && e.result.request.id == id)
  {
    assert (log + [e])[..|log|] == log;
    assert e in log + [e];
    assert forall f :: f in log ==> f in log + [e];
    assert forall f :: f in log + [e] ==> f in log || f == e;
  }

  lemma {:induction false} PermittedAt(log: seq<Event>, i: nat)
    requires Lawful(log) && i < |log|
    ensures Permitted(log[..i], log[i])
  {
    var front := log[..|log| - 1];
    if i < |log| - 1 {
      PermittedAt(front, i);
      assert front[..i] == log[..i] && front[i] == log[i];
    }
  }

  /** A request is never executed again once a result for it exists, and has at most one result. */
  lemma NoExecutionAfterResult(log: seq<Event>, i: nat, j: nat)
    requires Lawful(log) && i < j < |log| && log[i].Published?
    ensures log[j] != Executed(log[i].result.request.id)
    ensures log[j].Published? ==> log[j].result.request.id != log[i].result.request.id
  {
    PermittedAt(log, j);
    assert log[i] in log[..j];
  }

  /** Between two activations the first request was released, and its result was executed,
      published and committed before that, in this order. */
  lemma TurnsAreComplete(log: seq<Event>, i: nat, j: nat) returns (x: nat, p: nat, c: nat, r: nat)
    requires Lawful(log) && i < j < |log| && log[i].Activated? && log[j].Activated?
    ensures x < p < c < r < j && i < x
    ensures log[x] == Executed(log[i].id) && log[r] == Released(log[i].id)
    ensures log[p].Published? && log[p].result.request.id == log[i].id && log[c] == Committed(log[p].result)
  {
    var id := log[i].id;
    PermittedAt(log, j);
    assert log[i] in log[..j];
    r :| 0 <= r < j && log[..j][r] == Released(id);
    PermittedAt(log, r);
    var done :| done in log[..r] && done.Committed? && done.result.request.id == id;
    c :| 0 <= c < r && log[..r][c] == done;
    PermittedAt(log, c);
    p :| 0 <= p < c && log[..c][p] == Published(done.result);
    PermittedAt(log, p);
    x :| 0 <= x < p && log[..p][x] == Executed(id);
    PermittedAt(log, x);
    var a :| 0 <= a < x && log[..x][a] == Activated(id);
    if a < i {
      ActivatedOnce(log, a, i);
    } else if i < a {
      ActivatedOnce(log, i, a);
    }
  }

  lemma ActivatedOnce(log: seq<Event>, i: nat, j: nat)
    requires Lawful(log) && i < j < |log| && log[i].Activated?
    ensures log[i] != log[j]
  {
    PermittedAt(log, j);
    assert log[i] in log[..j];
  }

  /* ---------- the invariant ---------- */

  // `q` is the request both sides agree on under its id.
  predicate Known(w: World, q: Request) {
    (q.id in w.prepared && w.prepared[q.id] == q) || (q.id in w.keptPrepared && w.keptPrepared[q.id] == q)
  }

  predicate FilesAgree(w: World) {
    && (forall id <- w.prepared :: w.prepared[id].id == id)
    && (forall id <- w.keptPrepared :: w.keptPrepared[id].id == id && (id in w.prepared ==> w.prepared[id] == w.keptPrepared[id]))
    && (forall id <- w.ready ::
          && w.ready[id].request.id == id && Known(w, w.ready[id].request) && ValidResult(w.ready[id], w.ready[id].request)
          && IsActive(w, id))
    && (forall id <- w.keptReady ::
          && w.keptReady[id].request.id == id && id in w.keptPrepared && w.keptReady[id].request == w.keptPrepared[id]
          && ValidResult(w.keptReady[id], w.keptReady[id].request)
          && (id in w.ready ==> w.ready[id] == w.keptReady[id]))
  }

  predicate FoldersAgree(w: World) {
    && w.keptPrepared.Keys <= w.folders
    && (forall id <- w.folders ::
          && HasResult(w, id) && WasCommitted(w.log, id)
          && (!IsActive(w, id) ==> id !in w.prepared && id in w.keptReady && Released(id) in w.log))
  }

  predicate ActiveAgrees(w: World) {
    w.active.Some? ==>
      && Known(w, w.active.value)
      && Owns(w.db, w.active.value)
      && Activated(w.active.value.id) in w.log
      && (w.active.value.id !in w.prepared ==> NothingRunning(w.db, w.active.value.id))
  }

  predicate RowsAgree(w: World) {
    forall u <- w.db :: w.db[u].status == Running ==>
      var id := w.db[u].owner;
      id in w.prepared && u in w.prepared[id].units && Begun(id) in w.log
  }

  predicate ModelAgrees(w: World) {
    match w.poll
    case Idle => true
    case Saw(q) => Known(w, q) && (w.active == Some(q) || HasResult(w, q.id))
    case NotInRoot(q) => Known(w, q) && (q.id in w.keptReady || w.active == Some(q))
                         && (q.id !in w.ready)
    case Unexecuted(q) => w.active == Some(q) && !HasResult(w, q.id)
    case Executing(q, r) => w.active == Some(q) && !HasResult(w, q.id) && ValidResult(r, q) && Executed(q.id) in w.log
  }

  ghost predicate LogAgrees(w: World) {
    && Lawful(w.log)
    && (forall id :: WasPublished(w.log, id) ==> HasResult(w, id))
    && (forall id <- w.ready :: Published(w.ready[id]) in w.log)
    && (forall id <- w.keptReady :: Published(w.keptReady[id]) in w.log)
    && (forall id :: Released(id) in w.log ==> id in w.folders && !IsActive(w, id))
    && (forall a <- w.log :: a.Activated? ==> IsActive(w, a.id) || Released(a.id) in w.log)
  }

  /** Holds between any two steps of either side, whatever crashed before. */
  ghost predicate Inv(w: World) {
    match w
    case World(_, _, _, _, _, _, _, _, _) =>
      FilesAgree(w) && FoldersAgree(w) && ActiveAgrees(w) && RowsAgree(w) && ModelAgrees(w) && LogAgrees(w)
  }

  function Empty(): World {
    World(map[], map[], None, {}, map[], map[], map[], Idle, [])
  }

  /* ---------- the model's steps ---------- */

  // One outcome per requested code, whatever the native call answers.
  function Execute(q: Request, answer: map<UnitKey, Answer>): Result {
    Result(q, map u | u in q.units :: if u in answer then answer[u] else Fault)
  }

  /** One step of `poll`. */
  function ModelStep(w: World, answer: map<UnitKey, Answer>): World {
    match w.poll
    case Idle => if w.active.None? then w else w.(poll := Saw(w.active.value))
    case Saw(q) => if q.id in w.ready then w.(poll := Idle) else w.(poll := NotInRoot(q))
    case NotInRoot(q) =>
      if q.id in w.folders && q.id in w.keptReady then w.(poll := Idle) else w.(poll := Unexecuted(q))
    case Unexecuted(q) =>
      w.(poll := Executing(q, Execute(q, answer)), log := w.log + [Executed(q.id)])
    case Executing(q, r) =>
      if q.id in w.ready then w.(poll := Idle)
      else w.(poll := Idle, ready := w.ready[q.id := r], log := w.log + [Published(r)])
  }

  // An event that is neither a commit nor a publication leaves the folders and files in step.
  lemma LoggedFoldersAgree(w: World, e: Event)
    requires FoldersAgree(w) && ActiveAgrees(w) && RowsAgree(w)
    ensures var after := w.(log := w.log + [e]); FoldersAgree(after) && ActiveAgrees(after) && RowsAgree(after)
  {
    assert forall f <- w.log :: f in w.log + [e];
  }

  lemma ExecuteLogAgrees(w: World, answer: map<UnitKey, Answer>)
    requires LogAgrees(w) && ModelAgrees(w) && ActiveAgrees(w) && w.poll.Unexecuted?
    ensures LogAgrees(ModelStep(w, answer)) && ModelAgrees(ModelStep(w, answer))
  {
    LawfulAppend(w.log, Executed(w.poll.request.id));
  }

  lemma ExecuteKeepsInv(w: World, answer: map<UnitKey, Answer>)
    requires Inv(w) && w.poll.Unexecuted?
    ensures Inv(ModelStep(w, answer))
  {
    ExecuteLogAgrees(w, answer);
    LoggedFoldersAgree(w, Executed(w.poll.request.id));
    var after := w.(log := w.log + [Executed(w.poll.request.id)]);
    PollFilesAgree(w, ModelStep(w, answer).poll);
    PollFoldersAgree(after, ModelStep(w, answer).poll);
  }

  lemma PublishLogAgrees(w: World, answer: map<UnitKey, Answer>)
    requires LogAgrees(w) && ModelAgrees(w) && w.poll.Executing?
    ensures LogAgrees(ModelStep(w, answer))
  {
    LawfulAppend(w.log, Published(w.poll.result));
  }

  lemma PublishFilesAgree(w: World, answer: map<UnitKey, Answer>)
    requires FilesAgree(w) && ActiveAgrees(w) && ModelAgrees(w) && w.poll.Executing?
    ensures FilesAgree(ModelStep(w, answer))
  {
  }

  lemma PublishFoldersAgree(w: World, answer: map<UnitKey, Answer>)
    requires FoldersAgree(w) && ActiveAgrees(w) && RowsAgree(w) && ModelAgrees(w) && w.poll.Executing?
    ensures var after := ModelStep(w, answer); FoldersAgree(after) && ActiveAgrees(after) && RowsAgree(after)
  {
    LoggedFoldersAgree(w, Published(w.poll.result));
  }

  lemma PublishKeepsInv(w: World, answer: map<UnitKey, Answer>)
    requires Inv(w) && w.poll.Executing?
    ensures Inv(ModelStep(w, answer))
  {
    PublishLogAgrees(w, answer);
    PublishFilesAgree(w, answer);
    PublishFoldersAgree(w, answer);
  }

  // Where the model is plays no part in the files,
  lemma PollFilesAgree(w: World, poll: Poll)
    requires FilesAgree(w) && ActiveAgrees(w)
    ensures FilesAgree(w.(poll := poll)) && ActiveAgrees(w.(poll := poll))
  {
  }

  // nor in the folders and rows,
  lemma PollFoldersAgree(w: World, poll: Poll)
    requires FoldersAgree(w) && RowsAgree(w)
    ensures FoldersAgree(w.(poll := poll)) && RowsAgree(w.(poll := poll))
  {
  }

  // nor in the history.
  lemma PollLogAgrees(w: World, poll: Poll)
    requires LogAgrees(w)
    ensures LogAgrees(w.(poll := poll))
  {
  }

  lemma PollKeepsInv(w: World, poll: Poll)
    requires Inv(w) && ModelAgrees(w.(poll := poll))
    ensures Inv(w.(poll := poll))
  {
    PollFilesAgree(w, poll);
    PollFoldersAgree(w, poll);
    PollLogAgrees(w, poll);
  }

  // Looking changes only where the model is.
  lemma LookAgrees(w: World, answer: map<UnitKey, Answer>)
    requires FilesAgree(w) && ActiveAgrees(w) && FoldersAgree(w) && ModelAgrees(w)
    requires w.poll.Idle? || w.poll.Saw? || w.poll.NotInRoot?
    ensures var next := ModelStep(w, answer); next == w.(poll := next.poll) && ModelAgrees(next)
  {
  }

  lemma LookKeepsInv(w: World, answer: map<UnitKey, Answer>)
    requires Inv(w) && (w.poll.Idle? || w.poll.Saw? || w.poll.NotInRoot?)
    ensures Inv(ModelStep(w, answer))
  {
    LookAgrees(w, answer);
    PollKeepsInv(w, ModelStep(w, answer).poll);
  }

  lemma ModelStepKeepsInv(w: World, answer: map<UnitKey, Answer>)
    requires Inv(w)
    ensures Inv(ModelStep(w, answer))
  {
    match w.poll
    case Unexecuted(_) => ExecuteKeepsInv(w, answer);
    case Executing(_, _) => PublishKeepsInv(w, answer);
    case _ => LookKeepsInv(w, answer);
  }

  /* ---------- the model does answer ---------- */

  // The model left to itself, every native call giving this answer.
  function Steps(w: World, answer: map<UnitKey, Answer>, n: nat): World {
    if n == 0 then w else ModelStep(Steps(w, answer, n - 1), answer)
  }

  /** From an active request without a result and an idle model, five steps of `poll` execute it
      once and publish one outcome for each of its units and no other: what the native side
      answered, a fault where it answered nothing. Nothing else changes. */
  lemma ModelAnswers(w: World, q: Request, answer: map<UnitKey, Answer>) returns (r: Result)
    requires Inv(w) && w.active == Some(q) && ResultOf(w, q.id).None? && w.poll == Idle
    ensures r.request == q && (forall u :: u in r.outcomes <==> u in q.units)
    ensures forall u <- q.units :: r.outcomes[u] == if u in answer then answer[u] else Fault
    ensures Steps(w, answer, 5) == w.(ready := w.ready[q.id := r], log := w.log + [Executed(q.id)] + [Published(r)])
    ensures Inv(Steps(w, answer, 5)) && ResultOf(Steps(w, answer, 5), q.id) == Some(r)
  {
    FourSteps(w, q, answer);
    r := Steps(w, answer, 4).poll.result;
    StepsKeepInv(w, answer, 5);
  }

  // Two looks, then the execution.
  lemma FourSteps(w: World, q: Request, answer: map<UnitKey, Answer>)
    requires w.active == Some(q) && q.id !in w.ready && !(q.id in w.folders && q.id in w.keptReady) && w.poll == Idle
    ensures var after := Steps(w, answer, 4);
      after.poll.Executing? && after.poll.request == q && after == w.(poll := after.poll, log := w.log + [Executed(q.id)])
      && var r := after.poll.result;
         r.request == q && (forall u :: u in r.outcomes <==> u in q.units)
         && forall u <- q.units :: r.outcomes[u] == if u in answer then answer[u] else Fault
  {
    assert Steps(w, answer, 0) == w;
    assert Steps(w, answer, 1) == w.(poll := Saw(q));
    assert Steps(w, answer, 2) == w.(poll := NotInRoot(q));
    assert Steps(w, answer, 3) == w.(poll := Unexecuted(q));
  }

  lemma {:induction false} StepsKeepInv(w: World, answer: map<UnitKey, Answer>, n: nat)
    requires Inv(w)
    ensures Inv(Steps(w, answer, n))
  {
    if n > 0 {
      StepsKeepInv(w, answer, n - 1);
      ModelStepKeepsInv(Steps(w, answer, n - 1), answer);
    }
  }
}
