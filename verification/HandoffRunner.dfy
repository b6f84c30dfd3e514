/** The runner's side of the hand-off. Before each of its durable steps the model may take any
    number of steps of its own, and either side may die
    (acquisition/runner.py, acquisition/qmt_transport.py, acquisition/store.py). */
module HandoffRunner {
  import opened Basics
  import opened Handoff

  // What a commit makes of a unit, given what the table says of it.
  type Judge = (Result, UnitKey, Progress) -> Outcome

  /* ---------- the two progress transactions ---------- */

  predicate RunsElsewhere(db: map<UnitKey, Row>, u: UnitKey, id: Id) {
    u in db && db[u].owner != id && db[u].status == Running
  }

  predicate CanBegin(db: map<UnitKey, Row>, q: Request) {
    forall u <- q.units :: !RunsElsewhere(db, u, q.id)
  }

  // Every unit that `id` does not own yet becomes its own and runs.
  function BeginRows(db: map<UnitKey, Row>, units: seq<UnitKey>, id: Id): map<UnitKey, Row> {
    map u | u in db.Keys + (set v | v in units) ::
      if u in db && (u !in units || db[u].owner == id) then db[u] else Row(id, Running)
  }

  // Every unit takes the outcome that the commit makes of it.
  function SettleRows(db: map<UnitKey, Row>, units: seq<UnitKey>, r: Result, judge: Judge): map<UnitKey, Row> {
    map u | u in db :: if u in units then Row(db[u].owner, Done(judge(r, u, db[u].status))) else db[u]
  }

  /** A begin makes every unit its request's own: one it owned already stands as it stood, any other
      runs. No other row moves. */
  lemma BeginMeans(db: map<UnitKey, Row>, units: seq<UnitKey>, id: Id, u: UnitKey)
    ensures var after := BeginRows(db, units, id);
      && (u in after <==> u in db || u in units)
      && (u in units ==> after[u].owner == id)
      && (u in units && !(u in db && db[u].owner == id) ==> after[u].status == Running)
      && (u in db && (u !in units || db[u].owner == id) ==> after[u] == db[u])
  {
  }

  // One turn of the loop that claims them.
  lemma ClaimNext(rows: map<UnitKey, Row>, units: seq<UnitKey>, i: nat, id: Id)
    requires i < |units| && forall v <- units[..i] :: !RunsElsewhere(rows, v, id)
    ensures var u, before := units[i], BeginRows(rows, units[..i], id);
      && BeginRows(rows, units[..i + 1], id) == (if u !in before || before[u].owner != id then before[u := Row(id, Running)] else before)
      && (RunsElsewhere(rows, u, id) <==> u in before && before[u].owner != id && before[u].status == Running)
    ensures forall v <- units[..i + 1] :: v in units[..i] || v == units[i]
  {
    assert units[..i + 1] == units[..i] + [units[i]];
  }

  /** A settlement leaves every unit with its owner and the outcome the judge gave it. */
  lemma SettleMeans(db: map<UnitKey, Row>, units: seq<UnitKey>, r: Result, judge: Judge, u: UnitKey)
    ensures var after := SettleRows(db, units, r, judge);
      && (u in after <==> u in db)
      && (u in db && u in units ==> after[u].owner == db[u].owner && after[u].status == Done(judge(r, u, db[u].status)))
      && (u in db && u !in units ==> after[u] == db[u])
  {
  }

  datatype Counts = Counts(complete: nat, noData: nat, error: nat)

  function Counted(c: Counts, o: Outcome): Counts {
    match o
    case NoData => c.(noData := c.noData + 1)
    case Error => c.(error := c.error + 1)
    case _ => c.(complete := c.complete + 1)
  }

  // The outcomes that the table holds for these units.
  function CountRows(db: map<UnitKey, Row>, units: seq<UnitKey>): (c: Counts)
    requires forall u <- units :: u in db && db[u].status.Done?
    ensures c.complete + c.noData + c.error == |units|
  {
    if units == [] then Counts(0, 0, 0)
    else
      var last := units[|units| - 1];
      assert last in units;
      Counted(CountRows(db, units[..|units| - 1]), db[last].status.outcome)
  }

  // One turn of the commit loop.
  lemma SettleNext(db: map<UnitKey, Row>, units: seq<UnitKey>, i: nat, r: Result, judge: Judge)
    requires i < |units| && forall u <- units[..i + 1] :: u in db
    ensures var before, after := SettleRows(db, units[..i], r, judge), SettleRows(db, units[..i + 1], r, judge);
      && var u := units[i];
      && after == before[u := Row(db[u].owner, Done(judge(r, u, db[u].status)))]
      && (forall v <- units[..i + 1] :: after[v].status.Done?)
      && (forall v <- units[..i] :: before[v].status.Done?)
      && CountRows(after, units[..i + 1]) == Counted(CountRows(before, units[..i]), after[u].status.outcome)
  {
    var before, after := SettleRows(db, units[..i], r, judge), SettleRows(db, units[..i + 1], r, judge);
    assert units[..i + 1] == units[..i] + [units[i]];
    assert units[..i + 1][..i] == units[..i];
    assert forall v <- units[..i] :: v in units[..i + 1];
    CountSame(before, after, units[..i]);
  }

  lemma CountSame(a: map<UnitKey, Row>, b: map<UnitKey, Row>, units: seq<UnitKey>)
    requires forall u <- units :: u in a && u in b && a[u] == b[u] && a[u].status.Done?
    ensures CountRows(a, units) == CountRows(b, units)
  {
  }

  lemma BeginOwns(db: map<UnitKey, Row>, q: Request)
    ensures Owns(BeginRows(db, q.units, q.id), q)
  {
  }

  /** Beginning the same request twice is beginning it once. */
  lemma BeginTwice(db: map<UnitKey, Row>, q: Request)
    ensures var once := BeginRows(db, q.units, q.id);
      BeginRows(once, q.units, q.id) == once && Owns(once, q) && CanBegin(once, q)
  {
  }

  /* ---------- the runner's steps ---------- */

  // Events that neither open nor close a turn nor publish a result.
  lemma LogStillAgrees(w: World, after: World, e: Event)
    requires LogAgrees(w) && Permitted(w.log, e) && (e.Begun? || e.Committed?)
    requires after == w.(db := after.db, log := w.log + [e])
    ensures LogAgrees(after)
    ensures FoldersAgree(w) ==> FoldersAgree(after)
  {
    LawfulAppend(w.log, e);
  }

  lemma NotReleased(w: World, id: Id)
    requires Inv(w) && (id in w.prepared || IsActive(w, id))
    ensures Released(id) !in w.log
  {
  }

  function LinkPrepared(w: World, q: Request): World {
    w.(prepared := w.prepared[q.id := q])
  }

  lemma LinkPreparedFilesAgree(w: World, q: Request)
    requires FilesAgree(w) && q.id !in w.prepared && q.id !in w.keptPrepared
    ensures FilesAgree(LinkPrepared(w, q)) && forall known :: Known(w, known) ==> Known(LinkPrepared(w, q), known)
  {
  }

  lemma LinkPreparedLogAgrees(w: World, q: Request)
    requires LogAgrees(w) && FoldersAgree(w) && RowsAgree(w) && q.id !in w.folders && q.id !in w.prepared
    ensures LogAgrees(LinkPrepared(w, q)) && FoldersAgree(LinkPrepared(w, q)) && RowsAgree(LinkPrepared(w, q))
  {
  }

  lemma LinkPreparedKeepsInv(w: World, q: Request)
    requires Inv(w) && q.id !in w.folders && q.id !in w.prepared
    ensures Inv(LinkPrepared(w, q))
  {
    LinkPreparedFilesAgree(w, q);
    LinkPreparedLogAgrees(w, q);
  }

  function Begin(w: World, q: Request): World {
    w.(db := BeginRows(w.db, q.units, q.id), log := w.log + [Begun(q.id)])
  }

  lemma BeginKeepsInv(w: World, q: Request)
    requires Inv(w) && w.active.None? && q.id in w.prepared && w.prepared[q.id] == q && CanBegin(w.db, q)
    ensures Inv(Begin(w, q))
  {
    NotReleased(w, q.id);
    LogStillAgrees(w, Begin(w, q), Begun(q.id));
    BeginFilesAgree(w, q);
  }

  lemma BeginFilesAgree(w: World, q: Request)
    requires FilesAgree(w) && RowsAgree(w) && w.active.None? && q.id in w.prepared && w.prepared[q.id] == q && CanBegin(w.db, q)
    ensures FilesAgree(Begin(w, q)) && RowsAgree(Begin(w, q))
  {
  }

  function LinkActive(w: World, q: Request): World {
    w.(active := Some(q), log := w.log + [Activated(q.id)])
  }

  lemma LinkActiveKeepsInv(w: World, q: Request)
    requires Inv(w) && w.active.None? && q.id in w.prepared && w.prepared[q.id] == q && q.id !in w.folders
    requires Owns(w.db, q) && Begun(q.id) in w.log
    ensures Inv(LinkActive(w, q))
  {
    LinkActiveLogAgrees(w, q);
    LinkActiveFilesAgree(w, q);
    LinkActiveFoldersAgree(w, q);
  }

  lemma LinkActiveFoldersAgree(w: World, q: Request)
    requires FoldersAgree(w) && w.active.None? && q.id !in w.folders
    ensures FoldersAgree(LinkActive(w, q))
  {
    LawfulAppendKeeps(w.log, Activated(q.id));
  }

  lemma LinkActiveFilesAgree(w: World, q: Request)
    requires FilesAgree(w) && RowsAgree(w) && w.active.None?
    ensures FilesAgree(LinkActive(w, q)) && RowsAgree(LinkActive(w, q))
  {
    LawfulAppendKeeps(w.log, Activated(q.id));
  }

  lemma LawfulAppendKeeps(log: seq<Event>, e: Event)
    ensures e in log + [e] && forall f <- log :: f in log + [e]
    ensures forall id :: WasCommitted(log, id) ==> WasCommitted(log + [e], id)
  {
    assert forall f <- log :: f in log + [e];
  }

  lemma LinkActiveLogAgrees(w: World, q: Request)
    requires LogAgrees(w) && w.active.None? && q.id !in w.folders && Begun(q.id) in w.log
    ensures LogAgrees(LinkActive(w, q))
  {
    LawfulAppend(w.log, Activated(q.id));
  }

  function Settle(w: World, r: Result, judge: Judge): World {
    w.(db := SettleRows(w.db, r.request.units, r, judge), log := w.log + [Committed(r)])
  }

  lemma SettleKeepsInv(w: World, r: Result, judge: Judge)
    requires Inv(w) && w.active == Some(r.request) && ResultOf(w, r.request.id) == Some(r)
    ensures Inv(Settle(w, r, judge)) && NothingRunning(Settle(w, r, judge).db, r.request.id)
    ensures WasCommitted(Settle(w, r, judge).log, r.request.id) && Archivable(Settle(w, r, judge), r.request.id)
    ensures ResultOf(Settle(w, r, judge), r.request.id) == Some(r)
  {
    NotReleased(w, r.request.id);
    LogStillAgrees(w, Settle(w, r, judge), Committed(r));
    SettleRowsAgree(w, r, judge);
    SettleFilesAgree(w, r, judge);
    assert Committed(r) in Settle(w, r, judge).log;
  }

  lemma SettleFilesAgree(w: World, r: Result, judge: Judge)
    requires FilesAgree(w) && ModelAgrees(w)
    ensures FilesAgree(Settle(w, r, judge)) && ModelAgrees(Settle(w, r, judge))
  {
    LawfulAppendKeeps(w.log, Committed(r));
  }

  lemma SettleRowsAgree(w: World, r: Result, judge: Judge)
    requires RowsAgree(w) && ActiveAgrees(w) && FilesAgree(w) && w.active == Some(r.request)
    ensures var after := Settle(w, r, judge);
      RowsAgree(after) && ActiveAgrees(after) && NothingRunning(after.db, r.request.id)
  {
    var db, id := Settle(w, r, judge).db, r.request.id;
    forall u <- db | db[u].owner == id ensures db[u].status != Running {
      assert w.db[u].status == Running && id in w.prepared ==> u in r.request.units;
    }
  }

  lemma ResultIsForActive(w: World, r: Result)
    requires Inv(w) && w.active.Some? && ResultOf(w, w.active.value.id) == Some(r)
    ensures r.request == w.active.value
  {
  }

  // The result is committed and its request still holds the active file.
  ghost predicate Archivable(w: World, id: Id) {
    Inv(w) && WasCommitted(w.log, id) && HasResult(w, id) && IsActive(w, id) && NothingRunning(w.db, id)
  }

  // Moving results between the two directories keeps the history in step.
  lemma MovedLogAgrees(w: World, after: World)
    requires LogAgrees(w) && after.log == w.log && after.active == w.active && w.folders <= after.folders
    requires forall id :: HasResult(w, id) ==> HasResult(after, id)
    requires forall id <- after.ready :: id in w.ready && after.ready[id] == w.ready[id]
    requires forall id <- after.keptReady :: (id in w.ready && after.keptReady[id] == w.ready[id])
                                             || (id in w.keptReady && after.keptReady[id] == w.keptReady[id])
    ensures LogAgrees(after)
  {
  }

  // Moving files of `id` leaves the running units alone.
  lemma MovedRowsAgree(w: World, after: World, id: Id)
    requires RowsAgree(w) && NothingRunning(w.db, id) && after.db == w.db && after.log == w.log
    requires forall k <- w.prepared :: k != id ==> k in after.prepared && after.prepared[k] == w.prepared[k]
    ensures RowsAgree(after)
  {
  }

  lemma MovedActiveAgrees(w: World, after: World, id: Id)
    requires ActiveAgrees(w) && IsActive(w, id) && NothingRunning(w.db, id)
    requires after.db == w.db && after.log == w.log && after.active == w.active && Known(after, w.active.value)
    ensures ActiveAgrees(after)
  {
  }

  lemma MovedFoldersAgree(w: World, after: World, id: Id)
    requires FoldersAgree(w) && IsActive(w, id) && WasCommitted(w.log, id) && HasResult(w, id)
    requires after.log == w.log && after.active == w.active
    requires after.folders <= w.folders + {id} && after.keptPrepared.Keys <= after.folders
    requires after.prepared.Keys <= w.prepared.Keys && w.keptReady.Keys <= after.keptReady.Keys
    requires forall k :: HasResult(w, k) ==> HasResult(after, k)
    ensures FoldersAgree(after)
  {
  }

  lemma MovedModelAgrees(w: World, after: World)
    requires ModelAgrees(w) && after.poll == w.poll && after.active == w.active && after.log == w.log
    requires forall k :: HasResult(w, k) <==> HasResult(after, k)
    requires after.ready.Keys <= w.ready.Keys && w.keptReady.Keys <= after.keptReady.Keys
    requires w.poll.Idle? || (Known(w, w.poll.request) ==> Known(after, w.poll.request))
    ensures ModelAgrees(after)
  {
  }

  lemma MakeFolderKeepsInv(w: World, id: Id)
    requires Archivable(w, id)
    ensures Archivable(w.(folders := w.folders + {id}), id)
  {
    var after := w.(folders := w.folders + {id});
    MovedRowsAgree(w, after, id);
    MovedActiveAgrees(w, after, id);
    MovedFoldersAgree(w, after, id);
    MovedModelAgrees(w, after);
    MovedLogAgrees(w, after);
  }

  lemma KeepPreparedKeepsInv(w: World, id: Id)
    requires Archivable(w, id) && id in w.folders && id in w.prepared
    ensures Archivable(w.(keptPrepared := w.keptPrepared[id := w.prepared[id]]), id)
  {
    var after := w.(keptPrepared := w.keptPrepared[id := w.prepared[id]]);
    KeepPreparedFilesAgree(w, id);
    MovedRowsAgree(w, after, id);
    MovedActiveAgrees(w, after, id);
    MovedFoldersAgree(w, after, id);
    MovedModelAgrees(w, after);
    MovedLogAgrees(w, after);
  }

  lemma KeepPreparedFilesAgree(w: World, id: Id)
    requires FilesAgree(w) && id in w.prepared
    ensures FilesAgree(w.(keptPrepared := w.keptPrepared[id := w.prepared[id]]))
  {
  }

  lemma KeepReadyKeepsInv(w: World, id: Id)
    requires Archivable(w, id) && id in w.folders && id in w.keptPrepared && id in w.ready
    ensures Archivable(w.(keptReady := w.keptReady[id := w.ready[id]]), id)
  {
    var after := w.(keptReady := w.keptReady[id := w.ready[id]]);
    KeepReadyFilesAgree(w, id);
    MovedRowsAgree(w, after, id);
    MovedActiveAgrees(w, after, id);
    MovedFoldersAgree(w, after, id);
    MovedModelAgrees(w, after);
    MovedLogAgrees(w, after);
  }

  lemma KeepReadyFilesAgree(w: World, id: Id)
    requires FilesAgree(w) && id in w.keptPrepared && id in w.ready
    ensures FilesAgree(w.(keptReady := w.keptReady[id := w.ready[id]]))
  {
  }

  lemma DropPreparedKeepsInv(w: World, id: Id)
    requires Archivable(w, id) && id in w.keptPrepared
    ensures Archivable(w.(prepared := w.prepared - {id}), id)
  {
    var after := w.(prepared := w.prepared - {id});
    DropPreparedFilesAgree(w, id);
    MovedRowsAgree(w, after, id);
    MovedActiveAgrees(w, after, id);
    MovedFoldersAgree(w, after, id);
    MovedModelAgrees(w, after);
    MovedLogAgrees(w, after);
  }

  lemma DropPreparedFilesAgree(w: World, id: Id)
    requires FilesAgree(w) && id in w.keptPrepared
    ensures FilesAgree(w.(prepared := w.prepared - {id}))
    ensures forall q :: Known(w, q) ==> Known(w.(prepared := w.prepared - {id}), q)
  {
  }

  lemma DropReadyKeepsInv(w: World, id: Id)
    requires Archivable(w, id) && id in w.keptReady
    ensures Archivable(w.(ready := w.ready - {id}), id)
  {
    var after := w.(ready := w.ready - {id});
    DropReadyFilesAgree(w, id);
    MovedRowsAgree(w, after, id);
    MovedActiveAgrees(w, after, id);
    MovedFoldersAgree(w, after, id);
    MovedModelAgrees(w, after);
    MovedLogAgrees(w, after);
  }

  lemma DropReadyFilesAgree(w: World, id: Id)
    requires FilesAgree(w)
    ensures FilesAgree(w.(ready := w.ready - {id}))
  {
  }

  function Release(w: World, id: Id): World {
    w.(active := None, log := w.log + [Released(id)])
  }

  lemma ReleaseFilesAgree(w: World, id: Id)
    requires FilesAgree(w) && RowsAgree(w) && IsActive(w, id) && id !in w.ready
    ensures FilesAgree(Release(w, id)) && RowsAgree(Release(w, id)) && ActiveAgrees(Release(w, id))
  {
    LawfulAppendKeeps(w.log, Released(id));
  }

  lemma ReleaseFoldersAgree(w: World, id: Id)
    requires FoldersAgree(w) && IsActive(w, id) && id in w.folders && id !in w.prepared && id in w.keptReady
    ensures FoldersAgree(Release(w, id))
  {
    LawfulAppendKeeps(w.log, Released(id));
  }

  lemma ReleaseModelAgrees(w: World, id: Id)
    requires ModelAgrees(w) && IsActive(w, id) && id in w.keptReady
    ensures ModelAgrees(Release(w, id))
  {
    LawfulAppendKeeps(w.log, Released(id));
  }

  lemma ReleaseKeepsInv(w: World, id: Id)
    requires Archivable(w, id) && id in w.folders && id !in w.prepared && id !in w.ready && id in w.keptReady
    ensures Inv(Release(w, id))
  {
    ReleaseFilesAgree(w, id);
    ReleaseFoldersAgree(w, id);
    ReleaseModelAgrees(w, id);
    ReleaseIsPermitted(w, id);
    ReleaseLogAgrees(w, id);
  }

  lemma ReleaseIsPermitted(w: World, id: Id)
    requires LogAgrees(w) && ActiveAgrees(w) && IsActive(w, id) && WasCommitted(w.log, id)
    ensures Permitted(w.log, Released(id))
  {
  }

  lemma ReleaseLogAgrees(w: World, id: Id)
    requires LogAgrees(w) && Permitted(w.log, Released(id)) && IsActive(w, id) && id in w.folders
    ensures LogAgrees(Release(w, id))
  {
    LawfulAppend(w.log, Released(id));
  }

  /* ---------- the runner ---------- */

  // What happens before the runner's next durable step.
  datatype Turn = Proceed | RunnerFails | ModelMoves(answer: map<UnitKey, Answer>) | ModelDies

  datatype Failure = Interrupted | StaleRequest | Refused | AnotherActive | Missing | Timeout | Unavailable

  datatype Status = Fine | Failed(why: Failure) {
    predicate IsFailure() { Failed? }
    function PropagateFailure(): Status { this }
  }

  // The difference that only the model made.
  ghost predicate ModelOnly(before: World, after: World) {
    && after == before.(ready := after.ready, poll := after.poll, log := after.log)
    && before.log <= after.log
    && (forall id <- before.ready :: id in after.ready && after.ready[id] == before.ready[id])
    && (forall id <- after.ready :: id in before.ready || id !in before.keptReady)
  }

  lemma StepIsModelOnly(w: World, answer: map<UnitKey, Answer>)
    requires w.poll.Executing? ==> !HasResult(w, w.poll.request.id)
    ensures ModelOnly(w, ModelStep(w, answer))
  {
  }

  lemma ModelKeepsResult(before: World, after: World, id: Id)
    requires ModelOnly(before, after) && ResultOf(before, id).Some?
    ensures ResultOf(after, id) == ResultOf(before, id)
  {
  }

  // The settlement after whatever the model did just before.
  lemma SettleAfterModel(before: World, w: World, r: Result, judge: Judge)
    requires ModelOnly(before, w) && Inv(w) && w.active == Some(r.request) && ResultOf(before, r.request.id) == Some(r)
    ensures var after := Settle(w, r, judge);
      && Inv(after) && before.log <= after.log
      && after == before.(ready := after.ready, poll := after.poll, db := SettleRows(before.db, r.request.units, r, judge), log := after.log)
      && Archivable(after, r.request.id) && ResultOf(after, r.request.id) == Some(r)
  {
    ModelKeepsResult(before, w, r.request.id);
    SettleKeepsInv(w, r, judge);
  }

  lemma Remembered(before: seq<Event>, after: seq<Event>)
    requires before <= after
    ensures forall e <- before :: e in after
    ensures forall id :: WasCommitted(before, id) ==> WasCommitted(after, id)
  {
    assert forall e <- before :: e in after;
  }

  // What the archive of `id` leaves alone while it is under way.
  ghost predicate Archiving(before: World, after: World, id: Id) {
    && before.log <= after.log && before.db == after.db && before.active == after.active
    && (after.prepared == before.prepared || after.prepared == before.prepared - {id})
  }

  // A request that may be prepared and begun as things stand.
  predicate Admissible(w: World, q: Request) {
    && q.id !in w.folders && (q.id in w.prepared ==> w.prepared[q.id] == q)
    && CanBegin(w.db, q)
  }

  // No two prepared requests want the same unit.
  predicate Disjoint(prepared: map<Id, Request>) {
    forall a <- prepared, b <- prepared :: a != b ==> forall u <- prepared[a].units :: u !in prepared[b].units
  }

  lemma FewerDisjoint(prepared: map<Id, Request>, id: Id, after: map<Id, Request>)
    requires after == prepared || after == prepared - {id}
    ensures Disjoint(prepared) ==> Disjoint(after)
  {
  }

  lemma DisjointCanBegin(w: World, q: Request)
    requires Inv(w) && q.id in w.prepared && w.prepared[q.id] == q && Disjoint(w.prepared)
    ensures CanBegin(w.db, q)
  {
    forall u <- q.units ensures !RunsElsewhere(w.db, u, q.id) {
      assert u in w.db && w.db[u].status == Running ==>
          w.db[u].owner in w.prepared && u in w.prepared[w.db[u].owner].units;
    }
  }

  // The listing is sorted.
  predicate IsFirst(prepared: map<Id, Request>, id: Id) {
    id in prepared && forall k <- prepared :: id <= k
  }

  predicate FirstCanBegin(prepared: map<Id, Request>, db: map<UnitKey, Row>) {
    forall id <- prepared :: IsFirst(prepared, id) ==> CanBegin(db, prepared[id])
  }

  // A prepared request that a recovery cannot get past.
  predicate Stopped(w: World, id: Id) {
    id in w.prepared && !CanBegin(w.db, w.prepared[id])
  }

  // The table once the active request's result is committed.
  function AfterActive(w: World, judge: Judge): map<UnitKey, Row> {
    if w.active.Some? && ResultOf(w, w.active.value.id).Some? then
      SettleRows(w.db, w.active.value.units, ResultOf(w, w.active.value.id).value, judge)
    else w.db
  }

  // When a recovery that nothing disturbs goes through.
  predicate GoesThrough(w: World, judge: Judge) {
    if w.active.None? then FirstCanBegin(w.prepared, w.db)
    else
      var id := w.active.value.id;
      ResultOf(w, id).None? || FirstCanBegin(w.prepared - {id}, AfterActive(w, judge))
  }

  lemma {:induction false} LeastOf(ids: set<Id>)
    requires ids != {}
    ensures exists m :: m in ids && forall k <- ids :: m <= k
    decreases ids
  {
    var id :| id in ids;
    if k :| k in ids && k < id {
      var rest := ids - {id};
      assert k in rest;
      LeastOf(rest);
      var m :| m in rest && forall j <- rest :: m <= j;
      forall j <- ids ensures m <= j {
        assert j == id || j in rest;
      }
    }
  }

  lemma Gone(before: map<Id, Request>, id: Id, after: map<Id, Request>)
    requires after == before || after == before - {id}
    ensures id !in after ==> after == before - {id}
  {
  }

  lemma ActiveResult(w: World, r: Result, judge: Judge)
    requires Inv(w) && w.active.Some? && ResultOf(w, w.active.value.id) == Some(r)
    ensures r.request == w.active.value && AfterActive(w, judge) == SettleRows(w.db, r.request.units, r, judge)
  {
  }

  lemma PreparedIsOutside(w: World, id: Id)
    requires Inv(w) && w.active.None? && id in w.prepared
    ensures id !in w.folders
  {
  }

  lemma CommittedWasPublished(log: seq<Event>, id: Id)
    requires Lawful(log) && WasCommitted(log, id)
    ensures WasPublished(log, id)
  {
    var i :| 0 <= i < |log| && log[i].Committed? && log[i].result.request.id == id;
    PermittedAt(log, i);
    assert Published(log[i].result) in log;
  }

  lemma NoResultNotCommitted(w: World, id: Id)
    requires Inv(w) && ResultOf(w, id).None?
    ensures !WasCommitted(w.log, id)
  {
    if WasCommitted(w.log, id) {
      CommittedWasPublished(w.log, id);
    }
  }

  lemma NoResultBeforeActivation(w: World, id: Id)
    requires Inv(w) && w.active.None? && id !in w.folders
    ensures ResultOf(w, id).None?
  {
  }

  /** A running unit's request is still in the root; an active request has durably begun all its
      units; the model only ever works on the active request, and only while it has no result. */
  predicate HandoffSafe(w: World) {
    && (forall u <- w.db :: w.db[u].status == Running ==>
          w.db[u].owner in w.prepared && u in w.prepared[w.db[u].owner].units)
    && (w.active.Some? ==> Owns(w.db, w.active.value))
    && (w.poll.Unexecuted? || w.poll.Executing? ==>
          w.active == Some(w.poll.request) && ResultOf(w, w.poll.request.id).None?)
  }

  lemma InvIsSafe(w: World)
    requires Inv(w)
    ensures HandoffSafe(w) && Lawful(w.log)
  {
  }

  lemma OneResult(log: seq<Event>, a: Result, b: Result)
    requires Lawful(log) && Published(a) in log && Published(b) in log && a.request.id == b.request.id
    ensures a == b
  {
    var i :| 0 <= i < |log| && log[i] == Published(a);
    var j :| 0 <= j < |log| && log[j] == Published(b);
    if i < j {
      NoExecutionAfterResult(log, i, j);
    } else if j < i {
      NoExecutionAfterResult(log, j, i);
    }
  }

  /** Once published, a result is what every later reader finds: the history only grows and the
      file in the root or under processed/ is always the published one. */
  lemma ResultNeverChanges(w: World, r: Result)
    requires Inv(w) && Published(r) in w.log
    ensures ResultOf(w, r.request.id) == Some(r)
  {
    assert WasPublished(w.log, r.request.id);
    OneResult(w.log, r, ResultOf(w, r.request.id).value);
  }

  /** Whatever was published answers the request that was prepared under its id, with one outcome for
      each of its units and no other. */
  lemma PublishedIsWhole(w: World, r: Result)
    requires Inv(w) && Published(r) in w.log
    ensures RequestOf(w, r.request.id) == Some(r.request)
    ensures forall u :: u in r.outcomes <==> u in r.request.units
  {
    ResultNeverChanges(w, r);
  }

  lemma EmptyIsSafe()
    ensures Inv(Empty())
  {
  }

  datatype Command =
    | Recover(turns: seq<Turn>, judge: Judge)
    | Acquire(request: Request, available: bool, polls: nat, turns: seq<Turn>, judge: Judge)

  class Runner {
    var w: World
    var turns: seq<Turn>

    constructor ()
      ensures w == Empty() && Inv(w) && turns == []
    {
      w, turns := Empty(), [];
      EmptyIsSafe();
    }

    method Yield() returns (r: Status)
      requires Inv(w)
      modifies this
      ensures Inv(w) && ModelOnly(old(w), w)
      ensures r.Failed? ==> r.why == Interrupted
      ensures old(turns) == [] ==> r.Fine? && turns == [] && w == old(w)
    {
      while turns != []
        invariant Inv(w) && ModelOnly(old(w), w)
        invariant old(turns) == [] ==> turns == [] && w == old(w)
        decreases |turns|
      {
        var turn := turns[0];
        turns := turns[1..];
        match turn
        case Proceed => return Fine;
        case RunnerFails => return Failed(Interrupted);
        case ModelMoves(answer) =>
          ModelStepKeepsInv(w, answer);
          StepIsModelOnly(w, answer);
          w := ModelStep(w, answer);
        case ModelDies =>
          PollKeepsInv(w, Idle);
          w := w.(poll := Idle);
      }
      r := Fine;
    }

    /** `QmtTransport.prepare`. */
    method Prepare(q: Request) returns (r: Status)
      requires Inv(w)
      modifies this
      ensures Inv(w) && old(w.log) <= w.log && w.active == old(w.active) && w.db == old(w.db) && w.folders == old(w.folders)
      ensures r.Fine? ==> q.id in w.prepared && w.prepared[q.id] == q && q.id !in w.folders
      ensures w.prepared == old(w.prepared) || w.prepared == old(w.prepared)[q.id := q]
      ensures old(turns) == [] ==> turns == []
      ensures old(turns) == [] && q.id !in old(w.folders) && (q.id in old(w.prepared) ==> old(w.prepared)[q.id] == q) ==> r.Fine?
      ensures q.id in old(w.folders) || (q.id in old(w.prepared) && old(w.prepared)[q.id] != q) ==> r == Failed(Refused)
      ensures old(turns) == [] ==> w.poll == old(w.poll)
    {
      if q.id in w.folders {
        return Failed(Refused);
      }
      if q.id in w.prepared {
        return if w.prepared[q.id] == q then Fine else Failed(Refused);
      }
      :- Yield();
      LinkPreparedKeepsInv(w, q);
      w := LinkPrepared(w, q);
      r := Fine;
    }

    // The rows of `begin_request`'s transaction; nothing is kept if it raises.
    static method ClaimRows(rows: map<UnitKey, Row>, q: Request) returns (r: Status, db: map<UnitKey, Row>)
      ensures r == if CanBegin(rows, q) then Fine else Failed(StaleRequest)
      ensures r.Fine? ==> db == BeginRows(rows, q.units, q.id)
    {
      db := rows;
      var i := 0;
      while i < |q.units|
        invariant 0 <= i <= |q.units|
        invariant db == BeginRows(rows, q.units[..i], q.id)
        invariant forall u <- q.units[..i] :: !RunsElsewhere(rows, u, q.id)
      {
        var u := q.units[i];
        ClaimNext(rows, q.units, i, q.id);
        if u !in db || db[u].owner != q.id {
          if u in db && db[u].status == Running {
            assert u in q.units && RunsElsewhere(rows, u, q.id);
            return Failed(StaleRequest), db;
          }
          db := db[u := Row(q.id, Running)];
        }
        i := i + 1;
      }
      assert q.units[..i] == q.units;
      r := Fine;
    }

    /** `Store.begin_request`: one transaction over every unit. */
    method BeginRequest(q: Request) returns (r: Status)
      requires Inv(w) && w.active.None? && q.id in w.prepared && w.prepared[q.id] == q
      modifies this
      ensures Inv(w) && old(w.log) <= w.log
      ensures w == old(w).(ready := w.ready, poll := w.poll, db := w.db, log := w.log)
      ensures r.Fine? ==> w.db == BeginRows(old(w.db), q.units, q.id) && Owns(w.db, q) && Begun(q.id) in w.log
      ensures r.Failed? ==> w.db == old(w.db) && r.why in {Interrupted, StaleRequest}
      ensures r == Failed(StaleRequest) ==> !CanBegin(old(w.db), q)
      ensures old(turns) == [] ==> turns == [] && (r.Fine? <==> CanBegin(old(w.db), q))
      ensures old(turns) == [] ==> w.poll == old(w.poll)
    {
      var db :- ClaimRows(w.db, q);
      r := CommitBegin(q);
    }

    method CommitBegin(q: Request) returns (r: Status)
      requires Inv(w) && w.active.None? && q.id in w.prepared && w.prepared[q.id] == q && CanBegin(w.db, q)
      modifies this
      ensures Inv(w) && old(w.log) <= w.log
      ensures w == old(w).(ready := w.ready, poll := w.poll, db := w.db, log := w.log)
      ensures r.Fine? ==> w.db == BeginRows(old(w.db), q.units, q.id) && Owns(w.db, q) && Begun(q.id) in w.log
      ensures r.Failed? ==> w.db == old(w.db) && r.why == Interrupted
      ensures old(turns) == [] ==> turns == [] && r.Fine?
      ensures old(turns) == [] ==> w.poll == old(w.poll)
    {
      r := Fine;
      :- Yield();
      BeginKeepsInv(w, q);
      BeginOwns(w.db, q);
      w := Begin(w, q);
      r := Fine;
    }

    /** `QmtTransport.activate`; the units must have been begun. */
    method Activate(id: Id) returns (r: Status)
      requires Inv(w)
      requires id in w.prepared ==> Owns(w.db, w.prepared[id]) && Begun(id) in w.log
      modifies this
      ensures Inv(w) && old(w.log) <= w.log
      ensures w == old(w).(ready := w.ready, poll := w.poll, active := w.active, log := w.log)
      ensures r.Fine? ==> id in w.prepared && w.active == Some(w.prepared[id])
      ensures r.Failed? ==> w.active == old(w.active) && r.why != StaleRequest
      ensures r.Failed? && old(w.active.None?) && id in old(w.prepared) ==> r.why == Interrupted
      ensures old(turns) == [] ==> turns == [] && w.ready == old(w.ready)
      ensures old(turns) == [] && old(w.active.None?) && id in old(w.prepared) ==> r.Fine?
      ensures old(turns) == [] ==> w.poll == old(w.poll)
    {
      if id !in w.prepared {
        return Failed(Missing);
      }
      var q := w.prepared[id];
      if id in w.folders {
        return Failed(Refused);
      }
      :- Yield();
      if w.active.Some? {
        return if w.active == Some(q) then Fine else Failed(AnotherActive);
      }
      Remembered(old(w.log), w.log);
      LinkActiveKeepsInv(w, q);
      w := LinkActive(w, q);
      r := Fine;
    }

    /** `QmtTransport.read_result`, with its check against the prepared request. */
    method ReadResult(id: Id) returns (r: Status, result: Option<Result>)
      requires Inv(w)
      ensures r.Fine? && result == ResultOf(w, id)
      ensures result.Some? ==> RequestOf(w, id).Some? && ValidResult(result.value, RequestOf(w, id).value)
    {
      result := ResultOf(w, id);
      if result.None? {
        return Fine, None;
      }
      var q := RequestOf(w, id);
      r := if q.Some? && ValidResult(result.value, q.value) then Fine else Failed(Refused);
    }

    /** `QmtTransport.wait_result`: running out of time cancels nothing. */
    method WaitResult(id: Id, polls: nat) returns (r: Status, result: Result)
      requires Inv(w)
      modifies this
      ensures Inv(w) && ModelOnly(old(w), w)
      ensures r.Fine? ==> ResultOf(w, id) == Some(result)
      ensures r.Failed? ==> r.why in {Interrupted, Timeout}
      ensures old(turns) == [] ==> turns == [] && w == old(w) && (r.Fine? <==> ResultOf(w, id).Some? && polls > 0)
      ensures r.Failed? && old(turns) == [] ==> r == Failed(Timeout)
    {
      result := Result(Request(id, []), map[]);
      var left := polls;
      while left > 0
        invariant Inv(w) && ModelOnly(old(w), w)
        invariant old(turns) == [] ==> turns == [] && w == old(w) && (left == polls || ResultOf(w, id).None?)
      {
        :- Yield();
        var _, found := ReadResult(id);
        if found.Some? {
          return Fine, found.value;
        }
        left := left - 1;
      }
      r := Failed(Timeout);
    }

    // The progress rows and counts of `commit`'s transaction; a request names a unit once. What it
    // writes besides is in `BatchCommit`, and `HandoffCommit` ties the two together.
    static method SettleUnits(rows: map<UnitKey, Row>, result: Result, judge: Judge)
      returns (r: Status, db: map<UnitKey, Row>, counts: Counts)
      ensures r == if Owns(rows, result.request) then Fine else Failed(StaleRequest)
      ensures r.Fine? ==> db == SettleRows(rows, result.request.units, result, judge)
      ensures r.Fine? ==> forall u <- result.request.units :: u in db && db[u].status.Done?
      ensures r.Fine? ==> counts == CountRows(db, result.request.units)
    {
      var id, units := result.request.id, result.request.units;
      db, counts := rows, Counts(0, 0, 0);
      var i := 0;
      while i < |units|
        invariant 0 <= i <= |units|
        invariant forall u <- units[..i] :: u in rows && rows[u].owner == id
        invariant db == SettleRows(rows, units[..i], result, judge)
        invariant forall u <- units[..i] :: db[u].status.Done?
        invariant counts == CountRows(db, units[..i])
      {
        var u := units[i];
        assert u in units;
        if u !in db || db[u].owner != id {
          return Failed(StaleRequest), db, counts;
        }
        assert units[..i + 1] == units[..i] + [u];
        SettleNext(rows, units, i, result, judge);
        db := db[u := Row(id, Done(judge(result, u, rows[u].status)))];
        counts := Counted(counts, db[u].status.outcome);
        i := i + 1;
      }
      assert units[..i] == units;
      r := Fine;
    }

    /** `_consume` down to `Store.commit`: one transaction, one outcome per unit. It never
        meets a row of another request. */
    method Consume(result: Result, judge: Judge) returns (r: Status, counts: Counts)
      requires Inv(w) && w.active == Some(result.request) && ResultOf(w, result.request.id) == Some(result)
      modifies this
      ensures Inv(w) && old(w.log) <= w.log
      ensures w == old(w).(ready := w.ready, poll := w.poll, db := w.db, log := w.log)
      ensures r.Fine? ==> w.db == SettleRows(old(w.db), result.request.units, result, judge)
      ensures r.Fine? ==> Archivable(w, result.request.id)
      ensures r.Fine? ==> forall u <- result.request.units :: u in w.db && w.db[u].owner == result.request.id && w.db[u].status.Done?
      ensures r.Fine? ==> counts == CountRows(w.db, result.request.units)
      ensures r.Failed? ==> w.db == old(w.db) && r.why == Interrupted
      ensures ResultOf(w, result.request.id) == Some(result)
      ensures old(turns) == [] ==> turns == [] && r.Fine?
    {
      var db;
      r, db, counts := SettleUnits(w.db, result, judge);
      if !r.Fine? {
        return;
      }
      r := CommitSettle(result, judge);
    }

    method CommitSettle(result: Result, judge: Judge) returns (r: Status)
      requires Inv(w) && w.active == Some(result.request) && ResultOf(w, result.request.id) == Some(result)
      modifies this
      ensures Inv(w) && old(w.log) <= w.log
      ensures w == old(w).(ready := w.ready, poll := w.poll, db := w.db, log := w.log)
      ensures r.Fine? ==> w.db == SettleRows(old(w.db), result.request.units, result, judge)
      ensures r.Fine? ==> Archivable(w, result.request.id)
      ensures r.Failed? ==> w.db == old(w.db) && r.why == Interrupted
      ensures ResultOf(w, result.request.id) == Some(result)
      ensures old(turns) == [] ==> turns == [] && r.Fine?
    {
      r := Yield();
      ModelKeepsResult(old(w), w, result.request.id);
      if r.Failed? {
        return;
      }
      SettleAfterModel(old(w), w, result, judge);
      w := Settle(w, result, judge);
      r := Fine;
    }

    method ArchiveStep(ghost before: World, id: Id) returns (r: Status)
      requires Archivable(w, id) && Archiving(before, w, id)
      modifies this
      ensures Archivable(w, id) && Archiving(before, w, id) && ModelOnly(old(w), w)
      ensures r.Failed? ==> r.why == Interrupted
      ensures old(turns) == [] ==> r.Fine? && turns == [] && w == old(w)
    {
      r := Yield();
      Remembered(old(w.log), w.log);
    }

    // A hard link under processed/ for the request, if it is still in the root.
    method KeepPreparedFile(ghost before: World, id: Id) returns (r: Status)
      requires Archivable(w, id) && Archiving(before, w, id) && id in w.folders
      modifies this
      ensures Archivable(w, id) && Archiving(before, w, id) && id in w.folders
      ensures r.Fine? ==> id in w.keptPrepared
      ensures r.Failed? ==> r.why == Interrupted
      ensures old(turns) == [] ==> r.Fine? && turns == []
    {
      if id !in w.prepared && id !in w.keptPrepared {
        return Failed(Missing);
      }
      if id in w.prepared {
        if id in w.keptPrepared && w.keptPrepared[id] != w.prepared[id] {
          return Failed(Refused);
        }
        if id !in w.keptPrepared {
          :- ArchiveStep(before, id);
          KeepPreparedKeepsInv(w, id);
          w := w.(keptPrepared := w.keptPrepared[id := w.prepared[id]]);
        }
      }
      r := Fine;
    }

    // And one for the result.
    method KeepReadyFile(ghost before: World, id: Id) returns (r: Status)
      requires Archivable(w, id) && Archiving(before, w, id) && id in w.folders && id in w.keptPrepared
      modifies this
      ensures Archivable(w, id) && Archiving(before, w, id) && id in w.folders && id in w.keptPrepared
      ensures r.Fine? ==> id in w.keptReady
      ensures r.Failed? ==> r.why == Interrupted
      ensures old(turns) == [] ==> r.Fine? && turns == []
    {
      if id !in w.ready && id !in w.keptReady {
        return Failed(Missing);
      }
      if id in w.ready {
        if id in w.keptReady && w.keptReady[id] != w.ready[id] {
          return Failed(Refused);
        }
        if id !in w.keptReady {
          :- ArchiveStep(before, id);
          KeepReadyKeepsInv(w, id);
          w := w.(keptReady := w.keptReady[id := w.ready[id]]);
        }
      }
      r := Fine;
    }

    method DropPreparedFile(ghost before: World, id: Id) returns (r: Status)
      requires Archivable(w, id) && Archiving(before, w, id) && id in w.folders && id in w.keptPrepared && id in w.keptReady
      modifies this
      ensures Archivable(w, id) && Archiving(before, w, id) && id in w.folders && id in w.keptReady
      ensures r.Fine? ==> id !in w.prepared
      ensures r.Failed? ==> r.why == Interrupted
      ensures old(turns) == [] ==> r.Fine? && turns == []
    {
      if id in w.prepared {
        :- ArchiveStep(before, id);
        DropPreparedKeepsInv(w, id);
        w := w.(prepared := w.prepared - {id});
      }
      r := Fine;
    }

    method DropReadyFile(ghost before: World, id: Id) returns (r: Status)
      requires Archivable(w, id) && Archiving(before, w, id) && id in w.folders && id in w.keptReady && id !in w.prepared
      modifies this
      ensures Archivable(w, id) && Archiving(before, w, id) && id in w.folders && id in w.keptReady && id !in w.prepared
      ensures r.Fine? ==> id !in w.ready
      ensures r.Failed? ==> r.why == Interrupted
      ensures old(turns) == [] ==> r.Fine? && turns == []
    {
      if id in w.ready {
        :- ArchiveStep(before, id);
        DropReadyKeepsInv(w, id);
        w := w.(ready := w.ready - {id});
      }
      r := Fine;
    }

    /** `QmtTransport.archive`: keep both files, drop both from the root, release last. */
    method Archive(id: Id) returns (r: Status)
      requires Archivable(w, id)
      modifies this
      ensures Inv(w) && old(w.log) <= w.log && w.db == old(w.db)
      ensures w.prepared == old(w.prepared) || w.prepared == old(w.prepared) - {id}
      ensures r.Fine? ==> w.active.None? && id !in w.prepared && Released(id) in w.log
      ensures r.Failed? ==> Archivable(w, id) && r.why == Interrupted
      ensures old(turns) == [] ==> r.Fine? && turns == []
    {
      if w.active.Some? && w.active.value.id != id {
        return Failed(AnotherActive);
      }
      var _, found := ReadResult(id);
      if found.None? {
        return Failed(Missing);
      }
      :- MoveFiles(id);
      r := ReleaseActive(id);
    }

    method MakeFolder(id: Id) returns (r: Status)
      requires Archivable(w, id)
      modifies this
      ensures Archivable(w, id) && Archiving(old(w), w, id)
      ensures r.Fine? ==> id in w.folders
      ensures r.Failed? ==> r.why == Interrupted
      ensures old(turns) == [] ==> r.Fine? && turns == []
    {
      r := Fine;
      :- ArchiveStep(old(w), id);
      MakeFolderKeepsInv(w, id);
      w := w.(folders := w.folders + {id});
      r := Fine;
    }

    method MoveFiles(id: Id) returns (r: Status)
      requires Archivable(w, id)
      modifies this
      ensures Archivable(w, id) && Archiving(old(w), w, id)
      ensures r.Fine? ==> id in w.folders && id in w.keptReady && id !in w.prepared && id !in w.ready
      ensures r.Failed? ==> r.why == Interrupted
      ensures old(turns) == [] ==> r.Fine? && turns == []
    {
      r := Fine;
      :- MakeFolder(id);
      :- KeepPreparedFile(old(w), id);
      :- KeepReadyFile(old(w), id);
      :- DropPreparedFile(old(w), id);
      r := DropReadyFile(old(w), id);
    }

    method ReleaseActive(id: Id) returns (r: Status)
      requires Archivable(w, id) && id in w.folders && id !in w.prepared && id !in w.ready && id in w.keptReady
      modifies this
      ensures Inv(w) && old(w.log) <= w.log && w.db == old(w.db) && w.prepared == old(w.prepared)
      ensures r.Fine? ==> w.active.None? && Released(id) in w.log
      ensures r.Failed? ==> Archivable(w, id) && r.why == Interrupted
      ensures old(turns) == [] ==> r.Fine? && turns == []
    {
      var active := w.active;
      :- ArchiveStep(old(w), id);
      if w.active != active {
        return Failed(AnotherActive);
      }
      ReleaseKeepsInv(w, id);
      w := Release(w, id);
      r := Fine;
    }

    /** `recover_qmt`: results already there first, then every other prepared request. When it
        returns true nothing is prepared, active or running any more. A stale request stops it only
        at a prepared request with a unit that runs under another one. Left to itself it goes
        through exactly when the request then first in line can begin. */
    method RecoverQmt(judge: Judge) returns (r: Status, done: bool)
      requires Inv(w)
      modifies this
      ensures Inv(w) && old(w.log) <= w.log
      ensures r.Fine? && done ==> w.active.None? && w.prepared == map[] && forall u <- w.db :: w.db[u].status.Done?
      ensures r.Fine? && !done ==> w.active.Some? && ResultOf(w, w.active.value.id).None? && !WasCommitted(w.log, w.active.value.id)
      ensures r.Failed? ==> r.why in {Interrupted, StaleRequest}
      ensures r == Failed(StaleRequest) ==> exists id :: Stopped(w, id)
      ensures old(turns) == [] ==> turns == [] && (Disjoint(old(w.prepared)) ==> r.Fine?)
      ensures old(turns) == [] ==> (r.Fine? <==> GoesThrough(old(w), judge))
      ensures old(turns) == [] && old(w.active.Some?) && ResultOf(old(w), old(w.active.value.id)).Some? ==>
        Released(old(w.active.value.id)) in w.log
    {
      var active, todo := w.active, w.prepared.Keys;
      done := false;
      if active.Some? {
        var answered;
        r, answered := FinishActive(judge);
        if r.Fine? && !answered {
          NoResultNotCommitted(w, active.value.id);
        }
        if !r.Fine? || !answered {
          return;
        }
        FewerDisjoint(old(w.prepared), active.value.id, w.prepared);
      }
      ghost var finished := w;
      r, done := RecoverRest(todo, judge);
      Remembered(finished.log, w.log);
    }

    // Every prepared request among the listed ones, in their order.
    method RecoverRest(ids: set<Id>, judge: Judge) returns (r: Status, done: bool)
      requires Inv(w) && w.active.None? && w.prepared.Keys <= ids
      modifies this
      ensures Inv(w) && old(w.log) <= w.log
      ensures r.Fine? && done ==> w.active.None? && w.prepared == map[]
      ensures r.Fine? && !done ==> w.active.Some? && ResultOf(w, w.active.value.id).None? && !WasCommitted(w.log, w.active.value.id)
      ensures r.Failed? ==> r.why in {Interrupted, StaleRequest}
      ensures r == Failed(StaleRequest) ==> exists id :: Stopped(w, id)
      ensures old(turns) == [] ==> turns == [] && (Disjoint(old(w.prepared)) ==> r.Fine?)
      ensures old(turns) == [] ==> (r.Fine? <==> FirstCanBegin(old(w.prepared), old(w.db)))
    {
      done := false;
      var todo := ids;
      while todo != {}
        invariant Inv(w) && old(w.log) <= w.log && w.active.None? && w.prepared.Keys <= todo
        invariant Disjoint(old(w.prepared)) ==> Disjoint(w.prepared)
        invariant old(turns) == [] ==> turns == [] && w == old(w)
        decreases |todo|
      {
        LeastOf(todo);
        var id :| id in todo && forall k <- todo :: id <= k;
        todo := todo - {id};
        if id in w.prepared {
          ghost var before := w.prepared;
          assert IsFirst(w.prepared, id);
          var answered :- RecoverPrepared(w.prepared[id], judge);
          if !answered {
            return Fine, false;
          }
          FewerDisjoint(before, id, w.prepared);
        }
      }
      r, done := Fine, true;
    }

    method ConsumeAndArchive(result: Result, judge: Judge) returns (r: Status)
      requires Inv(w) && w.active == Some(result.request) && ResultOf(w, result.request.id) == Some(result)
      modifies this
      ensures Inv(w) && old(w.log) <= w.log
      ensures w.prepared == old(w.prepared) || w.prepared == old(w.prepared) - {result.request.id}
      ensures r.Fine? ==> w.active.None? && result.request.id !in w.prepared && Released(result.request.id) in w.log
      ensures r.Fine? ==> w.db == SettleRows(old(w.db), result.request.units, result, judge)
      ensures r.Fine? ==> w.prepared == old(w.prepared) - {result.request.id}
      ensures r.Fine? ==>
        forall u <- result.request.units :: u in w.db && w.db[u].owner == result.request.id && w.db[u].status.Done?
      ensures r.Failed? ==> r.why == Interrupted
      ensures old(turns) == [] ==> turns == [] && r.Fine?
    {
      var _ :- Consume(result, judge);
      r := Archive(result.request.id);
      Gone(old(w.prepared), result.request.id, w.prepared);
    }

    // The active request, if its result has arrived.
    method FinishActive(judge: Judge) returns (r: Status, answered: bool)
      requires Inv(w) && w.active.Some?
      modifies this
      ensures Inv(w) && old(w.log) <= w.log
      ensures w.prepared == old(w.prepared) || w.prepared == old(w.prepared) - {old(w.active.value.id)}
      ensures r.Fine? && answered ==> w.active.None? && old(w.active.value.id) !in w.prepared
      ensures r.Fine? && !answered ==> w == old(w) && ResultOf(w, w.active.value.id).None?
      ensures answered ==> ResultOf(old(w), old(w.active.value.id)).Some?
      ensures r.Failed? ==> r.why == Interrupted
      ensures old(turns) == [] ==> turns == [] && r.Fine? && (answered <==> ResultOf(old(w), old(w.active.value.id)).Some?)
      ensures r.Fine? && answered ==> w.prepared == old(w.prepared) - {old(w.active.value.id)} && w.db == AfterActive(old(w), judge)
      ensures r.Fine? && answered ==> Released(old(w.active.value.id)) in w.log
    {
      answered := false;
      var id := w.active.value.id;
      var _, result := ReadResult(id);
      if result.None? {
        return Fine, false;
      }
      ActiveResult(w, result.value, judge);
      :- ConsumeAndArchive(result.value, judge);
      r, answered := Fine, true;
    }

    method RecoverPrepared(q: Request, judge: Judge) returns (r: Status, answered: bool)
      requires Inv(w) && w.active.None? && q.id in w.prepared && w.prepared[q.id] == q
      modifies this
      ensures Inv(w) && old(w.log) <= w.log
      ensures w.prepared == old(w.prepared) || w.prepared == old(w.prepared) - {q.id}
      ensures r.Fine? && answered ==> w.active.None? && q.id !in w.prepared
      ensures r.Fine? && !answered ==> w.active == Some(q) && ResultOf(w, q.id).None? && !WasCommitted(w.log, q.id)
      ensures r.Failed? ==> r.why in {Interrupted, StaleRequest}
      ensures r == Failed(StaleRequest) ==> Stopped(w, q.id)
      ensures old(turns) == [] ==> turns == [] && !answered && (r.Fine? <==> CanBegin(old(w.db), q))
      ensures old(turns) == [] && Disjoint(old(w.prepared)) ==> r.Fine?
    {
      answered := false;
      PreparedIsOutside(w, q.id);
      if Disjoint(w.prepared) {
        DisjointCanBegin(w, q);
      }
      :- BeginAndActivate(q);
      r, answered := FinishActive(judge);
      if r.Fine? && !answered {
        NoResultNotCommitted(w, q.id);
      }
    }

    /** `acquire` for a QMT request; `available` is what the heartbeat says of the model. */
    method AcquireQmt(q: Request, available: bool, polls: nat, judge: Judge) returns (r: Status, waiting: bool)
      requires Inv(w)
      modifies this
      ensures Inv(w) && old(w.log) <= w.log
      ensures waiting <==> old(w.active.Some?)
      ensures waiting ==> r.Fine? && w == old(w)
      ensures !waiting && !available ==> r == Failed(Unavailable) && w == old(w)
      ensures old(turns) == [] && !waiting && available ==> (r == Failed(Timeout) <==> Admissible(old(w), q))
      ensures old(turns) == [] && r == Failed(Timeout) ==> w.active == Some(q)
      ensures r.Fine? && !waiting ==> w.active.None? && Released(q.id) in w.log
      ensures r.Fine? && !waiting ==> forall u <- q.units :: u in w.db && w.db[u].owner == q.id && w.db[u].status.Done?
      ensures old(turns) == [] && r == Failed(Timeout) ==> turns == [] && w.poll == old(w.poll) && ResultOf(w, q.id).None?
    {
      waiting := w.active.Some?;
      if waiting {
        return Fine, true;
      }
      if !available {
        return Failed(Unavailable), false;
      }
      :- Prepare(q);
      :- BeginAndActivate(q);
      r := AwaitResult(q, polls, judge);
    }

    method BeginAndActivate(q: Request) returns (r: Status)
      requires Inv(w) && w.active.None? && q.id in w.prepared && w.prepared[q.id] == q && q.id !in w.folders
      modifies this
      ensures Inv(w) && old(w.log) <= w.log
      ensures w.prepared == old(w.prepared)
      ensures r.Fine? ==> w.active == Some(q)
      ensures r.Failed? ==> r.why in {Interrupted, StaleRequest}
      ensures r == Failed(StaleRequest) ==> !CanBegin(w.db, q) && w.active.None?
      ensures old(turns) == [] ==> turns == [] && ResultOf(w, q.id).None? && (r.Fine? <==> CanBegin(old(w.db), q))
      ensures old(turns) == [] ==> w.poll == old(w.poll)
    {
      r := Fine;
      :- BeginRequest(q);
      NoResultBeforeActivation(w, q.id);
      r := Activate(q.id);
    }

    method AwaitResult(q: Request, polls: nat, judge: Judge) returns (r: Status)
      requires Inv(w) && w.active == Some(q)
      modifies this
      ensures Inv(w) && old(w.log) <= w.log
      ensures old(turns) == [] ==> turns == []
      ensures old(turns) == [] && ResultOf(old(w), q.id).None? ==> r == Failed(Timeout) && w == old(w)
      ensures old(turns) == [] && ResultOf(old(w), q.id).Some? && polls > 0 ==> r.Fine?
      ensures r.Fine? ==> w.active.None? && Released(q.id) in w.log
      ensures r.Fine? ==> forall u <- q.units :: u in w.db && w.db[u].owner == q.id && w.db[u].status.Done?
    {
      var result :- WaitResult(q.id, polls);
      ResultIsForActive(w, result);
      r := ConsumeAndArchive(result, judge);
    }

    /** A request that timed out is not lost: the model answers it in its own time, and the next
        recovery commits that answer and releases the request. */
    method AnsweredLater(q: Request, polls: nat, answer: map<UnitKey, Answer>, judge: Judge) returns (ghost result: Result)
      requires Inv(w) && w.active.None? && w.poll == Idle && Admissible(w, q)
      modifies this
      ensures Inv(w) && Released(q.id) in w.log && Published(result) in w.log
      ensures result.request == q && forall u <- q.units :: u in result.outcomes && result.outcomes[u] == if u in answer then answer[u] else Fault
    {
      turns := [];
      var _, _ := AcquireQmt(q, true, polls, judge);
      result := ModelAnswers(w, q, answer);
      w := Steps(w, answer, 5);
      ghost var answered := w.log;
      var _, _ := RecoverQmt(judge);
      Remembered(answered, w.log);
    }

    /** Any commands, each cut off wherever its turns say, with the model moving and dying in
        between: from the empty directory on, every state is safe and the history lawful. */
    method Live(plan: seq<Command>)
      requires Inv(w)
      modifies this
      ensures Inv(w) && old(w.log) <= w.log && HandoffSafe(w) && Lawful(w.log)
    {
      var i := 0;
      while i < |plan|
        invariant 0 <= i <= |plan|
        invariant Inv(w) && old(w.log) <= w.log
      {
        turns := plan[i].turns;
        match plan[i] {
          case Recover(_, judge) => var _, _ := RecoverQmt(judge);
          case Acquire(q, available, polls, _, judge) => var _, _ := AcquireQmt(q, available, polls, judge);
        }
        i := i + 1;
      }
      InvIsSafe(w);
    }
  }
}
