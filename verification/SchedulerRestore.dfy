/** The exact restore of sealed scheduler rows after a failed release
    (deploy/production_governance_contract_recovery.py). */
module SchedulerRestore {
  import opened Basics

  datatype Column = Id | TaskType | ScriptPath | CreatedAt | UpdatedAt | Other(n: nat)

  // The other columns of the scheduler table.
  const OTHER_COLUMNS := 16

  predicate IsColumn(c: Column) {
    c.Other? ==> c.n < OTHER_COLUMNS
  }

  // A JSON-normalised column value.
  datatype Cell = Null | Known(value: int)

  type Row = map<Column, Cell>

  function Get(r: Row, c: Column): Cell {
    if c in r then r[c] else Null
  }

  ghost predicate IsLiveRow(r: Row) {
    forall c :: c in r <==> IsColumn(c)
  }

  // Snapshots sealed before the additive column existed lack it.
  ghost predicate IsSealedRow(r: Row) {
    (forall c :: c in r <==> IsColumn(c)) || (forall c :: c in r <==> IsColumn(c) && c != CreatedAt)
  }

  // The scheduled jobs that a rollback owns.
  datatype Task =
    | Governance | Announcement | GapRepairExecute | NightlyReconciliation | FullHistory
    | ReferenceIncremental | GapRepairPlan

  const GOVERNANCE_TASKS: seq<Task> := [Governance]
  const QMT_TASKS: seq<Task> :=
    [Announcement, GapRepairExecute, NightlyReconciliation, FullHistory, ReferenceIncremental, GapRepairPlan]

  function TypeCode(t: Task): int {
    match t
    case Governance => 0
    case Announcement => 1
    case GapRepairExecute => 2
    case NightlyReconciliation => 3
    case FullHistory => 4
    case ReferenceIncremental => 5
    case GapRepairPlan => 6
  }

  // The full-history job was once called by another name.
  const LEGACY_HISTORY_TYPE := 7

  predicate IsTypeOf(t: Task, c: Cell) {
    c == Known(TypeCode(t)) || (t == FullHistory && c == Known(LEGACY_HISTORY_TYPE))
  }

  // Every job has a script of its own.
  predicate IsScriptOf(t: Task, c: Cell) {
    c == Known(TypeCode(t))
  }

  // Rows by primary key; the key is the id cell itself.
  type Table = map<Cell, Row>

  predicate IsId(c: Cell) {
    c.Known? && c.value >= 1
  }

  ghost predicate IsTable(table: Table) {
    forall id <- table :: IsLiveRow(table[id]) && Get(table[id], Id) == id && IsId(id)
  }

  datatype Payload = Payload(tasks: seq<Task>, rows: map<Task, Row>)

  function SealedId(r: Row): Cell {
    Get(r, Id)
  }

  // What `_read_rollback_snapshot` has checked of a payload.
  ghost predicate IsPayload(p: Payload) {
    && (forall i, j :: 0 <= i < j < |p.tasks| ==> p.tasks[i] != p.tasks[j])
    && (forall t <- p.rows ::
          && t in p.tasks && IsSealedRow(p.rows[t]) && IsId(SealedId(p.rows[t]))
          && IsTypeOf(t, Get(p.rows[t], TaskType)) && IsScriptOf(t, Get(p.rows[t], ScriptPath)))
    && (forall t <- p.rows, u <- p.rows :: t != u ==> SealedId(p.rows[t]) != SealedId(p.rows[u]))
    && (forall t <- p.rows, u <- p.rows :: CreatedAt in p.rows[t] <==> CreatedAt in p.rows[u])
  }

  function Expected(p: Payload, t: Task): Option<Row> {
    if t in p.rows then Some(p.rows[t]) else None
  }

  // The lookup predicate: the sealed id, either name, or the script.
  predicate Matches(t: Task, expected: Option<Row>, row: Row) {
    || (expected.Some? && Get(row, Id) == SealedId(expected.value))
    || IsTypeOf(t, Get(row, TaskType)) || IsScriptOf(t, Get(row, ScriptPath))
  }

  function MatchingIds(table: Table, t: Task, expected: Option<Row>): set<Cell> {
    set id | id in table && Matches(t, expected, table[id])
  }

  /** `_require_rollback_live_identity` and the additive-column check: at most one row, under the
      sealed id, with the job's own name and script. */
  predicate LiveIdentityHolds(table: Table, p: Payload, t: Task) {
    var expected := Expected(p, t);
    var ids := MatchingIds(table, t, expected);
    && (forall i <- ids, j <- ids :: i == j)
    && (forall id <- ids ::
          && (expected.Some? ==> id == SealedId(expected.value))
          && IsTypeOf(t, Get(table[id], TaskType)) && IsScriptOf(t, Get(table[id], ScriptPath))
          && (expected.Some? && CreatedAt !in expected.value ==> Get(table[id], CreatedAt) == Null))
  }

  ghost predicate PreChecks(table: Table, p: Payload) {
    forall t <- p.tasks :: LiveIdentityHolds(table, p, t)
  }

  // A sealed row with the additive column at its default.
  function Full(r: Row): Row {
    if CreatedAt in r then r else r[CreatedAt := Null]
  }

  /* ---------- what a restore amounts to ---------- */

  // One job: whatever matched it goes, and its sealed row, if any, takes its place.
  function RestoreTask(original: Table, now: Table, p: Payload, t: Task): Table {
    var kept := now - MatchingIds(original, t, Expected(p, t));
    if t in p.rows then kept[SealedId(p.rows[t]) := Full(p.rows[t])] else kept
  }

  function Restored(table: Table, p: Payload, tasks: seq<Task>): Table {
    if tasks == [] then table
    else RestoreTask(table, Restored(table, p, tasks[..|tasks| - 1]), p, tasks[|tasks| - 1])
  }

  ghost predicate Owned(table: Table, p: Payload, id: Cell) {
    exists t <- p.tasks :: id in Claim(table, p, t)
  }

  // The lookup for a job finds its sealed row, or nothing.
  ghost predicate OnlySealed(after: Table, p: Payload, t: Task) {
    forall id <- after :: Matches(t, Expected(p, t), after[id]) ==> t in p.rows && id == SealedId(p.rows[t])
  }

  /** Exactly the sealed rows for the payload's jobs, and every other row as it was. */
  ghost predicate IsRestored(table: Table, p: Payload, after: Table) {
    && IsTable(after)
    && (forall t <- p.rows :: SealedId(p.rows[t]) in after && after[SealedId(p.rows[t])] == Full(p.rows[t]))
    && (forall t <- p.tasks :: OnlySealed(after, p, t))
    && (forall id <- after :: Owned(table, p, id) ==> exists t <- p.rows :: SealedId(p.rows[t]) == id)
    && (forall id :: !Owned(table, p, id) ==> (id in after <==> id in table) && (id in after ==> after[id] == table[id]))
  }

  // The ids a job may touch: what it matches, and its sealed id.
  function Claim(table: Table, p: Payload, t: Task): set<Cell> {
    MatchingIds(table, t, Expected(p, t)) + if t in p.rows then {SealedId(p.rows[t])} else {}
  }

  // A claimed id that is in the table holds a row with the job's own name.
  lemma ClaimedRow(table: Table, p: Payload, t: Task, id: Cell)
    requires IsTable(table) && IsPayload(p) && PreChecks(table, p) && t in p.tasks
    ensures id in Claim(table, p, t) && id in table ==> IsTypeOf(t, Get(table[id], TaskType))
    ensures id in Claim(table, p, t) && id !in table ==> t in p.rows && id == SealedId(p.rows[t])
  {
    if id in table && t in p.rows && id == SealedId(p.rows[t]) {
      assert id in MatchingIds(table, t, Expected(p, t));
    }
  }

  lemma ClaimsApart(table: Table, p: Payload, t: Task, u: Task)
    requires IsTable(table) && IsPayload(p) && PreChecks(table, p) && t in p.tasks && u in p.tasks && t != u
    ensures Claim(table, p, t) !! Claim(table, p, u)
  {
    forall id ensures !(id in Claim(table, p, t) && id in Claim(table, p, u)) {
      ClaimedRow(table, p, t, id);
      ClaimedRow(table, p, u, id);
    }
  }

  // Jobs that come earlier leave this job's rows alone.
  lemma {:induction false} NotTouchedYet(table: Table, p: Payload, tasks: seq<Task>, t: Task, id: Cell)
    requires IsTable(table) && IsPayload(p) && PreChecks(table, p) && t in p.tasks && t !in tasks
    requires forall u <- tasks :: u in p.tasks
    requires id in Claim(table, p, t)
    ensures var now := Restored(table, p, tasks); (id in now <==> id in table) && (id in now ==> now[id] == table[id])
  {
    if tasks != [] {
      var front, last := tasks[..|tasks| - 1], tasks[|tasks| - 1];
      assert last in tasks && forall u <- front :: u in tasks;
      NotTouchedYet(table, p, front, t, id);
      ClaimsApart(table, p, t, last);
    }
  }

  lemma {:induction false} RestoredElsewhere(table: Table, p: Payload, tasks: seq<Task>, id: Cell)
    requires forall u <- tasks :: u in p.tasks && id !in Claim(table, p, u)
    ensures var now := Restored(table, p, tasks); (id in now <==> id in table) && (id in now ==> now[id] == table[id])
  {
    if tasks != [] {
      var front, last := tasks[..|tasks| - 1], tasks[|tasks| - 1];
      assert last in tasks && forall u <- front :: u in tasks;
      RestoredElsewhere(table, p, front, id);
    }
  }

  // What the table holds under the ids of a job, once that job has been restored.
  lemma {:induction false} RestoredThere(table: Table, p: Payload, tasks: seq<Task>, t: Task, id: Cell)
    requires IsTable(table) && IsPayload(p) && PreChecks(table, p)
    requires (forall u <- tasks :: u in p.tasks) && (forall i, j :: 0 <= i < j < |tasks| ==> tasks[i] != tasks[j])
    requires t in tasks && id in Claim(table, p, t)
    ensures var now := Restored(table, p, tasks);
      if t in p.rows && id == SealedId(p.rows[t]) then id in now && now[id] == Full(p.rows[t]) else id !in now
  {
    var front, last := tasks[..|tasks| - 1], tasks[|tasks| - 1];
    assert last in tasks && forall u <- front :: u in tasks;
    if t != last {
      assert t in front;
      RestoredThere(table, p, front, t, id);
      ClaimsApart(table, p, t, last);
    }
  }

  lemma RestoredIsTable(table: Table, p: Payload, tasks: seq<Task>)
    requires IsTable(table) && IsPayload(p) && forall u <- tasks :: u in p.tasks
    ensures IsTable(Restored(table, p, tasks))
  {
    if tasks != [] {
      var front, last := tasks[..|tasks| - 1], tasks[|tasks| - 1];
      assert forall u <- front :: u in tasks;
      RestoredIsTable(table, p, front);
    }
  }

  /** The restored table is what was promised. */
  lemma RestoredMeetsPromise(table: Table, p: Payload)
    requires IsTable(table) && IsPayload(p) && PreChecks(table, p)
    ensures IsRestored(table, p, Restored(table, p, p.tasks))
  {
    var after := Restored(table, p, p.tasks);
    RestoredIsTable(table, p, p.tasks);
    forall t <- p.rows ensures SealedId(p.rows[t]) in after && after[SealedId(p.rows[t])] == Full(p.rows[t]) {
      RestoredThere(table, p, p.tasks, t, SealedId(p.rows[t]));
    }
    forall id <- after | Owned(table, p, id) ensures exists t <- p.rows :: SealedId(p.rows[t]) == id {
      var t :| t in p.tasks && id in Claim(table, p, t);
      RestoredThere(table, p, p.tasks, t, id);
    }
    forall id | !Owned(table, p, id) ensures (id in after <==> id in table) && (id in after ==> after[id] == table[id]) {
      RestoredElsewhere(table, p, p.tasks, id);
    }
    forall t <- p.tasks ensures OnlySealed(after, p, t) {
      MatchesAfter(table, p, t);
    }
  }

  lemma MatchesAfter(table: Table, p: Payload, t: Task)
    requires IsTable(table) && IsPayload(p) && PreChecks(table, p) && t in p.tasks
    ensures OnlySealed(Restored(table, p, p.tasks), p, t)
  {
    var after := Restored(table, p, p.tasks);
    forall id <- after | Matches(t, Expected(p, t), after[id]) ensures t in p.rows && id == SealedId(p.rows[t]) {
      assert id in table && after[id] == table[id] ==> id in Claim(table, p, t);
      if u :| u in p.tasks && id in Claim(table, p, u) {
        RestoredThere(table, p, p.tasks, u, id);
        if t != u {
          OtherTasksRow(p, t, u);
        }
      } else {
        RestoredElsewhere(table, p, p.tasks, id);
      }
    }
  }

  lemma NamesApart(t: Task, u: Task, taskType: Cell, script: Cell)
    requires t != u && IsTypeOf(u, taskType) && IsScriptOf(u, script)
    ensures !IsTypeOf(t, taskType) && !IsScriptOf(t, script)
  {
  }

  // A job's sealed row is not found under another job.
  lemma OtherTasksRow(p: Payload, t: Task, u: Task)
    requires IsPayload(p) && u in p.rows && t != u
    ensures !Matches(t, Expected(p, t), Full(p.rows[u]))
  {
    var row := p.rows[u];
    NamesApart(t, u, Get(row, TaskType), Get(row, ScriptPath));
    assert Get(Full(row), Id) == SealedId(row);
    assert t in p.rows ==> SealedId(p.rows[t]) != SealedId(row);
  }

  /* ---------- the promise, column by column ---------- */

  // A row of the table is about a job: it stands under the sealed id, or bears one of the job's
  // names, or runs its script.
  ghost predicate About(p: Payload, t: Task, row: Row) {
    || (t in p.rows && Get(row, Id) == Get(p.rows[t], Id))
    || Get(row, TaskType) == Known(TypeCode(t)) || (t.FullHistory? && Get(row, TaskType) == Known(LEGACY_HISTORY_TYPE))
    || Get(row, ScriptPath) == Known(TypeCode(t))
  }

  lemma AboutIs(p: Payload, t: Task, row: Row)
    ensures About(p, t, row) <==> Matches(t, Expected(p, t), row)
  {
  }

  /** After a restore each sealed job's row has the sealed value in every column, with null in a
      column that the snapshot did not know. */
  lemma SealedByColumn(table: Table, p: Payload, after: Table, t: Task, c: Column)
    requires IsTable(table) && IsPayload(p) && IsRestored(table, p, after) && t in p.rows && IsColumn(c)
    ensures var id := Get(p.rows[t], Id); id in after && Get(after[id], c) == Get(p.rows[t], c)
  {
    SealedIsThere(table, p, after, t);
    FullReads(p.rows[t], c);
  }

  lemma SealedIsThere(table: Table, p: Payload, after: Table, t: Task)
    requires IsRestored(table, p, after) && t in p.rows
    ensures Get(p.rows[t], Id) in after && after[Get(p.rows[t], Id)] == Full(p.rows[t])
  {
    assert SealedId(p.rows[t]) in after && after[SealedId(p.rows[t])] == Full(p.rows[t]);
  }

  // A column that a row lacks reads as null either way.
  lemma FullReads(r: Row, c: Column)
    ensures Get(Full(r), c) == Get(r, c)
  {
  }

  /** No other row is about any of the jobs then. */
  lemma OnlySealedLeft(table: Table, p: Payload, after: Table, t: Task, id: Cell)
    requires IsRestored(table, p, after) && t in p.tasks && id in after && About(p, t, after[id])
    ensures t in p.rows && id == Get(p.rows[t], Id)
  {
    AboutIs(p, t, after[id]);
    assert OnlySealed(after, p, t);
  }

  // Under this id nothing is about any of the jobs, nor would be.
  ghost predicate Apart(table: Table, p: Payload, id: Cell) {
    forall t <- p.tasks :: (t in p.rows ==> id != Get(p.rows[t], Id)) && (id in table ==> !About(p, t, table[id]))
  }

  /** And a row about none of them, under none of their sealed ids, is as it was. */
  lemma OthersAsTheyWere(table: Table, p: Payload, after: Table, id: Cell)
    requires IsRestored(table, p, after) && Apart(table, p, id)
    ensures (id in after <==> id in table) && (id in after ==> after[id] == table[id])
  {
    ApartIsFree(table, p, id);
  }

  lemma ApartIsFree(table: Table, p: Payload, id: Cell)
    requires Apart(table, p, id)
    ensures !Owned(table, p, id)
  {
    forall t <- p.tasks ensures id !in Claim(table, p, t) {
      if id in table {
        AboutIs(p, t, table[id]);
      }
    }
  }

  /** The check before a restore: of the rows about a job there is at most one, under the sealed id if
      there is one, with the job's own name and script, and with nothing in a column that the
      snapshot did not know. */
  lemma CheckByColumn(table: Table, p: Payload, t: Task)
    ensures LiveIdentityHolds(table, p, t) <==>
      && (forall i <- table, j <- table :: About(p, t, table[i]) && About(p, t, table[j]) ==> i == j)
      && forall i <- table :: About(p, t, table[i]) ==>
           && (t in p.rows ==> i == Get(p.rows[t], Id))
           && (Get(table[i], TaskType) == Known(TypeCode(t)) || (t.FullHistory? && Get(table[i], TaskType) == Known(LEGACY_HISTORY_TYPE)))
           && Get(table[i], ScriptPath) == Known(TypeCode(t))
           && (t in p.rows && CreatedAt !in p.rows[t] ==> Get(table[i], CreatedAt) == Null)
  {
    var ids := MatchingIds(table, t, Expected(p, t));
    forall i <- table ensures About(p, t, table[i]) <==> i in ids {
      AboutIs(p, t, table[i]);
    }
  }

  // What the verification looks for under one job.
  ghost predicate IsSealedThere(table: Table, p: Payload, t: Task) {
    && LiveIdentityHolds(table, p, t)
    && (t !in p.rows ==> MatchingIds(table, t, Expected(p, t)) == {})
    && (t in p.rows ==> SealedId(p.rows[t]) in table && table[SealedId(p.rows[t])] == Full(p.rows[t]))
  }

  lemma SealedThere(p: Payload, after: Table, t: Task)
    requires IsPayload(p) && t in p.tasks && OnlySealed(after, p, t)
    requires t in p.rows ==> SealedId(p.rows[t]) in after && after[SealedId(p.rows[t])] == Full(p.rows[t])
    ensures IsSealedThere(after, p, t)
  {
    forall id <- MatchingIds(after, t, Expected(p, t)) ensures t in p.rows && id == SealedId(p.rows[t]) {}
  }

  // Putting back a row that is there already changes nothing.
  lemma SealedStays(now: Table, p: Payload, t: Task)
    requires IsSealedThere(now, p, t)
    ensures RestoreTask(now, now, p, t) == now
  {
    var ids := MatchingIds(now, t, Expected(p, t));
    if t in p.rows {
      var id := SealedId(p.rows[t]);
      forall i <- ids ensures i == id {}
      assert now - ids + map[id := now[id]] == now;
    }
  }

  lemma {:induction false} AllSealedStays(now: Table, p: Payload, tasks: seq<Task>)
    requires forall t <- tasks :: IsSealedThere(now, p, t)
    ensures Restored(now, p, tasks) == now
  {
    if tasks != [] {
      var front, last := tasks[..|tasks| - 1], tasks[|tasks| - 1];
      assert last in tasks && forall u <- front :: u in tasks;
      AllSealedStays(now, p, front);
      SealedStays(now, p, last);
    }
  }

  /** A restore leaves nothing for a second one to do, and passes the checks before it. */
  lemma RestoreTwice(table: Table, p: Payload)
    requires IsTable(table) && IsPayload(p) && PreChecks(table, p)
    ensures var once := Restored(table, p, p.tasks);
      IsTable(once) && PreChecks(once, p) && Restored(once, p, p.tasks) == once
  {
    var once := Restored(table, p, p.tasks);
    RestoredMeetsPromise(table, p);
    forall t <- p.tasks ensures IsSealedThere(once, p, t) {
      SealedThere(p, once, t);
    }
    AllSealedStays(once, p, p.tasks);
  }
}
