/** The scheduler table and the statements that restore and verify it
    (deploy/production_governance_contract_recovery.py, `reconcile_rollback_snapshot`). */
module SchedulerStore {
  import opened Basics
  import opened SchedulerRestore

  // The columns whose live value differs from the sealed one; the id and script never count.
  function ChangedColumns(current: Row, expected: Row): set<Column> {
    set c | c in expected && c != Id && c != ScriptPath && (c !in current || current[c] != expected[c])
  }

  // The lookup for a job found this row, or none.
  ghost predicate Found(table: Table, p: Payload, t: Task, id: Option<Cell>) {
    MatchingIds(table, t, Expected(p, t)) == if id.Some? then {id.value} else {}
  }

  // Nothing the job may touch has been touched yet.
  ghost predicate Unclaimed(original: Table, now: Table, p: Payload, t: Task) {
    forall id <- Claim(original, p, t) :: (id in now <==> id in original) && (id in now ==> now[id] == original[id])
  }

  // What the lookup before the restore says about the table during it.
  lemma FoundRow(original: Table, now: Table, p: Payload, t: Task, current: Option<Cell>)
    requires IsTable(original) && IsPayload(p) && LiveIdentityHolds(original, p, t) && t in p.tasks
    requires Found(original, p, t, current) && Unclaimed(original, now, p, t)
    ensures t !in p.rows && current.Some? ==> current.value in now && RestoreTask(original, now, p, t) == now - {current.value}
    ensures t !in p.rows && current.None? ==> RestoreTask(original, now, p, t) == now
    ensures t in p.rows ==> RestoreTask(original, now, p, t) == now[SealedId(p.rows[t]) := Full(p.rows[t])]
    ensures t in p.rows && current.None? ==> SealedId(p.rows[t]) !in now
    ensures t in p.rows && current.Some? ==>
      && current.value == SealedId(p.rows[t]) && current.value in now && IsLiveRow(now[current.value])
      && IsScriptOf(t, Get(now[current.value], ScriptPath)) && Get(now[current.value], Id) == Get(p.rows[t], Id)
      && (CreatedAt !in p.rows[t] ==> Get(now[current.value], CreatedAt) == Null)
  {
    var ids := MatchingIds(original, t, Expected(p, t));
    if current.Some? {
      assert current.value in ids && current.value in Claim(original, p, t);
    } else {
      assert now - ids == now;
    }
    if t in p.rows {
      var id := SealedId(p.rows[t]);
      assert id in Claim(original, p, t);
      assert id in original ==> id in ids;
      assert (now - ids)[id := Full(p.rows[t])] == now[id := Full(p.rows[t])];
    }
  }

  class Scheduler {
    var table: Table
    var now: Cell

    constructor (table: Table, now: Cell)
      ensures this.table == table && this.now == now
    {
      this.table, this.now := table, now;
    }

    /** `_rollback_matching_rows` and `_require_rollback_live_identity`. */
    method LiveRow(p: Payload, t: Task) returns (ok: bool, id: Option<Cell>)
      requires IsTable(table)
      ensures ok <==> LiveIdentityHolds(table, p, t)
      ensures ok ==> Found(table, p, t, id)
    {
      var expected := Expected(p, t);
      var ids := MatchingIds(table, t, expected);
      id := None;
      if |ids| == 0 {
        return true, None;
      }
      SomeMember(ids);
      var current :| current in ids;
      if |ids| > 1 {
        SomeMember(ids - {current});
        ghost var other :| other in ids - {current};
        return false, None;
      }
      OnlyOne(ids, current);
      var row := table[current];
      if (expected.Some? && current != SealedId(expected.value))
         || !IsTypeOf(t, Get(row, TaskType)) || !IsScriptOf(t, Get(row, ScriptPath))
         || (expected.Some? && CreatedAt !in expected.value && Get(row, CreatedAt) != Null) {
        return false, None;
      }
      return true, Some(current);
    }

    method Delete(id: Cell, row: Row) returns (rowcount: nat)
      modifies this`table
      ensures id in old(table) && old(table)[id] == row ==> rowcount == 1 && table == old(table) - {id}
    {
      if id in table && table[id] == row {
        table := table - {id};
        rowcount := 1;
      } else {
        rowcount := 0;
      }
    }

    // Columns not named take their default, which is null for the additive column.
    method Insert(expected: Row) returns (rowcount: nat)
      requires SealedId(expected) !in table
      modifies this`table
      ensures rowcount == 1 && table == old(table)[SealedId(expected) := Full(expected)]
    {
      table := table[SealedId(expected) := Full(expected)];
      rowcount := 1;
    }

    // Unless it is assigned, the update time moves by itself.
    method Update(id: Cell, assignments: Row)
      requires id in table
      modifies this`table
      ensures table == old(table)[id := old(table)[id] + (if UpdatedAt in assignments then assignments else assignments[UpdatedAt := now])]
    {
      var row := table[id] + assignments;
      if UpdatedAt !in assignments {
        row := row[UpdatedAt := now];
      }
      table := table[id := row];
      assert UpdatedAt !in assignments ==> row == old(table)[id] + assignments[UpdatedAt := now];
    }

    // The job has no sealed row: its live row goes.
    method RemoveRow(id: Cell) returns (ok: bool)
      requires id in table
      modifies this`table
      ensures ok && table == old(table) - {id}
    {
      var rowcount := Delete(id, table[id]);
      ok := rowcount == 1;
    }

    // The job's live row takes the sealed values.
    method ChangeRow(sealed: Row, t: Task, id: Cell) returns (changed: nat)
      requires id in table && IsLiveRow(table[id]) && IsSealedRow(sealed)
      requires IsScriptOf(t, Get(table[id], ScriptPath)) && IsScriptOf(t, Get(sealed, ScriptPath)) && Get(table[id], Id) == Get(sealed, Id)
      requires CreatedAt !in sealed ==> Get(table[id], CreatedAt) == Null
      modifies this`table
      ensures table == old(table)[id := Full(sealed)]
      ensures changed == 0 <==> table == old(table)
    {
      var row := table[id];
      var columns := ChangedColumns(row, sealed);
      if columns == {} {
        AlreadySealed(row, sealed, t);
        return 0;
      }
      var assignments: Row := map c | c in columns :: sealed[c];
      if UpdatedAt in sealed && UpdatedAt !in columns {
        assignments := assignments[UpdatedAt := sealed[UpdatedAt]];
      }
      UpdateSeals(row, sealed, t, assignments);
      Update(id, assignments);
      changed := 1;
    }

    /** One job of the restore loop. `current` is what the first pass found. */
    method RestoreOne(p: Payload, t: Task, current: Option<Cell>, ghost original: Table)
      returns (ok: bool, changed: nat)
      requires IsTable(original) && IsPayload(p) && LiveIdentityHolds(original, p, t) && t in p.tasks
      requires Found(original, p, t, current) && Unclaimed(original, table, p, t)
      modifies this`table
      ensures ok && table == RestoreTask(original, old(table), p, t)
      ensures changed == 0 ==> table == old(table)
      ensures table == old(table) ==> changed == 0
    {
      ok, changed := true, 0;
      FoundRow(original, table, p, t, current);
      if t !in p.rows {
        if current.Some? {
          ok := RemoveRow(current.value);
          changed := 1;
        }
      } else if current.None? {
        changed := Insert(p.rows[t]);
      } else {
        changed := ChangeRow(p.rows[t], t, current.value);
      }
    }

    // The first pass: every job's live row, looked up before anything is written.
    method LiveRows(p: Payload) returns (ok: bool, live: map<Task, Option<Cell>>)
      requires IsTable(table) && IsPayload(p)
      ensures ok <==> PreChecks(table, p)
      ensures ok ==> forall t <- p.tasks :: t in live
                       && Found(table, p, t, live[t])
    {
      live := map[];
      var i := 0;
      while i < |p.tasks|
        invariant 0 <= i <= |p.tasks|
        invariant forall t <- p.tasks[..i] :: LiveIdentityHolds(table, p, t) && t in live
                    && Found(table, p, t, live[t])
      {
        var t := p.tasks[i];
        assert t in p.tasks && p.tasks[..i + 1] == p.tasks[..i] + [t];
        var found, id := LiveRow(p, t);
        if !found {
          return false, live;
        }
        live := live[t := id];
        i := i + 1;
      }
      assert p.tasks[..i] == p.tasks;
      ok := true;
    }

    /** `_verify_rollback_state`: each job has exactly its sealed row, or none. */
    method Verify(p: Payload) returns (ok: bool)
      requires IsTable(table) && IsPayload(p)
      ensures ok <==> forall t <- p.tasks :: IsSealedThere(table, p, t)
    {
      var i := 0;
      while i < |p.tasks|
        invariant 0 <= i <= |p.tasks|
        invariant forall t <- p.tasks[..i] :: IsSealedThere(table, p, t)
      {
        var t := p.tasks[i];
        assert t in p.tasks && p.tasks[..i + 1] == p.tasks[..i] + [t];
        var found, id := LiveRow(p, t);
        if !found || (t !in p.rows && id.Some?) || (t in p.rows && id.None?) {
          return false;
        }
        if t in p.rows {
          LiveRowFacts(table, p, t, id.value);
          ProjectionIsFull(table[id.value], p.rows[t]);
          if exists c <- p.rows[t] :: table[id.value][c] != p.rows[t][c] {
            return false;
          }
        }
        i := i + 1;
      }
      assert p.tasks[..i] == p.tasks;
      ok := true;
    }

    // The second pass: the statements, job by job.
    method RestoreAll(p: Payload, live: map<Task, Option<Cell>>) returns (ok: bool, changed: nat)
      requires IsTable(table) && IsPayload(p) && PreChecks(table, p)
      requires forall t <- p.tasks :: t in live
                 && Found(table, p, t, live[t])
      modifies this`table
      ensures ok && table == Restored(old(table), p, p.tasks)
      ensures changed == 0 ==> table == old(table)
      ensures Restored(old(table), p, p.tasks) == old(table) ==> changed == 0
    {
      var i := 0;
      changed := 0;
      while i < |p.tasks|
        invariant 0 <= i <= |p.tasks|
        invariant table == Restored(old(table), p, p.tasks[..i])
        invariant changed == 0 ==> table == old(table)
        invariant Restored(old(table), p, p.tasks) == old(table) ==> changed == 0
      {
        var t := p.tasks[i];
        TaskIsNext(old(table), p, i);
        var more;
        ok, more := RestoreOne(p, t, live[t], old(table));
        changed := changed + more;
        i := i + 1;
      }
      assert p.tasks[..i] == p.tasks;
      ok := true;
    }

    /** The restore action, one transaction: it succeeds exactly when the checks before it pass,
        its own closing verification never fails, and it is exact. */
    method Restore(p: Payload) returns (ok: bool, changed: nat)
      requires IsTable(table) && IsPayload(p)
      modifies this`table
      ensures ok <==> PreChecks(old(table), p)
      ensures ok ==> IsRestored(old(table), p, table)
      ensures ok ==> (changed == 0 <==> table == old(table))
      ensures !ok ==> table == old(table)
      ensures IsTable(table)
    {
      var live;
      changed := 0;
      ok, live := LiveRows(p);
      if !ok {
        return;
      }
      var before := table;
      ok, changed := RestoreAll(p, live);
      RestoredMeetsPromise(before, p);
      RestoredIsSealed(before, p, table);
      var verified := Verify(p);
      ok := ok && verified;
      table := if ok then table else before;
    }

    /** Restoring twice: the second time nothing changes. */
    method RestoreAgain(p: Payload) returns (ok: bool, changed: nat)
      requires IsTable(table) && IsPayload(p) && PreChecks(table, p)
      modifies this`table
      ensures ok && changed == 0 && IsRestored(old(table), p, table)
    {
      RestoreTwice(table, p);
      RestoredMeetsPromise(table, p);
      ghost var original := table;
      var _, _ := Restore(p);
      IsRestoredUnique(original, p, table);
      ok, changed := Restore(p);
      RestoredMeetsPromise(Restored(original, p, p.tasks), p);
      IsRestoredUnique(Restored(original, p, p.tasks), p, table);
    }
  }

  // The rows that a job claims are as they were when its turn comes.
  lemma NextIsUnclaimed(original: Table, p: Payload, i: nat)
    requires IsTable(original) && IsPayload(p) && PreChecks(original, p) && i < |p.tasks|
    ensures Unclaimed(original, Restored(original, p, p.tasks[..i]), p, p.tasks[i])
  {
    var now, t := Restored(original, p, p.tasks[..i]), p.tasks[i];
    assert forall u <- p.tasks[..i] :: u in p.tasks;
    forall id <- Claim(original, p, t)
      ensures (id in now <==> id in original) && (id in now ==> now[id] == original[id])
    {
      NotTouchedYet(original, p, p.tasks[..i], t, id);
    }
  }

  // What the restore loop may rely on when it comes to a job.
  lemma TaskIsNext(original: Table, p: Payload, i: nat)
    requires IsTable(original) && IsPayload(p) && PreChecks(original, p) && i < |p.tasks|
    ensures p.tasks[i] in p.tasks && LiveIdentityHolds(original, p, p.tasks[i])
    ensures var now, t := Restored(original, p, p.tasks[..i]), p.tasks[i];
      && IsTable(now)
      && Unclaimed(original, now, p, t)
      && Restored(original, p, p.tasks[..i + 1]) == RestoreTask(original, now, p, t)
      && (Restored(original, p, p.tasks) == original ==> RestoreTask(original, now, p, t) == now)
  {
    var now, t := Restored(original, p, p.tasks[..i]), p.tasks[i];
    assert p.tasks[..i + 1][..i] == p.tasks[..i];
    assert forall u <- p.tasks[..i] :: u in p.tasks;
    RestoredIsTable(original, p, p.tasks[..i]);
    NextIsUnclaimed(original, p, i);
    if Restored(original, p, p.tasks) == original {
      NothingToRestore(original, p, t);
      SealedLeaves(original, now, p, t);
    }
  }

  // Putting back a row that is there already changes nothing.
  lemma SealedLeaves(original: Table, now: Table, p: Payload, t: Task)
    requires IsTable(original) && IsPayload(p) && IsSealedThere(original, p, t)
    requires Unclaimed(original, now, p, t)
    ensures RestoreTask(original, now, p, t) == now
  {
    var ids := MatchingIds(original, t, Expected(p, t));
    if t in p.rows {
      var id := SealedId(p.rows[t]);
      assert id in ids && id in Claim(original, p, t);
      forall i <- ids ensures i == id {}
      assert now - ids + map[id := now[id]] == now;
    }
  }

  lemma ProjectionIsFull(row: Row, sealed: Row)
    requires IsLiveRow(row) && IsSealedRow(sealed) && (CreatedAt !in sealed ==> Get(row, CreatedAt) == Null)
    ensures (forall c <- sealed :: row[c] == sealed[c]) <==> row == Full(sealed)
  {
    if forall c <- sealed :: row[c] == sealed[c] {
      assert forall c :: c in row <==> c in Full(sealed);
    }
    if row == Full(sealed) {
      assert forall c <- sealed :: Full(sealed)[c] == sealed[c];
    }
  }

  lemma RestoredIsSealed(table: Table, p: Payload, after: Table)
    requires IsTable(table) && IsPayload(p) && IsRestored(table, p, after)
    ensures forall t <- p.tasks :: IsSealedThere(after, p, t)
  {
    forall t <- p.tasks ensures IsSealedThere(after, p, t) {
      SealedThere(p, after, t);
    }
  }

  // A table that a restore would not change already holds every sealed row.
  lemma NothingToRestore(table: Table, p: Payload, t: Task)
    requires IsTable(table) && IsPayload(p) && PreChecks(table, p) && Restored(table, p, p.tasks) == table && t in p.tasks
    ensures IsSealedThere(table, p, t)
  {
    RestoredMeetsPromise(table, p);
    RestoredIsSealed(table, p, table);
  }

  // The promise determines the table.
  lemma IsRestoredUnique(table: Table, p: Payload, after: Table)
    requires IsTable(table) && IsPayload(p) && PreChecks(table, p) && IsRestored(table, p, after)
    ensures after == Restored(table, p, p.tasks)
  {
    RestoredMeetsPromise(table, p);
    SamePromise(table, p, after, Restored(table, p, p.tasks));
  }

  lemma SamePromise(table: Table, p: Payload, a: Table, b: Table)
    requires IsRestored(table, p, a) && IsRestored(table, p, b)
    ensures a == b
  {
    forall id ensures (id in a <==> id in b) && (id in a ==> a[id] == b[id]) {
      PromisedRow(table, p, a, b, id);
      PromisedRow(table, p, b, a, id);
    }
  }

  lemma PromisedRow(table: Table, p: Payload, a: Table, b: Table, id: Cell)
    requires IsRestored(table, p, a) && IsRestored(table, p, b)
    ensures id in a ==> id in b && b[id] == a[id]
  {
    if id in a && Owned(table, p, id) {
      var t :| t in p.rows && SealedId(p.rows[t]) == id;
    }
  }

  lemma SomeMember(ids: set<Cell>)
    requires |ids| > 0
    ensures exists id :: id in ids
  {
  }

  lemma OnlyOne(ids: set<Cell>, id: Cell)
    requires id in ids && |ids| <= 1
    ensures ids == {id}
  {
    assert |ids - {id}| == |ids| - 1;
  }

  lemma LiveRowFacts(table: Table, p: Payload, t: Task, id: Cell)
    requires IsTable(table) && IsPayload(p) && LiveIdentityHolds(table, p, t) && id in MatchingIds(table, t, Expected(p, t))
    ensures id in table && IsLiveRow(table[id]) && Get(table[id], Id) == id
    ensures IsTypeOf(t, Get(table[id], TaskType)) && IsScriptOf(t, Get(table[id], ScriptPath))
    ensures t in p.rows ==> id == SealedId(p.rows[t]) && (CreatedAt !in p.rows[t] ==> Get(table[id], CreatedAt) == Null)
  {
  }

  // Nothing to change means the row is the sealed one.
  lemma AlreadySealed(row: Row, sealed: Row, t: Task)
    requires IsLiveRow(row) && IsSealedRow(sealed) && ChangedColumns(row, sealed) == {}
    requires IsScriptOf(t, Get(row, ScriptPath)) && IsScriptOf(t, Get(sealed, ScriptPath)) && Get(row, Id) == Get(sealed, Id)
    requires CreatedAt !in sealed ==> Get(row, CreatedAt) == Null
    ensures row == Full(sealed)
  {
    forall c ensures (c in row <==> c in Full(sealed)) && (c in row ==> row[c] == Full(sealed)[c]) {
      assert c !in ChangedColumns(row, sealed);
    }
  }

  // The assignments turn the live row into the sealed one, update time included.
  lemma UpdateSeals(row: Row, sealed: Row, t: Task, assignments: Row)
    requires IsLiveRow(row) && IsSealedRow(sealed)
    requires IsScriptOf(t, Get(row, ScriptPath)) && IsScriptOf(t, Get(sealed, ScriptPath)) && Get(row, Id) == Get(sealed, Id)
    requires CreatedAt !in sealed ==> Get(row, CreatedAt) == Null
    requires forall c :: c in assignments <==> c in ChangedColumns(row, sealed) || c == UpdatedAt
    requires forall c <- assignments :: c in sealed && assignments[c] == sealed[c]
    ensures row + assignments == Full(sealed)
    ensures ChangedColumns(row, sealed) != {} ==> row + assignments != row
  {
    forall c ensures (c in row + assignments <==> c in Full(sealed)) && (c in row + assignments ==> (row + assignments)[c] == Full(sealed)[c]) {
      if c !in assignments {
        assert c !in ChangedColumns(row, sealed);
      }
    }
    if c :| c in ChangedColumns(row, sealed) {
      assert (row + assignments)[c] == sealed[c] != row[c];
    }
  }
}
