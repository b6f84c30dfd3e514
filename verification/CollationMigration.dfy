/** The resumable conversion of the attestation tables to the target collation. Its markers live
    in one of the tables it converts (tools/attest_qmt_daily_kline.py). */
module CollationMigration {
  import opened Basics

  datatype Table = RunTable | MismatchTable | RowTable | MarkerTable

  const TABLES: seq<Table> := [RunTable, MismatchTable, RowTable, MarkerTable]

  datatype Collation = Legacy | Target | Unknown

  // A migration key: those of this migration, and those of any other.
  datatype Key = Pending(table: Table) | Complete(table: Table) | Foreign(name: nat)

  // SHA-256 and the canonical digest taken as injective.
  datatype Hash = PendingHash(table: Table, proof: Proof) | CompleteHash(table: Table, pending: Hash) | Other(digest: nat)

  datatype Proof = OfRows(table: Table, rows: seq<nat>) | OfMarkers(markers: map<Key, Marker>)

  datatype Marker = Marker(hash: Hash, completedAt: int)

  datatype Database = Database(
    collations: map<Table, Collation>,
    rows: map<Table, seq<nat>>,
    markers: map<Key, Marker>)

  predicate IsDatabase(db: Database) {
    forall t: Table :: t in db.collations && t in db.rows
  }

  // `_attestation_table_row_proof`: the marker table leaves out its own two markers.
  function ProofOf(db: Database, t: Table): Proof
    requires IsDatabase(db)
  {
    if t == MarkerTable then OfMarkers(db.markers - {Pending(t), Complete(t)}) else OfRows(t, db.rows[t])
  }

  /** Two proofs of one table are equal exactly when its rows are: all of them, in order, or for the
      marker table all markers but its own two. Proofs of different tables never are. */
  lemma ProofTellsRows(a: Database, b: Database, t: Table)
    requires IsDatabase(a) && IsDatabase(b)
    ensures t != MarkerTable ==> (ProofOf(a, t) == ProofOf(b, t) <==> a.rows[t] == b.rows[t])
    ensures ProofOf(a, MarkerTable) == ProofOf(b, MarkerTable) <==>
      forall k: Key :: k != Pending(MarkerTable) && k != Complete(MarkerTable) ==>
        (k in a.markers <==> k in b.markers) && (k in a.markers ==> a.markers[k] == b.markers[k])
    ensures forall u: Table :: u != t ==> ProofOf(a, t) != ProofOf(b, u)
  {
    var own := {Pending(MarkerTable), Complete(MarkerTable)};
    var left, right := a.markers - own, b.markers - own;
    if left == right {
      forall k: Key | k !in own
        ensures (k in a.markers <==> k in b.markers) && (k in a.markers ==> a.markers[k] == b.markers[k])
      {
        assert k in left <==> k in right;
        assert k in a.markers ==> left[k] == a.markers[k];
      }
    }
    if forall k: Key :: k !in own ==> (k in a.markers <==> k in b.markers) && (k in a.markers ==> a.markers[k] == b.markers[k]) {
      assert left == right;
    }
  }

  function ReadMarker(db: Database, k: Key): Option<Hash> {
    if k in db.markers then Some(db.markers[k].hash) else None
  }

  function WithMarker(db: Database, k: Key, hash: Hash, now: int): Database {
    db.(markers := db.markers[k := Marker(hash, now)])
  }

  function Converted(db: Database, t: Table): Database {
    db.(collations := db.collations[t := Target])
  }

  /* ---------- how far a table has come ---------- */

  datatype Stage = Untouched | Proved | Switched | Done | Broken

  predicate CompletionHolds(db: Database, t: Table) {
    var pending := ReadMarker(db, Pending(t));
    pending.Some? && ReadMarker(db, Complete(t)) == Some(CompleteHash(t, pending.value))
  }

  function StageOf(db: Database, t: Table): Stage
    requires IsDatabase(db)
  {
    var pending, complete := ReadMarker(db, Pending(t)), ReadMarker(db, Complete(t));
    var proved := pending == Some(PendingHash(t, ProofOf(db, t)));
    match db.collations[t]
    case Legacy =>
      if complete.Some? then Broken else if pending.None? then Untouched else if proved then Proved else Broken
    case Target =>
      if complete.Some? then if CompletionHolds(db, t) then Done else Broken
      else if proved then Switched else Broken
    case Unknown => Broken
  }

  function Rank(t: Table): nat {
    match t
    case RunTable => 0
    case MismatchTable => 1
    case RowTable => 2
    case MarkerTable => 3
  }

  /** Tables are taken one after another, and nothing contradicts its own proof. */
  predicate Inv(db: Database) {
    && IsDatabase(db)
    && (forall t: Table :: StageOf(db, t) != Broken)
    && (forall t: Table, u: Table :: Rank(t) < Rank(u) && StageOf(db, u) != Untouched ==> StageOf(db, t) == Done)
  }

  predicate AllDone(db: Database)
    requires IsDatabase(db)
  {
    forall t: Table :: StageOf(db, t) == Done
  }

  predicate Earlier(db: Database, t: Table)
    requires IsDatabase(db)
  {
    forall u: Table :: Rank(u) < Rank(t) ==> StageOf(db, u) == Done
  }

  predicate OthersSame(before: Database, after: Database, t: Table)
    requires IsDatabase(before) && IsDatabase(after)
  {
    forall u: Table :: u != t ==> StageOf(after, u) == StageOf(before, u)
  }

  // Everything but the migration's own markers and the collations.
  ghost predicate SameData(a: Database, b: Database) {
    && a.rows == b.rows
    && forall n: nat :: (Foreign(n) in a.markers <==> Foreign(n) in b.markers)
                        && (Foreign(n) in a.markers ==> a.markers[Foreign(n)] == b.markers[Foreign(n)])
  }

  lemma PendingKeepsInv(db: Database, t: Table, now: int)
    requires Inv(db) && StageOf(db, t) == Untouched && Earlier(db, t)
    ensures var after := WithMarker(db, Pending(t), PendingHash(t, ProofOf(db, t)), now);
      Inv(after) && OthersSame(db, after, t) && StageOf(after, t) == Proved && ProofOf(after, t) == ProofOf(db, t)
  {
    var after := WithMarker(db, Pending(t), PendingHash(t, ProofOf(db, t)), now);
    OwnMarkerLeavesProof(db, t, Pending(t), PendingHash(t, ProofOf(db, t)), now);
    forall u: Table | u != t ensures StageOf(after, u) == StageOf(db, u) {
      OthersUnmoved(db, t, u, Pending(t), PendingHash(t, ProofOf(db, t)), now);
    }
  }

  // The two markers of a table are not part of its own proof.
  lemma OwnMarkerLeavesProof(db: Database, t: Table, k: Key, hash: Hash, now: int)
    requires IsDatabase(db) && (k == Pending(t) || k == Complete(t))
    ensures ProofOf(WithMarker(db, k, hash, now), t) == ProofOf(db, t)
  {
    assert WithMarker(db, k, hash, now).markers - {Pending(t), Complete(t)} == db.markers - {Pending(t), Complete(t)};
  }

  // A marker of `t` moves no other table: the marker table comes last, and is untouched until then.
  lemma OthersUnmoved(db: Database, t: Table, u: Table, k: Key, hash: Hash, now: int)
    requires Inv(db) && u != t && (k == Pending(t) || k == Complete(t)) && StageOf(db, t) != Done
    ensures StageOf(WithMarker(db, k, hash, now), u) == StageOf(db, u)
  {
  }

  lemma ConvertKeepsInv(db: Database, t: Table)
    requires Inv(db) && StageOf(db, t) == Proved
    ensures Inv(Converted(db, t)) && OthersSame(db, Converted(db, t), t) && StageOf(Converted(db, t), t) == Switched
    ensures ProofOf(Converted(db, t), t) == ProofOf(db, t)
  {
    var after := Converted(db, t);
    forall u: Table | u != t ensures StageOf(after, u) == StageOf(db, u) {}
  }

  lemma CompleteKeepsInv(db: Database, t: Table, now: int)
    requires Inv(db) && StageOf(db, t) == Switched
    ensures var after := WithMarker(db, Complete(t), CompleteHash(t, PendingHash(t, ProofOf(db, t))), now);
      Inv(after) && OthersSame(db, after, t) && StageOf(after, t) == Done
  {
    var hash := CompleteHash(t, PendingHash(t, ProofOf(db, t)));
    var after := WithMarker(db, Complete(t), hash, now);
    forall u: Table | u != t ensures StageOf(after, u) == StageOf(db, u) {
      OthersUnmoved(db, t, u, Complete(t), hash, now);
    }
  }

  lemma InvAllows(db: Database)
    requires IsDatabase(db)
    ensures Inv(db) ==> forall t: Table :: db.collations[t] != Unknown
  {
    if Inv(db) {
      forall t: Table ensures db.collations[t] != Unknown {
        assert StageOf(db, t) != Broken;
      }
    }
  }

  // A legacy schema that no earlier run has touched.
  predicate IsFresh(db: Database) {
    IsDatabase(db) && forall t: Table :: db.collations[t] == Legacy && Pending(t) !in db.markers && Complete(t) !in db.markers
  }

  lemma FreshIsInv(db: Database)
    requires IsFresh(db)
    ensures Inv(db)
  {
  }

  /* ---------- the migration ---------- */

  datatype Trouble = Interrupted | SchemaError

  datatype Status = Fine | Failed(why: Trouble) {
    predicate IsFailure() { Failed? }
    function PropagateFailure(): Status { this }
  }

  // A completion marker appears only over a pending proof that is the present one.
  ghost predicate MarkerRule(before: Database, after: Database)
    requires IsDatabase(before)
  {
    forall t: Table :: Complete(t) in after.markers && Complete(t) !in before.markers ==>
      && ReadMarker(before, Pending(t)) == Some(PendingHash(t, ProofOf(before, t)))
      && after.markers[Complete(t)].hash == CompleteHash(t, PendingHash(t, ProofOf(before, t)))
      && before.collations[t] == Target
  }

  // The databases that the transactions of all runs left, each by the rule from the one before.
  ghost predicate Rightful(steps: seq<Database>, db: Database) {
    && steps != [] && steps[|steps| - 1] == db
    && (forall i | 0 <= i < |steps| :: IsDatabase(steps[i]))
    && forall i | 0 < i < |steps| :: MarkerRule(steps[i - 1], steps[i])
  }

  lemma OneMoreStep(steps: seq<Database>, db: Database, after: Database)
    requires Rightful(steps, db) && IsDatabase(after) && MarkerRule(db, after)
    ensures Rightful(steps + [after], after)
  {
  }

  // A completion marker appeared over this database's own proof.
  ghost predicate ProvedAt(db: Database, t: Table, hash: Hash) {
    && IsDatabase(db) && db.collations[t] == Target
    && ReadMarker(db, Pending(t)) == Some(PendingHash(t, ProofOf(db, t)))
    && hash == CompleteHash(t, PendingHash(t, ProofOf(db, t)))
  }

  /** Whatever the runs were, a completion marker that was not there at first was inserted over a
      pending proof equal to the proof of the moment. */
  lemma {:induction false} MarkerWasProved(steps: seq<Database>, db: Database, t: Table)
    requires Rightful(steps, db) && Complete(t) in db.markers && Complete(t) !in steps[0].markers
    ensures exists i :: 0 < i < |steps| && Complete(t) in steps[i].markers && ProvedAt(steps[i - 1], t, steps[i].markers[Complete(t)].hash)
  {
    var n := |steps| - 1;
    if Complete(t) in steps[n - 1].markers {
      var front := steps[..n];
      MarkerWasProved(front, steps[n - 1], t);
      var i :| 0 < i < |front| && Complete(t) in front[i].markers && ProvedAt(front[i - 1], t, front[i].markers[Complete(t)].hash);
      assert ProvedAt(steps[i - 1], t, steps[i].markers[Complete(t)].hash);
    } else {
      assert MarkerRule(steps[n - 1], steps[n]);
      assert ProvedAt(steps[n - 1], t, steps[n].markers[Complete(t)].hash);
    }
  }

  class Server {
    var db: Database
    ghost var steps: seq<Database>
    var fate: seq<bool>  // whether the process dies before each commit
    var clock: int

    constructor (db: Database)
      ensures this.db == db && fate == [] && steps == [db]
    {
      this.db, steps, fate, clock := db, [db], [], 0;
    }

    method Commit() returns (r: Status)
      modifies this`fate, this`clock
      ensures r in {Fine, Failed(Interrupted)}
      ensures old(fate) == [] ==> r.Fine? && fate == []
    {
      clock := clock + 1;
      r := Fine;
      if fate != [] {
        r := if fate[0] then Failed(Interrupted) else Fine;
        fate := fate[1..];
      }
    }

    predicate SchemaAllowed()
      requires IsDatabase(db)
      reads this
    {
      forall t: Table :: db.collations[t] != Unknown
    }

    /** The first transaction on a table: record the proof, or see that it is already converted.
        `proof` is given when the conversion is still to be done. */
    method RecordProof(t: Table) returns (r: Status, proof: Option<Proof>)
      requires IsDatabase(db)
      modifies this
      ensures IsDatabase(db) && SameData(old(db), db) && MarkerRule(old(db), db) && db.collations == old(db.collations)
      ensures r.Failed? ==> db == old(db)
      ensures Rightful(old(steps), old(db)) ==> Rightful(steps, db) && old(steps) <= steps
      ensures r.Fine? && proof.Some? ==> StageOf(db, t) == Proved && proof.value == ProofOf(db, t)
      ensures r.Fine? && proof.None? ==> StageOf(db, t) == Done
      ensures StageOf(old(db), t) == Done ==> db == old(db) && proof.None?
      ensures Inv(old(db)) && Earlier(old(db), t) ==> Inv(db) && OthersSame(old(db), db, t) && (r.Failed? ==> r.why == Interrupted)
      ensures old(fate) == [] ==> fate == [] && (r.Failed? ==> r.why == SchemaError)
    {
      proof := None;
      InvAllows(db);
      assert Inv(db) ==> StageOf(db, t) != Broken;
      if !SchemaAllowed() {
        return Failed(SchemaError), None;
      }
      var current := ProofOf(db, t);
      var pendingHash := PendingHash(t, current);
      var pending, complete := ReadMarker(db, Pending(t)), ReadMarker(db, Complete(t));
      if complete.Some? && (pending.None? || complete.value != CompleteHash(t, pending.value)) {
        return Failed(SchemaError), None;
      }
      if db.collations[t] == Target {
        r := CompleteConverted(t);
        return;
      }
      if complete.Some? || (pending.Some? && pending.value != pendingHash) {
        return Failed(SchemaError), None;
      }
      if pending.None? {
        :- Commit();
        OwnMarkerLeavesProof(db, t, Pending(t), pendingHash, clock);
        if Inv(db) && Earlier(db, t) {
          PendingKeepsInv(db, t, clock);
        }
        db := WithMarker(db, Pending(t), pendingHash, clock);
        Took(old(db));
      }
      r, proof := Fine, Some(current);
    }

    // Its branch for a table that an earlier run has converted.
    method CompleteConverted(t: Table) returns (r: Status)
      requires IsDatabase(db) && db.collations[t] == Target
      requires ReadMarker(db, Complete(t)).Some? ==>
        ReadMarker(db, Pending(t)).Some? && ReadMarker(db, Complete(t)).value == CompleteHash(t, ReadMarker(db, Pending(t)).value)
      modifies this
      ensures IsDatabase(db) && SameData(old(db), db) && MarkerRule(old(db), db) && db.collations == old(db.collations)
      ensures r.Failed? ==> db == old(db)
      ensures Rightful(old(steps), old(db)) ==> Rightful(steps, db) && old(steps) <= steps
      ensures r.Fine? ==> StageOf(db, t) == Done
      ensures StageOf(old(db), t) == Done ==> db == old(db)
      ensures Inv(old(db)) ==> Inv(db) && OthersSame(old(db), db, t) && (r.Failed? ==> r.why == Interrupted)
      ensures old(fate) == [] ==> fate == [] && (r.Failed? ==> r.why == SchemaError)
    {
      var pendingHash := PendingHash(t, ProofOf(db, t));
      var pending, complete := ReadMarker(db, Pending(t)), ReadMarker(db, Complete(t));
      assert Inv(db) ==> StageOf(db, t) != Broken;
      if pending.None? {
        return Failed(SchemaError);
      }
      if complete.None? {
        if pending.value != pendingHash {
          return Failed(SchemaError);
        }
        :- Commit();
        if Inv(db) {
          CompleteKeepsInv(db, t, clock);
        }
        db := WithMarker(db, Complete(t), CompleteHash(t, pendingHash), clock);
        Took(old(db));
      }
      r := Fine;
    }

    /** The second transaction: the conversion itself, over an unchanged proof. */
    method Convert(t: Table, proof: Proof) returns (r: Status)
      requires IsDatabase(db)
      modifies this
      ensures r.Fine? ==> StageOf(old(db), t) == Proved && db == Converted(old(db), t)
      ensures r.Failed? ==> db == old(db)
      ensures Rightful(old(steps), old(db)) ==> Rightful(steps, db) && old(steps) <= steps
      ensures Inv(old(db)) && StageOf(old(db), t) == Proved && ProofOf(old(db), t) == proof ==>
        (r.Failed? ==> r.why == Interrupted)
      ensures old(fate) == [] ==> fate == [] && (r.Failed? ==> r.why == SchemaError)
    {
      InvAllows(db);
      if !SchemaAllowed() || db.collations[t] != Legacy
         || ProofOf(db, t) != proof || ReadMarker(db, Pending(t)) != Some(PendingHash(t, proof))
         || ReadMarker(db, Complete(t)).Some? {
        return Failed(SchemaError);
      }
      :- Commit();
      db := Converted(db, t);
      Took(old(db));
      r := Fine;
    }

    /** The third transaction: the completion marker, over the proof that was recorded. */
    method Finish(t: Table, proof: Proof) returns (r: Status)
      requires IsDatabase(db)
      modifies this
      ensures IsDatabase(db) && SameData(old(db), db) && MarkerRule(old(db), db)
      ensures r.Fine? ==> StageOf(db, t) == Done
      ensures r.Failed? ==> db == old(db)
      ensures Rightful(old(steps), old(db)) ==> Rightful(steps, db) && old(steps) <= steps
      ensures Inv(old(db)) && StageOf(old(db), t) == Switched && ProofOf(old(db), t) == proof ==>
        Inv(db) && OthersSame(old(db), db, t) && (r.Failed? ==> r.why == Interrupted)
      ensures old(fate) == [] ==> fate == [] && (r.Failed? ==> r.why == SchemaError)
    {
      InvAllows(db);
      if !SchemaAllowed() || db.collations[t] != Target
         || ProofOf(db, t) != proof || ReadMarker(db, Pending(t)) != Some(PendingHash(t, proof)) {
        return Failed(SchemaError);
      }
      var hash := CompleteHash(t, PendingHash(t, proof));
      var complete := ReadMarker(db, Complete(t));
      if complete.Some? {
        return if complete.value == hash then Fine else Failed(SchemaError);
      }
      :- Commit();
      if Inv(db) {
        CompleteKeepsInv(db, t, clock);
      }
      db := WithMarker(db, Complete(t), hash, clock);
      Took(old(db));
      r := Fine;
    }

    // A transaction has been committed.
    ghost method Took(before: Database)
      requires IsDatabase(before) && IsDatabase(db)
      modifies this`steps
      ensures steps == old(steps) + [db]
      ensures Rightful(old(steps), before) && MarkerRule(before, db) ==> Rightful(steps, db)
    {
      if Rightful(steps, before) && MarkerRule(before, db) {
        OneMoreStep(steps, before, db);
      }
      steps := steps + [db];
    }

    method MigrateTable(t: Table) returns (r: Status)
      requires Inv(db) && Earlier(db, t) && Rightful(steps, db)
      modifies this
      ensures Rightful(steps, db) && old(steps) <= steps
      ensures Inv(db) && OthersSame(old(db), db, t) && SameData(old(db), db)
      ensures r.Fine? ==> StageOf(db, t) == Done
      ensures StageOf(old(db), t) == Done ==> db == old(db)
      ensures r.Failed? ==> r.why == Interrupted
      ensures old(fate) == [] ==> r.Fine? && fate == []
    {
      var proof :- RecordProof(t);
      if proof.Some? {
        ConvertKeepsInv(db, t);
        :- Convert(t, proof.value);
        :- Finish(t, proof.value);
      }
      r := Fine;
    }

    /** `privileged_migrate_legacy_attestation_collation`, with every other writer kept out. From
        any point at which an earlier run was cut off, an uninterrupted run completes, no row and
        no marker of another migration ever changes, and every completion marker is rightful. */
    method Migrate() returns (r: Status)
      requires Inv(db) && Rightful(steps, db)
      modifies this
      ensures Rightful(steps, db) && old(steps) <= steps
      ensures Inv(db) && SameData(old(db), db)
      ensures r.Fine? ==> forall t: Table :: StageOf(db, t) == Done && db.collations[t] == Target
      ensures AllDone(old(db)) ==> db == old(db)
      ensures r.Failed? ==> r.why == Interrupted
      ensures old(fate) == [] ==> r.Fine? && fate == []
    {
      InvAllows(db);
      if !SchemaAllowed() {
        return Failed(SchemaError);
      }
      var i := 0;
      while i < |TABLES|
        invariant 0 <= i <= |TABLES|
        invariant Inv(db) && SameData(old(db), db) && Rightful(steps, db) && old(steps) <= steps
        invariant forall t: Table :: Rank(t) < i ==> StageOf(db, t) == Done
        invariant old(fate) == [] ==> fate == []
        invariant AllDone(old(db)) ==> db == old(db)
      {
        assert Rank(TABLES[i]) == i;
        :- MigrateTable(TABLES[i]);
        i := i + 1;
      }
      forall t: Table ensures StageOf(db, t) == Done && db.collations[t] == Target {
        assert Rank(t) < i;
      }
      r := if exists t: Table :: db.collations[t] != Target then Failed(SchemaError) else Fine;
    }

    /** Any number of runs that die wherever they like, then one that does not, on a fresh schema or
        one that such runs have left. */
    method MigrateAfterCrashes(crashes: seq<seq<bool>>) returns (r: Status)
      requires (IsFresh(db) || Inv(db)) && Rightful(steps, db)
      modifies this
      ensures Rightful(steps, db) && old(steps) <= steps
      ensures r.Fine? && SameData(old(db), db)
      ensures Inv(db) && forall t: Table :: StageOf(db, t) == Done && db.collations[t] == Target
    {
      if IsFresh(db) {
        FreshIsInv(db);
      }
      var i := 0;
      while i < |crashes|
        invariant 0 <= i <= |crashes|
        invariant Inv(db) && SameData(old(db), db) && Rightful(steps, db) && old(steps) <= steps
      {
        fate := crashes[i];
        var _ := Migrate();
        i := i + 1;
      }
      fate := [];
      r := Migrate();
    }
  }
}
