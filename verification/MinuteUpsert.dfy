/** The minute-bar writer: rows are looked up, updated and inserted in bulk, one chunk at a
    time, instead of one row at a time (acquisition/store.py). */
module MinuteUpsert {
  import opened Basics

  const CHUNK_ROWS := 100

  type Column = nat

  datatype Cell = Null | Known(value: int)

  // The columns that are given a value; the others are left to their default.
  datatype Row = Row(cells: map<Column, Cell>)

  datatype Key = Key(cells: seq<Cell>)

  // The columns of one row over those of another.
  function Over(previous: Row, values: Row): Row {
    Row(previous.cells + values.cells)
  }

  // Rows by business key. The index need not be unique: a key may hold several rows.
  type Table = map<Key, seq<Row>>

  datatype Schema = Schema(keyColumns: seq<Column>, required: set<Column>, id: Column, defaults: Row)

  function Get(r: Row, c: Column): Cell {
    if c in r.cells then r.cells[c] else Null
  }

  function KeyOf(s: Schema, r: Row): Key {
    Key(seq(|s.keyColumns|, i requires 0 <= i < |s.keyColumns| => Get(r, s.keyColumns[i])))
  }

  predicate HasKey(s: Schema, r: Row) {
    forall c <- s.keyColumns :: Get(r, c) != Null
  }

  function Rows(t: Table, k: Key): seq<Row> {
    if k in t then t[k] else []
  }

  // A stored row is filed under its own key.
  predicate WellKeyed(s: Schema, t: Table) {
    forall k <- t :: forall r <- t[k] :: KeyOf(s, r) == k
  }

  // Required metadata that is already known is not overwritten with nothing.
  function KeepRequired(s: Schema, values: Row, previous: Row): Row {
    Row(map c | c in values.cells && !(c in s.required && values.cells[c] == Null && Get(previous, c) != Null) :: values.cells[c])
  }

  predicate Honest(s: Schema, effective: Row) {
    forall c <- s.required :: Get(effective, c) != Null
  }

  // Neither the id nor the business key of a stored row is ever updated.
  function Changes(s: Schema, values: Row): Row {
    Row(map c | c in values.cells && c !in s.keyColumns && c != s.id :: values.cells[c])
  }

  datatype Plan = Insert(values: Row) | Update(changed: Row) | Refuse

  // What to write for one row, given the rows its key holds.
  function PlanRow(s: Schema, existing: seq<Row>, values: Row): Plan {
    if |existing| > 1 then Refuse
    else if existing == [] then if Honest(s, values) then Insert(values) else Refuse
    else
      var kept := KeepRequired(s, values, existing[0]);
      if Honest(s, Over(existing[0], kept)) then Update(Changes(s, kept)) else Refuse
  }

  function Stored(s: Schema, values: Row): Row { Over(s.defaults, values) }

  // The rows a key holds afterwards.
  function Written(s: Schema, existing: seq<Row>, plan: Plan): seq<Row>
    requires plan.Update? ==> existing != []
  {
    match plan
    case Insert(values) => [Stored(s, values)]
    case Update(changed) => [Over(existing[0], changed)]
    case Refuse => existing
  }

  function UpsertOne(s: Schema, t: Table, values: Row): Option<Table> {
    var k := KeyOf(s, values);
    var plan := PlanRow(s, Rows(t, k), values);
    if !HasKey(s, values) || plan.Refuse? then None
    else Some(t[k := Written(s, Rows(t, k), plan)])
  }

  /** The simple form: `_upsert_row` for each row in turn; one refusal undoes everything. */
  function UpsertEach(s: Schema, t: Table, rows: seq<Row>): Option<Table> {
    if rows == [] then Some(t)
    else match UpsertEach(s, t, rows[..|rows| - 1])
      case None => None
      case Some(done) => UpsertOne(s, done, rows[|rows| - 1])
  }

  /** Two rows have one key exactly if they agree in every key column. */
  lemma KeyTells(s: Schema, a: Row, b: Row)
    ensures KeyOf(s, a) == KeyOf(s, b) <==> forall c <- s.keyColumns :: Get(a, c) == Get(b, c)
  {
    if KeyOf(s, a) == KeyOf(s, b) {
      forall c <- s.keyColumns ensures Get(a, c) == Get(b, c) {
        var i :| 0 <= i < |s.keyColumns| && s.keyColumns[i] == c;
        assert KeyOf(s, a).cells[i] == KeyOf(s, b).cells[i];
      }
    }
  }

  /* ---------- column by column ---------- */

  // The incoming row settles this column of a stored row: it names it, and does not put nothing in
  // place of required metadata that is known. Keys and the id are never touched.
  predicate Settles(s: Schema, stored: Row, row: Row, c: Column) {
    && c in row.cells && c !in s.keyColumns && c != s.id
    && !(c in s.required && row.cells[c] == Null && c in stored.cells && stored.cells[c] != Null)
  }

  // A cell that is there and known.
  predicate HasKnown(r: Row, c: Column) {
    c in r.cells && r.cells[c] != Null
  }

  /** What a row makes of the rows its key holds: over one stored row, column by column, either the
      incoming cell or the stored one; over none, a single row with its cells and the defaults. */
  ghost predicate TakesCells(s: Schema, existing: seq<Row>, row: Row, now: seq<Row>) {
    && |existing| <= 1 && |now| == 1
    && forall c: Column ::
         if existing == [] then
           && (c in row.cells ==> c in now[0].cells && now[0].cells[c] == row.cells[c])
           && (c !in row.cells ==> (c in now[0].cells <==> c in s.defaults.cells))
           && (c !in row.cells && c in s.defaults.cells ==> now[0].cells[c] == s.defaults.cells[c])
         else if Settles(s, existing[0], row, c) then c in now[0].cells && now[0].cells[c] == row.cells[c]
         else
           && (c in now[0].cells <==> c in existing[0].cells)
           && (c in now[0].cells ==> now[0].cells[c] == existing[0].cells[c])
  }

  // A row is taken over what its key holds: it names its key, no two rows stand there, and every
  // required column is known from it or from the stored row.
  predicate Acceptable(s: Schema, existing: seq<Row>, row: Row) {
    && (forall c <- s.keyColumns :: HasKnown(row, c)) && |existing| <= 1
    && forall c <- s.required :: HasKnown(row, c) || (existing != [] && HasKnown(existing[0], c))
  }

  // Every row of a batch has been taken over what its key held, and no other key has moved.
  ghost predicate AllTaken(s: Schema, t: Table, rows: seq<Row>, after: Table) {
    && (forall r <- rows :: TakesCells(s, Rows(t, KeyOf(s, r)), r, Rows(after, KeyOf(s, r))))
    && forall k :: (forall r <- rows :: KeyOf(s, r) != k) ==> Rows(after, k) == Rows(t, k)
  }

  lemma PlanTakesCells(s: Schema, existing: seq<Row>, row: Row)
    ensures HasKey(s, row) && !PlanRow(s, existing, row).Refuse? <==> Acceptable(s, existing, row)
    ensures HasKey(s, row) && !PlanRow(s, existing, row).Refuse? ==>
      TakesCells(s, existing, row, Written(s, existing, PlanRow(s, existing, row)))
  {
    assert HasKey(s, row) <==> forall c <- s.keyColumns :: HasKnown(row, c);
    if |existing| == 1 {
      var kept := KeepRequired(s, row, existing[0]);
      forall c <- s.required
        ensures Get(Over(existing[0], kept), c) != Null <==> HasKnown(row, c) || HasKnown(existing[0], c)
      {
        assert c in kept.cells ==> c in row.cells;
      }
    }
  }

  predicate DistinctKeys(s: Schema, rows: seq<Row>) {
    && (forall r <- rows :: HasKey(s, r))
    && forall i, j :: 0 <= i < j < |rows| ==> KeyOf(s, rows[i]) != KeyOf(s, rows[j])
  }

  /** `_upsert_row`. The two rows fetched at most are enough to notice a duplicate. */
  method UpsertRow(s: Schema, t: Table, row: Row) returns (r: Option<Table>)
    ensures r == UpsertOne(s, t, row)
    ensures r.Some? <==> Acceptable(s, Rows(t, KeyOf(s, row)), row)
    ensures r.Some? ==> AllTaken(s, t, [row], r.value)
  {
    OneIsTaken(s, t, row);
    if exists c <- s.keyColumns :: Get(row, c) == Null {
      return None;
    }
    var key := KeyOf(s, row);
    var matches := if |Rows(t, key)| > 2 then Rows(t, key)[..2] else Rows(t, key);
    if |matches| > 1 {
      return None;
    }
    if matches == [] {
      return if Honest(s, row) then Some(t[key := [Stored(s, row)]]) else None;
    }
    var values := KeepRequired(s, row, matches[0]);
    if !Honest(s, Over(matches[0], values)) {
      return None;
    }
    r := Some(t[key := [Over(matches[0], Changes(s, values))]]);
  }

  /* ---------- what the simple form amounts to, for distinct keys ---------- */

  function PlanFor(s: Schema, t: Table, row: Row): Plan {
    PlanRow(s, Rows(t, KeyOf(s, row)), row)
  }

  predicate Accepted(s: Schema, t: Table, rows: seq<Row>) {
    forall r <- rows :: !PlanFor(s, t, r).Refuse?
  }

  predicate Touches(s: Schema, rows: seq<Row>, k: Key) {
    exists r <- rows :: KeyOf(s, r) == k
  }

  // `after` is `t` with each row's plan, made on `t`, carried out.
  predicate CarriedOut(s: Schema, t: Table, rows: seq<Row>, after: Table) {
    && (forall r <- rows ::
          var k := KeyOf(s, r);
          k in after && after[k] == Written(s, Rows(t, k), PlanFor(s, t, r)))
    && (forall k <- t :: k in after)
    && (forall k <- after :: Touches(s, rows, k) || (k in t && after[k] == t[k]))
  }

  lemma CarriedOutIsUnique(s: Schema, t: Table, rows: seq<Row>, a: Table, b: Table)
    requires CarriedOut(s, t, rows, a) && CarriedOut(s, t, rows, b)
    ensures a == b
  {
    forall k ensures k in a <==> k in b {}
    forall k <- a ensures a[k] == b[k] {}
  }

  lemma OneMore(s: Schema, t: Table, front: seq<Row>, last: Row, done: Table)
    requires CarriedOut(s, t, front, done) && !Touches(s, front, KeyOf(s, last)) && HasKey(s, last)
    ensures UpsertOne(s, done, last).Some? <==> !PlanFor(s, t, last).Refuse?
    ensures UpsertOne(s, done, last).Some? ==> CarriedOut(s, t, front + [last], UpsertOne(s, done, last).value)
  {
    var k := KeyOf(s, last);
    assert Rows(done, k) == Rows(t, k);
    var rows := front + [last];
    assert last in rows && forall r <- front :: r in rows;
    if UpsertOne(s, done, last).Some? {
      var after := UpsertOne(s, done, last).value;
      forall r <- rows
        ensures var h := KeyOf(s, r); h in after && after[h] == Written(s, Rows(t, h), PlanFor(s, t, r))
      {
        assert r in front || r == last;
      }
      assert Touches(s, rows, k);
      assert forall h :: Touches(s, front, h) ==> Touches(s, rows, h);
    }
  }

  // The last of rows with distinct keys.
  lemma LastApart(s: Schema, t: Table, rows: seq<Row>)
    requires DistinctKeys(s, rows) && rows != []
    ensures var front, last := rows[..|rows| - 1], rows[|rows| - 1];
      && rows == front + [last] && HasKey(s, last)
      && DistinctKeys(s, front) && !Touches(s, front, KeyOf(s, last))
      && (Accepted(s, t, rows) <==> Accepted(s, t, front) && !PlanFor(s, t, last).Refuse?)
  {
    var front, last := rows[..|rows| - 1], rows[|rows| - 1];
    assert rows == front + [last];
    assert last in rows && forall r <- front :: r in rows;
    assert forall r <- rows :: r in front || r == last;
  }

  lemma {:induction false} EachIsCarriedOut(s: Schema, t: Table, rows: seq<Row>)
    requires DistinctKeys(s, rows)
    ensures UpsertEach(s, t, rows).Some? <==> Accepted(s, t, rows)
    ensures UpsertEach(s, t, rows).Some? ==> CarriedOut(s, t, rows, UpsertEach(s, t, rows).value)
  {
    if rows != [] {
      var front, last := rows[..|rows| - 1], rows[|rows| - 1];
      LastApart(s, t, rows);
      EachIsCarriedOut(s, t, front);
      if UpsertEach(s, t, front).Some? {
        OneMore(s, t, front, last, UpsertEach(s, t, front).value);
      }
    }
  }

  /** For distinct keys, writing row by row succeeds exactly when every row is acceptable over what its
      key holds, and then every row has been taken, column by column, and no other key has moved. */
  lemma EachIsTaken(s: Schema, t: Table, rows: seq<Row>)
    requires DistinctKeys(s, rows)
    ensures UpsertEach(s, t, rows).Some? <==> forall r <- rows :: Acceptable(s, Rows(t, KeyOf(s, r)), r)
    ensures UpsertEach(s, t, rows).Some? ==> AllTaken(s, t, rows, UpsertEach(s, t, rows).value)
  {
    EachIsCarriedOut(s, t, rows);
    forall r <- rows
      ensures !PlanFor(s, t, r).Refuse? <==> Acceptable(s, Rows(t, KeyOf(s, r)), r)
      ensures !PlanFor(s, t, r).Refuse? ==>
        TakesCells(s, Rows(t, KeyOf(s, r)), r, Written(s, Rows(t, KeyOf(s, r)), PlanFor(s, t, r)))
    {
      PlanTakesCells(s, Rows(t, KeyOf(s, r)), r);
    }
    if UpsertEach(s, t, rows).Some? {
      var after := UpsertEach(s, t, rows).value;
      forall k | forall r <- rows :: KeyOf(s, r) != k ensures Rows(after, k) == Rows(t, k) {
        assert !Touches(s, rows, k);
      }
    }
  }

  lemma OneIsTaken(s: Schema, t: Table, row: Row)
    ensures UpsertOne(s, t, row).Some? <==> Acceptable(s, Rows(t, KeyOf(s, row)), row)
    ensures UpsertOne(s, t, row).Some? ==> AllTaken(s, t, [row], UpsertOne(s, t, row).value)
  {
    PlanTakesCells(s, Rows(t, KeyOf(s, row)), row);
    assert row in [row];
  }

  /** Order does not matter: any order in which the same rows are written gives the same table. */
  lemma EachInAnyOrder(s: Schema, t: Table, rows: seq<Row>, others: seq<Row>)
    requires DistinctKeys(s, rows) && DistinctKeys(s, others)
    requires forall r :: r in rows <==> r in others
    ensures UpsertEach(s, t, rows) == UpsertEach(s, t, others)
  {
    EachIsCarriedOut(s, t, rows);
    EachIsCarriedOut(s, t, others);
    if Accepted(s, t, rows) {
      var a, b := UpsertEach(s, t, rows).value, UpsertEach(s, t, others).value;
      assert CarriedOut(s, t, rows, b);
      CarriedOutIsUnique(s, t, rows, a, b);
    }
  }

  /* ---------- writing the same rows again ---------- */

  // The table already is what writing this row makes of it.
  predicate Holds(s: Schema, t: Table, r: Row) {
    UpsertOne(s, t, r) == Some(t)
  }

  predicate AllHold(s: Schema, t: Table, rows: seq<Row>) {
    forall r <- rows :: Holds(s, t, r)
  }

  // A row planned again on what its first plan left changes nothing more.
  lemma PlanAgain(s: Schema, existing: seq<Row>, values: Row)
    requires !PlanRow(s, existing, values).Refuse?
    ensures var once := Written(s, existing, PlanRow(s, existing, values));
      PlanRow(s, once, values).Update? && Written(s, once, PlanRow(s, once, values)) == once
  {
    var once := Written(s, existing, PlanRow(s, existing, values));
    if existing == [] {
      assert KeepRequired(s, values, once[0]).cells == values.cells;
      assert Over(once[0], values).cells == once[0].cells;
      assert Over(once[0], Changes(s, values)).cells == once[0].cells;
    } else {
      var kept := KeepRequired(s, values, existing[0]);
      assert KeepRequired(s, values, once[0]).cells == kept.cells;
      assert Over(once[0], kept).cells == Over(existing[0], kept).cells;
      assert Over(once[0], Changes(s, kept)).cells == once[0].cells;
    }
  }

  lemma OneHolds(s: Schema, t: Table, r: Row)
    requires UpsertOne(s, t, r).Some?
    ensures Holds(s, UpsertOne(s, t, r).value, r)
  {
    PlanAgain(s, Rows(t, KeyOf(s, r)), r);
    var after, k := UpsertOne(s, t, r).value, KeyOf(s, r);
    assert after[k := after[k]] == after;
  }

  lemma OtherHolds(s: Schema, t: Table, r: Row, other: Row)
    requires UpsertOne(s, t, other).Some? && KeyOf(s, r) != KeyOf(s, other) && Holds(s, t, r)
    ensures Holds(s, UpsertOne(s, t, other).value, r)
  {
    var after, k := UpsertOne(s, t, other).value, KeyOf(s, r);
    assert k in t && t[k] == Written(s, Rows(t, k), PlanRow(s, Rows(t, k), r));
    assert Rows(after, k) == Rows(t, k);
    assert after[k := after[k]] == after;
  }

  // Rows under other keys go on holding while these are written.
  lemma {:induction false} OthersHold(s: Schema, t: Table, r: Row, rows: seq<Row>)
    requires UpsertEach(s, t, rows).Some? && !Touches(s, rows, KeyOf(s, r)) && Holds(s, t, r)
    ensures Holds(s, UpsertEach(s, t, rows).value, r)
  {
    if rows != [] {
      var front, last := rows[..|rows| - 1], rows[|rows| - 1];
      assert last in rows && forall q <- front :: q in rows;
      OthersHold(s, t, r, front);
      OtherHolds(s, UpsertEach(s, t, front).value, r, last);
    }
  }

  lemma {:induction false} EachHolds(s: Schema, t: Table, rows: seq<Row>)
    requires DistinctKeys(s, rows) && UpsertEach(s, t, rows).Some?
    ensures AllHold(s, UpsertEach(s, t, rows).value, rows)
  {
    if rows != [] {
      var front, last := rows[..|rows| - 1], rows[|rows| - 1];
      assert rows == front + [last];
      EachHolds(s, t, front);
      var done := UpsertEach(s, t, front).value;
      OneHolds(s, done, last);
      forall r <- front ensures Holds(s, UpsertEach(s, t, rows).value, r) {
        var i :| 0 <= i < |front| && front[i] == r;
        assert rows[i] == r;
        OtherHolds(s, done, r, last);
      }
    }
  }

  // Writing these rows after others that hold.
  lemma HoldOn(s: Schema, t: Table, earlier: seq<Row>, rows: seq<Row>)
    requires AllHold(s, t, earlier) && DistinctKeys(s, rows) && UpsertEach(s, t, rows).Some?
    requires forall r <- earlier :: !Touches(s, rows, KeyOf(s, r))
    ensures AllHold(s, UpsertEach(s, t, rows).value, earlier + rows)
  {
    EachHolds(s, t, rows);
    forall r <- earlier ensures Holds(s, UpsertEach(s, t, rows).value, r) {
      OthersHold(s, t, r, rows);
    }
  }

  /** Rows that hold may be written again: nothing changes. */
  lemma {:induction false} HoldingStays(s: Schema, t: Table, rows: seq<Row>)
    requires AllHold(s, t, rows)
    ensures UpsertEach(s, t, rows) == Some(t)
  {
    if rows != [] {
      var front, last := rows[..|rows| - 1], rows[|rows| - 1];
      assert last in rows && forall q <- front :: q in rows;
      HoldingStays(s, t, front);
    }
  }

  /** Writing rows with distinct keys a second time changes nothing. */
  lemma EachTwice(s: Schema, t: Table, rows: seq<Row>)
    requires DistinctKeys(s, rows) && UpsertEach(s, t, rows).Some?
    ensures UpsertEach(s, UpsertEach(s, t, rows).value, rows) == UpsertEach(s, t, rows)
  {
    EachHolds(s, t, rows);
    HoldingStays(s, UpsertEach(s, t, rows).value, rows);
  }
}
