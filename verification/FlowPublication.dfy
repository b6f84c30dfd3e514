/** Whole-date publication of the daily capital flow, and the planning that follows it
    (acquisition/store.py `publish_capital_flow_day`, acquisition/plan.py `plan_units`). */
module FlowPublication {
  import opened Basics

  // A security: the bare code that the table stores, and its exchange.
  datatype Code = Code(base: int, exchange: int)

  // `source` and `batch` are filled in when the staged row leaves them out.
  datatype FlowRow = FlowRow(code: int, date: int, source: Option<int>, batch: Option<int>, content: int, complete: bool)

  datatype Status = Running | Staged | Complete | NoData | Error

  // The progress of one security on one date; `row` is the staged row, if its detail has one.
  datatype Progress = Progress(status: Status, request: int, row: Option<FlowRow>, nextRetry: Option<int>, published: bool)

  const PERSISTED_SOURCE := 1

  type Table = map<int, seq<FlowRow>>

  function Partition(t: Table, date: int): seq<FlowRow> {
    if date in t then t[date] else []
  }

  // `_row_values` of a staged row.
  function Values(staged: FlowRow, request: int): FlowRow {
    staged.(source := if staged.source.None? then Some(PERSISTED_SOURCE) else staged.source,
            batch := if staged.batch.None? then Some(request) else staged.batch)
  }

  function Inserted(t: Table, row: FlowRow): Table {
    t[row.date := Partition(t, row.date) + [row]]
  }

  function InsertedAll(t: Table, rows: seq<FlowRow>): Table {
    if rows == [] then t else Inserted(InsertedAll(t, rows[..|rows| - 1]), rows[|rows| - 1])
  }

  // The rows of one date, in order.
  function Dated(rows: seq<FlowRow>, date: int): seq<FlowRow> {
    if rows == [] then []
    else Dated(rows[..|rows| - 1], date) + if rows[|rows| - 1].date == date then [rows[|rows| - 1]] else []
  }

  lemma {:induction false} InsertedPartition(t: Table, rows: seq<FlowRow>, date: int)
    ensures Partition(InsertedAll(t, rows), date) == Partition(t, date) + Dated(rows, date)
  {
    if rows != [] {
      InsertedPartition(t, rows[..|rows| - 1], date);
    }
  }

  function Bases(codes: set<Code>): set<int> {
    set c | c in codes :: c.base
  }

  function CodesOf(rows: seq<FlowRow>): set<int> {
    set r | r in rows :: r.code
  }

  predicate DistinctCodes(rows: seq<FlowRow>) {
    forall i, j :: 0 <= i < j < |rows| ==> rows[i].code != rows[j].code
  }

  // The partition holds one row for each expected code, all from the one source, and no more.
  predicate Published(rows: seq<FlowRow>, expected: set<Code>) {
    && DistinctCodes(rows) && CodesOf(rows) == Bases(expected)
    && forall r <- rows :: r.source == Some(PERSISTED_SOURCE)
  }

  datatype Outcome = Raised | NotPublished(missing: nat) | Done(written: nat)

  // Every staged row is about its own security and date, as the normaliser left it.
  predicate StagedOwn(states: map<Code, Progress>, date: int) {
    forall c <- states :: states[c].status == Staged && states[c].row.Some? ==>
      states[c].row.value.code == c.base && states[c].row.value.date == date
  }

  predicate Present(states: map<Code, Progress>, c: Code) {
    c in states && states[c].status in {Staged, Complete}
  }

  // The state that one update statement leaves under every expected key.
  function Restaged(states: map<Code, Progress>, expected: set<Code>, now: int): map<Code, Progress> {
    map c | c in states ::
      if c in expected then states[c].(status := Error, nextRetry := Some(now)) else states[c]
  }

  function Finished(states: map<Code, Progress>, expected: set<Code>): map<Code, Progress> {
    map c | c in states ::
      if c in expected && states[c].status == Staged then states[c].(status := Complete, row := None, published := true) else states[c]
  }

  // `rows` are the staged rows of `codes`, in that order.
  predicate FromStages(states: map<Code, Progress>, codes: seq<Code>, rows: seq<FlowRow>) {
    && |codes| == |rows|
    && forall i :: 0 <= i < |codes| ==>
         codes[i] in states && states[codes[i]].row.Some? && rows[i] == Values(states[codes[i]].row.value, states[codes[i]].request)
         && rows[i].complete
  }

  /* ---------- planning afterwards ---------- */

  // `plan_units` for one security of the flow product, without refresh.
  predicate Planned(states: map<Code, Progress>, c: Code, now: int) {
    c !in states ||
      var s := states[c];
      && s.status != Running && s.status != Staged
      && !(s.nextRetry.Some? && s.nextRetry.value > now)
      && s.status != Complete && s.status != NoData
  }

  /** A mixture of old and new rows makes the whole expected date plannable again. */
  lemma RestagedIsPlannable(states: map<Code, Progress>, expected: set<Code>, now: int, later: int)
    requires now <= later
    ensures forall c <- expected :: Planned(Restaged(states, expected, now), c, later)
  {
  }

  lemma {:induction false} FewerBases(codes: set<Code>)
    ensures |Bases(codes)| <= |codes|
    ensures |Bases(codes)| == |codes| ==> forall a <- codes, b <- codes :: a.base == b.base ==> a == b
    decreases codes
  {
    if codes != {} {
      var c :| c in codes;
      FewerBases(codes - {c});
      if c.base in Bases(codes - {c}) {
        assert Bases(codes) == Bases(codes - {c});
      } else {
        assert Bases(codes) == Bases(codes - {c}) + {c.base};
      }
    }
  }

  lemma {:induction false} DistinctCount(rows: seq<FlowRow>)
    requires DistinctCodes(rows)
    ensures |CodesOf(rows)| == |rows|
  {
    if rows != [] {
      var front, last := rows[..|rows| - 1], rows[|rows| - 1];
      DistinctCount(front);
      assert rows == front + [last];
      assert CodesOf(rows) == CodesOf(front) + {last.code};
    }
  }

  lemma {:induction false} DatedSome(rows: seq<FlowRow>, date: int)
    ensures forall r :: r in Dated(rows, date) <==> r in rows && r.date == date
    ensures |Dated(rows, date)| <= |rows|
    ensures |Dated(rows, date)| == |rows| ==> Dated(rows, date) == rows && forall r <- rows :: r.date == date
    ensures DistinctCodes(rows) ==> DistinctCodes(Dated(rows, date))
  {
    if rows != [] {
      var front, last := rows[..|rows| - 1], rows[|rows| - 1];
      DatedSome(front, date);
      assert rows == front + [last];
    }
  }

  /** What has been read back settles the date: the rows published are distinct and cover the
      expected codes; and all the staged rows landed on the date exactly when no two expected
      securities share a bare code. */
  lemma ReadBack(rows: seq<FlowRow>, expected: set<Code>, date: int)
    requires DistinctCodes(rows) && |rows| == |expected| && CodesOf(Dated(rows, date)) == Bases(expected)
    ensures DistinctCodes(Dated(rows, date))
    ensures Dated(rows, date) == rows <==> |Bases(expected)| == |expected|
  {
    DatedSome(rows, date);
    DistinctCount(Dated(rows, date));
    DistinctCount(rows);
    FewerBases(expected);
  }

  /* ---------- the publisher ---------- */

  ghost predicate Lists(codes: seq<Code>, expected: set<Code>) {
    && (forall c :: c in codes <==> c in expected) && |codes| == |expected|
    && forall i, j :: 0 <= i < j < |codes| ==> codes[i] != codes[j]
  }

  // The row that a security contributes.
  function OwnRow(states: map<Code, Progress>, c: Code): FlowRow
    requires c in states && states[c].row.Some?
  {
    Values(states[c].row.value, states[c].request)
  }

  // The partition is made of the rows staged for the expected securities, one each.
  predicate OneGeneration(rows: seq<FlowRow>, states: map<Code, Progress>, expected: set<Code>) {
    && |rows| == |expected|
    && (forall c <- expected :: c in states && states[c].status == Staged && states[c].row.Some? && OwnRow(states, c) in rows)
    && (forall r <- rows :: IsSomeOwn(r, states, expected))
  }

  predicate IsSomeOwn(r: FlowRow, states: map<Code, Progress>, expected: set<Code>) {
    exists c <- expected :: c in states && states[c].row.Some? && OwnRow(states, c) == r
  }

  lemma StagesMakeGeneration(states: map<Code, Progress>, expected: set<Code>, codes: seq<Code>, rows: seq<FlowRow>)
    requires FromStages(states, codes, rows) && Lists(codes, expected)
    requires forall c <- expected :: c in states && states[c].status == Staged
    ensures OneGeneration(rows, states, expected)
  {
    EachOwn(states, expected, codes, rows);
  }

  // Rows that are about their own security have distinct codes only if no two share a bare code.
  lemma OwnRowsLand(states: map<Code, Progress>, expected: set<Code>, codes: seq<Code>, rows: seq<FlowRow>, date: int)
    requires FromStages(states, codes, rows) && Lists(codes, expected) && StagedOwn(states, date)
    requires forall c <- expected :: c in states && states[c].status == Staged
    ensures forall r <- rows :: r.date == date
    ensures CodesOf(rows) == Bases(expected)
  {
    forall i | 0 <= i < |rows| ensures rows[i].date == date && rows[i].code == codes[i].base {
      assert codes[i] in codes;
    }
    forall b <- Bases(expected) ensures b in CodesOf(rows) {
      var c :| c in expected && c.base == b;
      assert c in codes;
      var i :| 0 <= i < |codes| && codes[i] == c;
      assert rows[i] in rows;
    }
    forall b <- CodesOf(rows) ensures b in Bases(expected) {
      var i :| 0 <= i < |rows| && rows[i].code == b;
      assert codes[i] in codes;
    }
  }

  /** A published date: one row for each expected bare code; the rows are as many as the expected
      securities exactly when no two share a bare code, and then each comes from that security's
      own staged row and no other date moves. Staged rows that are about their own security are
      only ever published in this case. */
  ghost predicate Replaces(before: Table, states: map<Code, Progress>, date: int, expected: set<Code>, after: Table) {
    var rows := Partition(after, date);
    && Published(rows, expected)
    && (|rows| == |expected| <==> |Bases(expected)| == |expected|)
    && (|Bases(expected)| == |expected| ==>
          OneGeneration(rows, states, expected) && forall d :: d != date ==> Partition(after, d) == Partition(before, d))
    && (StagedOwn(states, date) ==> |Bases(expected)| == |expected|)
  }

  // A published row is the staged one: same code, date, content and columns, its own source and
  // batch if it names them, else the one source and the request that staged it.
  predicate IsStaged(row: FlowRow, staged: FlowRow, request: int) {
    && row.code == staged.code && row.date == staged.date && row.content == staged.content && row.complete == staged.complete
    && row.source == (if staged.source.Some? then staged.source else Some(PERSISTED_SOURCE))
    && row.batch == (if staged.batch.Some? then staged.batch else Some(request))
  }

  predicate HasStaged(rows: seq<FlowRow>, states: map<Code, Progress>, c: Code) {
    c in states && states[c].row.Some? && exists r <- rows :: IsStaged(r, states[c].row.value, states[c].request)
  }

  predicate IsSomeStaged(row: FlowRow, states: map<Code, Progress>, expected: set<Code>) {
    exists c <- expected :: c in states && states[c].row.Some? && IsStaged(row, states[c].row.value, states[c].request)
  }

  /** Every expected security's staged row stands in the partition, and nothing else does. */
  predicate StandsThere(rows: seq<FlowRow>, states: map<Code, Progress>, expected: set<Code>) {
    |rows| == |expected| && (forall c <- expected :: HasStaged(rows, states, c)) && forall r <- rows :: IsSomeStaged(r, states, expected)
  }

  lemma GenerationStands(rows: seq<FlowRow>, states: map<Code, Progress>, expected: set<Code>)
    requires OneGeneration(rows, states, expected)
    ensures StandsThere(rows, states, expected)
  {
    forall c <- expected ensures HasStaged(rows, states, c) {
      var r := OwnRow(states, c);
      assert r in rows && IsStaged(r, states[c].row.value, states[c].request);
    }
    forall r <- rows ensures IsSomeStaged(r, states, expected) {
      OwnerOf(rows, states, expected, r);
    }
  }

  lemma OwnerOf(rows: seq<FlowRow>, states: map<Code, Progress>, expected: set<Code>, r: FlowRow)
    requires OneGeneration(rows, states, expected) && r in rows
    ensures IsSomeStaged(r, states, expected)
  {
    var c :| c in expected && c in states && states[c].row.Some? && OwnRow(states, c) == r;
    assert IsStaged(r, states[c].row.value, states[c].request);
  }

  lemma {:induction false} NoneDated(rows: seq<FlowRow>, d: int)
    requires forall i :: 0 <= i < |rows| ==> rows[i].date != d
    ensures Dated(rows, d) == []
  {
    if rows != [] {
      NoneDated(rows[..|rows| - 1], d);
    }
  }

  lemma OtherDates(table: Table, rows: seq<FlowRow>, date: int, d: int)
    requires Dated(rows, date) == rows && d != date
    ensures Partition(InsertedAll(table - {date}, rows), d) == Partition(table, d)
  {
    InsertedPartition(table - {date}, rows, d);
    DatedSome(rows, date);
    assert forall i :: 0 <= i < |rows| ==> rows[i] in rows;
    NoneDated(rows, d);
  }

  /** A replaced date holds what was staged for it, field by field, if no two securities share a bare
      code. */
  lemma ReplacesStands(before: Table, states: map<Code, Progress>, date: int, expected: set<Code>, after: Table)
    requires Replaces(before, states, date, expected, after) && |Bases(expected)| == |expected|
    ensures StandsThere(Partition(after, date), states, expected)
  {
    GenerationStands(Partition(after, date), states, expected);
  }

  lemma ReplacementHolds(table: Table, states: map<Code, Progress>, date: int, expected: set<Code>, codes: seq<Code>, rows: seq<FlowRow>)
    requires Lists(codes, expected) && FromStages(states, codes, rows) && DistinctCodes(rows)
    requires forall c <- expected :: c in states && states[c].status == Staged
    requires CodesOf(Dated(rows, date)) == Bases(expected)
    requires forall r <- Dated(rows, date) :: r.source == Some(PERSISTED_SOURCE)
    ensures Replaces(table, states, date, expected, InsertedAll(table - {date}, rows))
  {
    var after := InsertedAll(table - {date}, rows);
    InsertedPartition(table - {date}, rows, date);
    assert Partition(after, date) == Dated(rows, date);
    ReadBack(rows, expected, date);
    StagesMakeGeneration(states, expected, codes, rows);
    DatedSome(rows, date);
    if Dated(rows, date) == rows {
      forall d | d != date ensures Partition(after, d) == Partition(table, d) {
        OtherDates(table, rows, date, d);
      }
    }
    if StagedOwn(states, date) {
      OwnRowsLand(states, expected, codes, rows, date);
      DistinctCount(rows);
    }
  }

  lemma SomethingMissing(found: set<Code>, expected: set<Code>)
    requires found <= expected && found != expected
    ensures |expected - found| > 0 && exists c <- expected :: c !in found
  {
    assert found + (expected - found) == expected;
    var c :| c in expected - found;
  }

  lemma OneMoreListed(codes: seq<Code>, expected: set<Code>, todo: set<Code>, c: Code)
    requires Lists(codes, expected - todo) && c in todo && todo <= expected
    ensures Lists(codes + [c], expected - (todo - {c}))
  {
    assert expected - (todo - {c}) == (expected - todo) + {c};
  }

  // Every expected security waits with a staged row.
  predicate AllStaged(states: map<Code, Progress>, expected: set<Code>) {
    forall c <- expected :: c in states && states[c].status == Staged
  }

  /** What the staged rows must be for the partition to be replaced: all there and complete, no two
      about one bare code; those on the date are about the expected codes and from the one source. */
  predicate Publishable(states: map<Code, Progress>, date: int, expected: set<Code>) {
    && AllStaged(states, expected)
    && (forall c <- expected :: states[c].row.Some? && OwnRow(states, c).complete)
    && (forall a <- expected, b <- expected :: a != b ==> OwnRow(states, a).code != OwnRow(states, b).code)
    && (set c | c in expected && OwnRow(states, c).date == date :: OwnRow(states, c).code) == Bases(expected)
    && forall c <- expected :: OwnRow(states, c).date == date ==> OwnRow(states, c).source == Some(PERSISTED_SOURCE)
  }

  // The checks on the collected rows are the conditions on the staged ones.
  lemma CollectedDecide(states: map<Code, Progress>, date: int, expected: set<Code>, codes: seq<Code>, rows: seq<FlowRow>)
    requires AllStaged(states, expected) && Lists(codes, expected) && FromStages(states, codes, rows)
    ensures Publishable(states, date, expected) <==>
      && DistinctCodes(rows) && CodesOf(Dated(rows, date)) == Bases(expected)
      && forall r <- Dated(rows, date) :: r.source == Some(PERSISTED_SOURCE)
  {
    DatedSome(rows, date);
    EachOwn(states, expected, codes, rows);
    DistinctOwn(states, expected, codes, rows);
    CodesOwn(states, date, expected, codes, rows);
  }

  // The collected rows are the securities' own rows.
  lemma EachOwn(states: map<Code, Progress>, expected: set<Code>, codes: seq<Code>, rows: seq<FlowRow>)
    requires Lists(codes, expected) && FromStages(states, codes, rows)
    ensures forall c <- expected :: c in states && states[c].row.Some? && OwnRow(states, c).complete && OwnRow(states, c) in rows
    ensures forall r <- rows :: IsSomeOwn(r, states, expected)
  {
    forall c <- expected ensures c in states && states[c].row.Some? && OwnRow(states, c).complete && OwnRow(states, c) in rows {
      assert c in codes;
      var i :| 0 <= i < |codes| && codes[i] == c;
      assert rows[i] in rows;
    }
    forall r <- rows ensures IsSomeOwn(r, states, expected) {
      var i :| 0 <= i < |rows| && rows[i] == r;
      assert codes[i] in codes;
    }
  }

  lemma CodesOwn(states: map<Code, Progress>, date: int, expected: set<Code>, codes: seq<Code>, rows: seq<FlowRow>)
    requires Lists(codes, expected) && FromStages(states, codes, rows)
    requires forall c <- expected :: c in states && states[c].row.Some?
    ensures (set c | c in expected && OwnRow(states, c).date == date :: OwnRow(states, c).code) == CodesOf(Dated(rows, date))
  {
    DatedSome(rows, date);
    EachOwn(states, expected, codes, rows);
    var own := set c | c in expected && OwnRow(states, c).date == date :: OwnRow(states, c).code;
    forall b <- CodesOf(Dated(rows, date)) ensures b in own {
      var r :| r in Dated(rows, date) && r.code == b;
      var c :| c in expected && OwnRow(states, c) == r;
    }
    forall b <- own ensures b in CodesOf(Dated(rows, date)) {
      var c :| c in expected && OwnRow(states, c).date == date && OwnRow(states, c).code == b;
      assert OwnRow(states, c) in Dated(rows, date);
    }
  }

  lemma DistinctOwn(states: map<Code, Progress>, expected: set<Code>, codes: seq<Code>, rows: seq<FlowRow>)
    requires Lists(codes, expected) && FromStages(states, codes, rows)
    requires forall c <- expected :: c in states && states[c].row.Some?
    ensures DistinctCodes(rows) <==> forall a <- expected, b <- expected :: a != b ==> OwnRow(states, a).code != OwnRow(states, b).code
  {
    if DistinctCodes(rows) {
      forall a <- expected, b <- expected | a != b ensures OwnRow(states, a).code != OwnRow(states, b).code {
        assert a in codes && b in codes;
        var i :| 0 <= i < |codes| && codes[i] == a;
        var j :| 0 <= j < |codes| && codes[j] == b;
        assert rows[i].code != rows[j].code;
      }
    }
    if forall a <- expected, b <- expected :: a != b ==> OwnRow(states, a).code != OwnRow(states, b).code {
      forall i, j | 0 <= i < j < |rows| ensures rows[i].code != rows[j].code {
        assert codes[i] in codes && codes[j] in codes;
      }
    }
  }

  /** A date that is published although two expected securities share its only row's bare code: the
      other staged row is about another date. */
  lemma PublishedShort() returns (states: map<Code, Progress>, date: int, expected: set<Code>)
    ensures Publishable(states, date, expected) && |Bases(expected)| < |expected|
  {
    var a, b := Code(1, 0), Code(1, 1);
    var today, tomorrow := FlowRow(1, 0, None, None, 0, true), FlowRow(2, 1, None, None, 0, true);
    date, expected := 0, {a, b};
    states := map[a := Progress(Staged, 0, Some(today), None, false), b := Progress(Staged, 0, Some(tomorrow), None, false)];
    assert Bases(expected) == {1};
    assert OwnRow(states, a).code == 1 && OwnRow(states, b).code == 2;
    var own := set c | c in expected && OwnRow(states, c).date == date :: OwnRow(states, c).code;
    assert 1 in own by {
      assert a in expected && OwnRow(states, a).date == date;
    }
    assert own == {1};
  }

  // The partition that a completed date should still hold.
  predicate Matches(saved: seq<FlowRow>, expected: set<Code>) {
    |saved| == |expected| && CodesOf(saved) == Bases(expected) && forall row <- saved :: row.source == Some(PERSISTED_SOURCE)
  }

  /** A completed partition matches exactly when it is a published one, if no two securities share a
      code: one row for each expected bare code, no other, all from the one source. */
  lemma MatchesIsPublished(saved: seq<FlowRow>, expected: set<Code>)
    requires |Bases(expected)| == |expected|
    ensures Matches(saved, expected) <==> Published(saved, expected)
    ensures Matches(saved, expected) <==>
      && (forall i, j :: 0 <= i < j < |saved| ==> saved[i].code != saved[j].code)
      && (forall c <- expected :: exists r <- saved :: r.code == c.base)
      && (forall r <- saved :: r.source == Some(PERSISTED_SOURCE) && exists c <- expected :: c.base == r.code)
  {
    CodesFewer(saved);
    if DistinctCodes(saved) {
      DistinctCount(saved);
    }
    CodesAreBases(saved, expected);
  }

  lemma CodesAreBases(saved: seq<FlowRow>, expected: set<Code>)
    ensures CodesOf(saved) == Bases(expected) <==>
      (forall c <- expected :: exists r <- saved :: r.code == c.base) && forall r <- saved :: exists c <- expected :: c.base == r.code
  {
    if CodesOf(saved) == Bases(expected) {
      forall c <- expected ensures exists r <- saved :: r.code == c.base {
        assert c.base in CodesOf(saved);
      }
      forall r <- saved ensures exists c <- expected :: c.base == r.code {
        assert r.code in Bases(expected);
      }
    }
  }

  // The states after a publication: every staged one is complete, published and without its row;
  // nothing else has changed.
  predicate StatesPublished(before: map<Code, Progress>, expected: set<Code>, after: map<Code, Progress>) {
    && after.Keys == before.Keys
    && (forall c <- before :: c !in expected ==> after[c] == before[c])
    && forall c <- expected :: c in before && after[c] == Progress(Complete, before[c].request, None, before[c].nextRetry, true)
  }

  // The states after a date has been made plannable again.
  predicate StatesRestaged(before: map<Code, Progress>, expected: set<Code>, now: int, after: map<Code, Progress>) {
    && after.Keys == before.Keys
    && (forall c <- before :: c !in expected ==> after[c] == before[c])
    && forall c <- expected :: c in before && after[c] == Progress(Error, before[c].request, before[c].row, Some(now), before[c].published)
  }

  lemma FinishedIs(states: map<Code, Progress>, expected: set<Code>)
    requires AllStaged(states, expected)
    ensures StatesPublished(states, expected, Finished(states, expected))
  {
  }

  // What a date that is not published leaves behind, and how many it reports missing.
  predicate Declined(before: map<Code, Progress>, saved: seq<FlowRow>, expected: set<Code>, now: int, missing: nat, after: map<Code, Progress>) {
    if exists c <- expected :: c !in before || before[c].status !in {Staged, Complete} then
      after == before && missing == |set c | c in expected && (c !in before || before[c].status !in {Staged, Complete})|
    else if forall c <- expected :: before[c].status == Complete then
      if Matches(saved, expected) then after == before && missing == 0
      else StatesRestaged(before, expected, now, after) && missing == |expected|
    else
      StatesRestaged(before, expected, now, after) && missing == |set c | c in expected && before[c].status != Staged|
  }

  /** A date whose securities are all there is declined in one of two ways: it is complete and its
      partition matches, or from then on the whole of it can be planned again. */
  lemma DeclinedIsPlannable(before: map<Code, Progress>, saved: seq<FlowRow>, expected: set<Code>, now: int, missing: nat,
                            after: map<Code, Progress>, later: int)
    requires Declined(before, saved, expected, now, missing, after) && now <= later
    requires expected != {} && !AllStaged(before, expected)
    requires forall c <- expected :: c in before && before[c].status in {Staged, Complete}
    ensures missing == 0 ==> after == before && Matches(saved, expected) && forall c <- expected :: before[c].status == Complete
    ensures missing > 0 ==> forall c <- expected :: Planned(after, c, later)
  {
    RestagedIsPlannable(before, expected, now, later);
    var c :| c in expected && before[c].status != Staged;
    var stale := set d | d in expected && before[d].status != Staged;
    assert c in stale && |stale| > 0 && |expected| > 0;
  }

  class Publisher {
    var table: Table
    var states: map<Code, Progress>

    constructor (table: Table, states: map<Code, Progress>)
      ensures this.table == table && this.states == states
    {
      this.table, this.states := table, states;
    }

    method CollectStaged(expected: set<Code>) returns (ok: bool, codes: seq<Code>, rows: seq<FlowRow>)
      requires forall c <- expected :: c in states
      ensures ok ==> Lists(codes, expected) && FromStages(states, codes, rows)
      ensures !ok ==> exists c <- expected :: states[c].row.None? || !OwnRow(states, c).complete
    {
      codes, rows := [], [];
      var todo := expected;
      while todo != {}
        invariant todo <= expected
        invariant Lists(codes, expected - todo) && FromStages(states, codes, rows)
        decreases |todo|
      {
        var c :| c in todo;
        if states[c].row.None? {
          return false, codes, rows;
        }
        var values := Values(states[c].row.value, states[c].request);
        if !values.complete {
          return false, codes, rows;
        }
        OneMoreListed(codes, expected, todo, c);
        codes, rows, todo := codes + [c], rows + [values], todo - {c};
      }
      assert expected - todo == expected;
      ok := true;
    }

    /** `publish_capital_flow_day`, one transaction. */
    method Publish(date: int, expected: set<Code>, now: int) returns (r: Outcome)
      modifies this
      ensures r.NotPublished? <==> expected != {} && !AllStaged(old(states), expected)
      ensures r.Done? <==> expected != {} && Publishable(old(states), date, expected)
      ensures !r.Done? ==> table == old(table)
      ensures r.Raised? ==> states == old(states)
      ensures r.Done? ==> r.written == |expected| && states == Finished(old(states), expected)
      ensures r.Done? ==> Replaces(old(table), old(states), date, expected, table)
      ensures r.Done? && |Bases(expected)| == |expected| ==> StandsThere(Partition(table, date), old(states), expected)
      ensures r.Done? ==> StatesPublished(old(states), expected, states)
      ensures r.NotPublished? ==> Declined(old(states), Partition(table, date), expected, now, r.missing, states)
    {
      if expected == {} {
        return Raised;
      }
      var declined;
      r, declined := Decline(date, expected, now);
      if !declined {
        r := Replace(date, expected);
      }
    }

    // The three ways in which the date is not published: a security without a fresh state, a date
    // that is complete already, a mixture of old and new.
    method Decline(date: int, expected: set<Code>, now: int) returns (r: Outcome, declined: bool)
      requires expected != {}
      modifies this`states
      ensures declined <==> !AllStaged(old(states), expected)
      ensures declined ==> r.NotPublished? && Declined(old(states), Partition(table, date), expected, now, r.missing, states)
      ensures !declined ==> states == old(states)
    {
      r, declined := Raised, true;
      var found := set c | c in expected && Present(states, c);
      if found != expected {
        SomethingMissing(found, expected);
        assert expected - found == set c | c in expected && (c !in states || states[c].status !in {Staged, Complete});
        return NotPublished(|expected - found|), true;
      }
      assert forall c <- expected :: c in found;
      if forall c <- expected :: states[c].status == Complete {
        var any :| any in expected;
        assert states[any].status == Complete;
        if Matches(Partition(table, date), expected) {
          return NotPublished(0), true;
        }
        states := Restaged(states, expected, now);
        return NotPublished(|expected|), true;
      }
      var complete := set c | c in expected && states[c].status != Staged;
      if complete != {} {
        var any :| any in complete;
        states := Restaged(states, expected, now);
        return NotPublished(|complete|), true;
      }
      assert forall c <- expected :: c !in complete;
      declined := false;
    }

    // Every expected security has a fresh staged row: the partition is replaced.
    method Replace(date: int, expected: set<Code>) returns (r: Outcome)
      requires AllStaged(states, expected)
      modifies this
      ensures r == if Publishable(old(states), date, expected) then Done(|expected|) else Raised
      ensures r.Raised? ==> table == old(table) && states == old(states)
      ensures r.Done? ==> states == Finished(old(states), expected) && StatesPublished(old(states), expected, states)
      ensures r.Done? ==> Replaces(old(table), old(states), date, expected, table)
      ensures r.Done? && |Bases(expected)| == |expected| ==> StandsThere(Partition(table, date), old(states), expected)
    {
      var ok, codes, rows := CollectStaged(expected);
      if !ok {
        return Raised;
      }
      CollectedDecide(states, date, expected, codes, rows);
      if !DistinctCodes(rows) {
        return Raised;
      }
      var cleared := table - {date};
      var after := InsertedAll(cleared, rows);
      var saved := Partition(after, date);
      InsertedPartition(cleared, rows, date);
      assert saved == Dated(rows, date);
      if CodesOf(saved) != Bases(expected) || exists row <- saved :: row.source != Some(PERSISTED_SOURCE) {
        return Raised;
      }
      ReplacementHolds(table, states, date, expected, codes, rows);
      if |Bases(expected)| == |expected| {
        ReplacesStands(table, states, date, expected, after);
      }
      FinishedIs(states, expected);
      table := after;
      states := Finished(states, expected);
      r := Done(|rows|);
    }
  }

  lemma {:induction false} CodesFewer(rows: seq<FlowRow>)
    ensures |CodesOf(rows)| <= |rows|
    ensures |CodesOf(rows)| == |rows| ==> DistinctCodes(rows)
  {
    if rows != [] {
      var front, last := rows[..|rows| - 1], rows[|rows| - 1];
      CodesFewer(front);
      assert rows == front + [last];
      if last.code in CodesOf(front) {
        assert CodesOf(rows) == CodesOf(front);
      } else {
        assert CodesOf(rows) == CodesOf(front) + {last.code};
        assert forall r <- front :: r.code in CodesOf(front);
      }
    }
  }
}
