/** One committed batch: business tables and progress in a single transaction
    (acquisition/store.py, `commit`). */
module BatchCommit {
  import opened Basics
  import opened MinuteUpsert
  import MinuteBulk
  import MinuteGrid
  import Finance = FinanceRevisions

  type Id = nat
  type UnitKey = nat
  type Instant = int

  const RETRY_AFTER := 15

  // How a dataset's rows reach their table.
  datatype Kind = Plain | Minute | Flow | Facts

  // A dataset: `values` is `_row_values`, `write` is what a unit's rows do to the table, `proof` and
  // `verified` are the minute evidence of a verdict and of a progress row, and `fact` reads a
  // finance row.
  datatype Dataset = Dataset(
    kind: Kind, schema: Schema, values: (UnitKey, Id, Instant, Row) -> Row, write: (UnitKey, Table, seq<Row>) -> Option<Table>,
    proof: Verdict -> Option<MinuteGrid.Proof>, verified: (UnitKey, Progress) -> bool, fact: Row -> Finance.Fact)

  datatype Status = Running | Staged | Complete | NoData | Error

  // What the progress row keeps of an outcome; `extra` is everything else in it.
  datatype Detail = Detail(
    proof: Option<MinuteGrid.Proof>, missing: int, outOfScope: int, reason: Option<nat>,
    staged: Option<Row>, notPromoted: bool, baseline: bool, extra: nat)

  datatype Progress = Progress(
    status: Status, request: Id, written: nat, updated: Instant, success: Option<Instant>,
    retry: Option<Instant>, error: Option<nat>, detail: Detail)

  // A normalised unit: its verdict, rows and detail.
  datatype Verdict = Verdict(key: UnitKey, status: Status, rows: seq<Row>, detail: Detail, error: Option<nat>)

  datatype Batch = Batch(request: Id, received: Instant, units: seq<Verdict>)

  datatype Database = Database(progress: map<UnitKey, Progress>, table: Table, ledger: Finance.Ledger)

  datatype Counts = Counts(complete: nat, noData: nat, error: nat, replayed: nat)

  datatype Problem = NotOwner | BadOutcome | Refused

  predicate Valid(d: Dataset, db: Database) {
    WellKeyed(d.schema, db.table) && Finance.AllChained(db.ledger.history)
  }

  predicate Terminal(s: Status) {
    s == Complete || s == NoData
  }

  /* ---------- one unit ---------- */

  // A complete minute outcome carries the proof of its own rows.
  predicate Evident(d: Dataset, v: Verdict) {
    d.kind.Minute? && v.status == Complete ==> d.proof(v).Some? && v.detail.proof == d.proof(v)
  }

  /** `terminal_replay`: a stored success is final, except that a minute one must be found again. */
  predicate Replays(d: Dataset, p: Progress, v: Verdict) {
    && Terminal(p.status)
    && (d.kind.Minute? ==>
          && v.status == p.status
          && (v.status == Complete ==> d.verified(v.key, p) && p.detail.proof == v.detail.proof)
          && (v.status == NoData ==> p.detail.reason == v.detail.reason))
  }

  // The outcome guards.
  predicate Allowed(v: Verdict) {
    v.status in {Complete, NoData, Error} && (v.status == Complete <==> v.rows != [])
  }

  // `_row_values` of every row, in order.
  function Values(d: Dataset, b: Batch, v: Verdict): (values: seq<Row>)
    ensures |values| == |v.rows| && forall k :: 0 <= k < |v.rows| ==> values[k] == d.values(v.key, b.request, b.received, v.rows[k])
  {
    seq(|v.rows|, i requires 0 <= i < |v.rows| => d.values(v.key, b.request, b.received, v.rows[i]))
  }

  function FactsOf(d: Dataset, rows: seq<Row>): (facts: seq<Finance.Fact>)
    ensures |facts| == |rows| && forall k :: 0 <= k < |rows| ==> facts[k] == d.fact(rows[k])
  {
    seq(|rows|, i requires 0 <= i < |rows| => d.fact(rows[i]))
  }

  // Each fact may leave a note in the detail.
  function Noted(detail: Detail, p: Finance.Promotion): Detail {
    match p
    case Promoted => detail
    case Baseline => detail.(baseline := true)
    case _ => detail.(notPromoted := true)
  }

  function NotedAll(l: Finance.Ledger, facts: seq<Finance.Fact>, detail: Detail): Detail {
    if facts == [] then detail
    else
      var front, last := facts[..|facts| - 1], facts[|facts| - 1];
      Noted(NotedAll(l, front, detail), Finance.PromotionOf(Finance.FactsCommitted(l, front), last))
  }

  // Some fact met one of these fates when its turn came.
  predicate SomeFact(l: Finance.Ledger, facts: seq<Finance.Fact>, fates: set<Finance.Promotion>) {
    exists k | 0 <= k < |facts| :: MeetsAt(l, facts, k, fates)
  }

  predicate MeetsAt(l: Finance.Ledger, facts: seq<Finance.Fact>, k: nat, fates: set<Finance.Promotion>)
    requires k < |facts|
  {
    Finance.PromotionOf(Finance.FactsCommitted(l, facts[..k]), facts[k]) in fates
  }

  lemma NextFact(l: Finance.Ledger, facts: seq<Finance.Fact>, fates: set<Finance.Promotion>)
    requires facts != []
    ensures SomeFact(l, facts, fates) <==>
            SomeFact(l, facts[..|facts| - 1], fates) || MeetsAt(l, facts, |facts| - 1, fates)
  {
    var front := facts[..|facts| - 1];
    forall k | 0 <= k < |front| ensures MeetsAt(l, facts, k, fates) <==> MeetsAt(l, front, k, fates) {
      assert facts[..k] == front[..k];
    }
  }

  /** The notes say that some fact was not promoted in its turn, and that some fact set a first version. */
  lemma {:induction false} NotesMean(l: Finance.Ledger, facts: seq<Finance.Fact>, detail: Detail)
    ensures var noted := NotedAll(l, facts, detail);
      && noted == detail.(notPromoted := noted.notPromoted, baseline := noted.baseline)
      && (noted.notPromoted <==> detail.notPromoted || SomeFact(l, facts, {Finance.Replayed, Finance.Kept}))
      && (noted.baseline <==> detail.baseline || SomeFact(l, facts, {Finance.Baseline}))
  {
    if facts != [] {
      NotesMean(l, facts[..|facts| - 1], detail);
      NextFact(l, facts, {Finance.Replayed, Finance.Kept});
      NextFact(l, facts, {Finance.Baseline});
    }
  }

  datatype Effects = Effects(table: Table, ledger: Finance.Ledger, detail: Detail)

  // The business rows of a verdict.
  function Write(d: Dataset, db: Database, b: Batch, v: Verdict): Option<Effects> {
    if !Terminal(v.status) || d.kind.Flow? then Some(Effects(db.table, db.ledger, v.detail))
    else if d.kind.Facts? then
      var facts := FactsOf(d, v.rows);
      Some(Effects(db.table, Finance.FactsCommitted(db.ledger, facts), NotedAll(db.ledger, facts, v.detail)))
    else match d.write(v.key, db.table, Values(d, b, v))
      case None => None
      case Some(table) => Some(Effects(table, db.ledger, v.detail))
  }

  // Rows are written one by one; none is no change.
  ghost predicate WritesRows(d: Dataset) {
    forall key, t, rows :: d.write(key, t, rows) == UpsertEach(d.schema, t, rows)
  }

  // The progress row afterwards.
  function Settled(p: Progress, b: Batch, v: Verdict, detail: Detail): Progress {
    Progress(v.status, p.request, |v.rows|, b.received,
             if Terminal(v.status) then Some(b.received) else p.success,
             if v.status == Error then Some(b.received + RETRY_AFTER) else None, v.error, detail)
  }

  // A flow row waits in its progress row until its whole date is published.
  function StagedAs(p: Progress, b: Batch, v: Verdict): Progress
    requires |v.rows| == 1
  {
    p.(status := Staged, written := 0, updated := b.received, retry := None, error := None,
       detail := v.detail.(staged := Some(v.rows[0])))
  }

  datatype Step = Raised(why: Problem) | Did(db: Database, counted: Status, replayed: bool)

  function CommitUnit(d: Dataset, db: Database, b: Batch, v: Verdict): Step {
    if v.key !in db.progress || db.progress[v.key].request != b.request then Raised(NotOwner)
    else
      var p := db.progress[v.key];
      if !Evident(d, v) then Raised(BadOutcome)
      else if Replays(d, p, v) then Did(db, p.status, true)
      else if !Allowed(v) then Raised(BadOutcome)
      else if d.kind.Flow? && v.status == Complete then
        if |v.rows| != 1 then Raised(Refused)
        else Did(db.(progress := db.progress[v.key := StagedAs(p, b, v)]), Complete, false)
      else match Write(d, db, b, v)
        case None => Raised(Refused)
        case Some(e) => Did(Database(db.progress[v.key := Settled(p, b, v, e.detail)], e.table, e.ledger), v.status, false)
  }

  /* ---------- the batch ---------- */

  function Counted(c: Counts, s: Status, replayed: bool): Counts {
    var c := if replayed then c.(replayed := c.replayed + 1) else c;
    match s
    case Complete => c.(complete := c.complete + 1)
    case NoData => c.(noData := c.noData + 1)
    case _ => c.(error := c.error + 1)
  }

  datatype Run = Failed(why: Problem) | Ran(db: Database, counts: Counts)

  function Tallied(counts: Counts, step: Step): Run {
    match step
    case Raised(why) => Failed(why)
    case Did(after, counted, replayed) => Ran(after, Counted(counts, counted, replayed))
  }

  function CommitFirst(d: Dataset, db: Database, b: Batch, n: nat): Run
    requires n <= |b.units|
  {
    if n == 0 then Ran(db, Counts(0, 0, 0, 0))
    else match CommitFirst(d, db, b, n - 1)
      case Failed(why) => Failed(why)
      case Ran(before, counts) => Tallied(counts, CommitUnit(d, before, b, b.units[n - 1]))
  }

  // The values of all complete minute units.
  function AllValues(d: Dataset, b: Batch, n: nat): seq<Row>
    requires n <= |b.units|
  {
    if n == 0 then []
    else AllValues(d, b, n - 1) + if b.units[n - 1].status == Complete then Values(d, b, b.units[n - 1]) else []
  }

  /** `commit`: minute identities are checked over the whole batch before anything is written; one
      problem undoes everything. */
  function Committed(d: Dataset, db: Database, b: Batch): Run {
    if d.kind.Minute? && !DistinctKeys(d.schema, AllValues(d, b, |b.units|)) then Failed(Refused)
    else CommitFirst(d, db, b, |b.units|)
  }

  // One unit for each key, as the normaliser leaves them.
  predicate DistinctUnits(b: Batch) {
    forall i, j :: 0 <= i < j < |b.units| ==> b.units[i].key != b.units[j].key
  }

  /* ---------- what one unit leaves ---------- */

  // The unit's stored success is final, so nothing is due.
  predicate IsReplay(d: Dataset, db: Database, v: Verdict) {
    v.key in db.progress && Replays(d, db.progress[v.key], v)
  }

  lemma UnitElsewhere(d: Dataset, db: Database, b: Batch, v: Verdict)
    requires CommitUnit(d, db, b, v).Did?
    ensures var after := CommitUnit(d, db, b, v).db;
      after.progress.Keys == db.progress.Keys && v.key in after.progress
      && forall u <- db.progress :: u != v.key ==> after.progress[u] == db.progress[u]
  {
  }

  /** The same unit on what it left: nothing changes and the same outcome is counted. Only a minute
      unit may write its rows once more, which then have to hold. */
  lemma UnitAgain(d: Dataset, db: Database, b: Batch, v: Verdict, later: Database)
    requires CommitUnit(d, db, b, v).Did? && v.key in later.progress
    requires later.progress[v.key] == CommitUnit(d, db, b, v).db.progress[v.key]
    requires d.kind.Minute? && v.status == Complete && !IsReplay(d, db, v) ==>
      d.write(v.key, later.table, Values(d, b, v)) == Some(later.table)
    ensures var s, again := CommitUnit(d, db, b, v), CommitUnit(d, later, b, v);
      again.Did? && again.db == later && again.counted == s.counted
  {
    var s := CommitUnit(d, db, b, v);
    var p, after := db.progress[v.key], later.progress[v.key];
    assert later.progress[v.key := after] == later.progress;
    if !s.replayed && !(d.kind.Flow? && v.status == Complete) && !Replays(d, after, v) {
      assert Settled(after, b, v, after.detail) == after;
    }
  }

  lemma {:induction false} Untouched(d: Dataset, db: Database, b: Batch, n: nat, u: UnitKey)
    requires n <= |b.units| && CommitFirst(d, db, b, n).Ran?
    requires forall i | 0 <= i < n :: b.units[i].key != u
    ensures var after := CommitFirst(d, db, b, n).db;
      after.progress.Keys == db.progress.Keys && (u in db.progress ==> after.progress[u] == db.progress[u])
  {
    if n > 0 {
      Untouched(d, db, b, n - 1, u);
      UnitElsewhere(d, CommitFirst(d, db, b, n - 1).db, b, b.units[n - 1]);
    }
  }

  // The progress row `q` that a verdict leaves over `p`.
  predicate TakesVerdict(d: Dataset, b: Batch, p: Progress, v: Verdict, q: Progress) {
    && q.request == p.request && q.updated == b.received
    && if d.kind.Flow? && v.status == Complete then
         && q.status == Staged && q.written == 0 && q.success == p.success && q.retry == None && q.error == None
         && |v.rows| == 1 && q.detail == v.detail.(staged := Some(v.rows[0]))
       else
         && q.status == v.status && q.written == |v.rows| && q.error == v.error
         && (v.status == Error ==> q.success == p.success && q.retry == Some(b.received + 15))
         && (v.status != Error ==> q.success == Some(b.received) && q.retry == None)
         && q.detail == v.detail.(notPromoted := q.detail.notPromoted, baseline := q.detail.baseline)
         && (!d.kind.Facts? ==> q.detail == v.detail)
  }

  /* ---------- what a commit leaves in the tables ---------- */

  // The values, in order, of the first n units that are complete and no replays.
  function DueValues(d: Dataset, db: Database, b: Batch, n: nat): seq<Row>
    requires n <= |b.units|
  {
    if n == 0 then []
    else
      var v := b.units[n - 1];
      DueValues(d, db, b, n - 1) + if v.status == Complete && !IsReplay(d, db, v) then Values(d, b, v) else []
  }

  function DueFacts(d: Dataset, db: Database, b: Batch, n: nat): seq<Finance.Fact>
    requires n <= |b.units|
  {
    if n == 0 then []
    else
      var v := b.units[n - 1];
      DueFacts(d, db, b, n - 1) + if v.status == Complete && !IsReplay(d, db, v) then FactsOf(d, v.rows) else []
  }

  lemma UnitTable(d: Dataset, db: Database, b: Batch, v: Verdict)
    requires WritesRows(d) && CommitUnit(d, db, b, v).Did?
    ensures var after := CommitUnit(d, db, b, v).db;
      if (d.kind.Plain? || d.kind.Minute?) && v.status == Complete && !IsReplay(d, db, v) then
        UpsertEach(d.schema, db.table, Values(d, b, v)) == Some(after.table)
      else after.table == db.table
    ensures var after := CommitUnit(d, db, b, v).db;
      after.ledger == if d.kind.Facts? && v.status == Complete && !IsReplay(d, db, v)
                      then Finance.FactsCommitted(db.ledger, FactsOf(d, v.rows)) else db.ledger
  {
  }

  // A turn finds the unit's progress row as the commit found it.
  lemma SameReplay(d: Dataset, db: Database, b: Batch, n: nat)
    requires n < |b.units| && DistinctUnits(b) && CommitFirst(d, db, b, n).Ran?
    ensures IsReplay(d, CommitFirst(d, db, b, n).db, b.units[n]) <==> IsReplay(d, db, b.units[n])
  {
    Untouched(d, db, b, n, b.units[n].key);
  }

  lemma {:induction false} FactsJoin(l: Finance.Ledger, a: seq<Finance.Fact>, b: seq<Finance.Fact>)
    ensures Finance.FactsCommitted(l, a + b) == Finance.FactsCommitted(Finance.FactsCommitted(l, a), b)
  {
    if b == [] {
      assert a + b == a;
    } else {
      assert (a + b)[..|a + b| - 1] == a + b[..|b| - 1];
      FactsJoin(l, a, b[..|b| - 1]);
    }
  }

  // The table that the first n units should have left.
  predicate TableUpTo(d: Dataset, db: Database, b: Batch, n: nat, table: Table)
    requires n <= |b.units|
  {
    if d.kind.Plain? || d.kind.Minute? then UpsertEach(d.schema, db.table, DueValues(d, db, b, n)) == Some(table)
    else table == db.table
  }

  predicate LedgerUpTo(d: Dataset, db: Database, b: Batch, n: nat, ledger: Finance.Ledger)
    requires n <= |b.units|
  {
    ledger == if d.kind.Facts? then Finance.FactsCommitted(db.ledger, DueFacts(d, db, b, n)) else db.ledger
  }

  lemma NextTable(d: Dataset, db: Database, b: Batch, n: nat, before: Table, after: Table)
    requires n < |b.units| && TableUpTo(d, db, b, n, before)
    requires
      if (d.kind.Plain? || d.kind.Minute?) && b.units[n].status == Complete && !IsReplay(d, db, b.units[n]) then
        UpsertEach(d.schema, before, Values(d, b, b.units[n])) == Some(after)
      else after == before
    ensures TableUpTo(d, db, b, n + 1, after)
  {
    MinuteBulk.EachJoin(d.schema, db.table, DueValues(d, db, b, n), Values(d, b, b.units[n]));
    assert DueValues(d, db, b, n) + [] == DueValues(d, db, b, n);
  }

  lemma NextLedger(d: Dataset, db: Database, b: Batch, n: nat, before: Finance.Ledger, after: Finance.Ledger)
    requires n < |b.units| && LedgerUpTo(d, db, b, n, before)
    requires after == if d.kind.Facts? && b.units[n].status == Complete && !IsReplay(d, db, b.units[n])
                      then Finance.FactsCommitted(before, FactsOf(d, b.units[n].rows)) else before
    ensures LedgerUpTo(d, db, b, n + 1, after)
  {
    FactsJoin(db.ledger, DueFacts(d, db, b, n), FactsOf(d, b.units[n].rows));
    assert DueFacts(d, db, b, n) + [] == DueFacts(d, db, b, n);
  }

  lemma {:induction false} PrefixTable(d: Dataset, db: Database, b: Batch, n: nat)
    requires WritesRows(d) && DistinctUnits(b) && n <= |b.units| && CommitFirst(d, db, b, n).Ran?
    ensures TableUpTo(d, db, b, n, CommitFirst(d, db, b, n).db.table)
    ensures LedgerUpTo(d, db, b, n, CommitFirst(d, db, b, n).db.ledger)
  {
    if n > 0 {
      PrefixTable(d, db, b, n - 1);
      var v, before, after := b.units[n - 1], CommitFirst(d, db, b, n - 1).db, CommitFirst(d, db, b, n).db;
      SameReplay(d, db, b, n - 1);
      UnitTable(d, before, b, v);
      NextTable(d, db, b, n - 1, before.table, after.table);
      NextLedger(d, db, b, n - 1, before.ledger, after.ledger);
    }
  }

  /** The tables after a commit: of a dataset written row by row, what the row-by-row writer makes of
      the table before from all values due, in order; of finance, the ledger with every due fact
      recorded, following the one before. A flow batch writes neither. */
  lemma CommitWrites(d: Dataset, db: Database, b: Batch)
    requires WritesRows(d) && DistinctUnits(b) && Valid(d, db) && Committed(d, db, b).Ran?
    ensures var after, n := Committed(d, db, b).db, |b.units|;
      && (d.kind.Plain? || d.kind.Minute? ==> UpsertEach(d.schema, db.table, DueValues(d, db, b, n)) == Some(after.table))
      && (!d.kind.Plain? && !d.kind.Minute? ==> after.table == db.table)
      && (!d.kind.Facts? ==> after.ledger == db.ledger)
      && (d.kind.Facts? ==>
            && Finance.Follows(db.ledger, after.ledger)
            && forall f <- DueFacts(d, db, b, n) :: Finance.Recorded(Finance.Past(after.ledger.history, f.id), f.content))
  {
    PrefixTable(d, db, b, |b.units|);
    Finance.FactsKeep(db.ledger, DueFacts(d, db, b, |b.units|));
  }

  /* ---------- committing twice ---------- */

  // Due values are among those whose identities are checked.
  lemma ValuesSplit(d: Dataset, b: Batch, n: nat)
    requires n < |b.units| && DistinctKeys(d.schema, AllValues(d, b, n + 1))
    ensures DistinctKeys(d.schema, AllValues(d, b, n))
    ensures b.units[n].status == Complete ==>
      && DistinctKeys(d.schema, Values(d, b, b.units[n]))
      && forall r <- AllValues(d, b, n) :: !Touches(d.schema, Values(d, b, b.units[n]), KeyOf(d.schema, r))
  {
    DistinctParts(d.schema, AllValues(d, b, n), if b.units[n].status == Complete then Values(d, b, b.units[n]) else []);
  }

  lemma {:induction false} DueDistinct(d: Dataset, db: Database, b: Batch, n: nat)
    requires n <= |b.units| && DistinctKeys(d.schema, AllValues(d, b, n))
    ensures DistinctKeys(d.schema, DueValues(d, db, b, n)) && forall r <- DueValues(d, db, b, n) :: r in AllValues(d, b, n)
  {
    if n > 0 {
      ValuesSplit(d, b, n - 1);
      DueDistinct(d, db, b, n - 1);
      var v := b.units[n - 1];
      if v.status == Complete {
        NextDue(d.schema, DueValues(d, db, b, n - 1), AllValues(d, b, n - 1), Values(d, b, v), !IsReplay(d, db, v));
      } else {
        assert DueValues(d, db, b, n) == DueValues(d, db, b, n - 1) && AllValues(d, b, n) == AllValues(d, b, n - 1);
      }
    }
  }

  lemma NextDue(s: Schema, due: seq<Row>, all: seq<Row>, values: seq<Row>, more: bool)
    requires DistinctKeys(s, due) && DistinctKeys(s, values)
    requires (forall r <- due :: r in all) && forall r <- all :: !Touches(s, values, KeyOf(s, r))
    ensures var next := due + if more then values else [];
      DistinctKeys(s, next) && forall r <- next :: r in all + values
  {
    JoinDistinct(s, due, all, values);
    assert due + [] == due;
  }

  lemma JoinDistinct(s: Schema, a: seq<Row>, all: seq<Row>, b: seq<Row>)
    requires DistinctKeys(s, a) && DistinctKeys(s, b) && (forall r <- a :: r in all) && forall r <- all :: !Touches(s, b, KeyOf(s, r))
    ensures DistinctKeys(s, a + b)
  {
    forall i, j | 0 <= i < j < |a + b| ensures KeyOf(s, (a + b)[i]) != KeyOf(s, (a + b)[j]) {
      if i < |a| <= j {
        assert a[i] in all && b[j - |a|] in b;
      }
    }
  }

  lemma {:induction false} DuePrefix(d: Dataset, db: Database, b: Batch, n: nat, m: nat)
    requires n <= m <= |b.units|
    ensures forall r <- DueValues(d, db, b, n) :: r in DueValues(d, db, b, m)
    decreases m
  {
    if n < m {
      DuePrefix(d, db, b, n, m - 1);
    }
  }

  // The due values of a unit may be written once more.
  lemma StillHold(d: Dataset, db: Database, b: Batch, n: nat, table: Table)
    requires WritesRows(d) && n < |b.units| && AllHold(d.schema, table, DueValues(d, db, b, |b.units|))
    requires b.units[n].status == Complete && !IsReplay(d, db, b.units[n])
    ensures d.write(b.units[n].key, table, Values(d, b, b.units[n])) == Some(table)
  {
    DuePrefix(d, db, b, n + 1, |b.units|);
    var values := Values(d, b, b.units[n]);
    assert forall r <- values :: r in DueValues(d, db, b, n + 1);
    HoldingStays(d.schema, table, values);
  }


  lemma DistinctParts(s: Schema, a: seq<Row>, b: seq<Row>)
    requires DistinctKeys(s, a + b)
    ensures DistinctKeys(s, a) && DistinctKeys(s, b)
    ensures forall r <- a :: !Touches(s, b, KeyOf(s, r))
  {
    var all := a + b;
    forall r <- a + b ensures r in all {}
    forall i | 0 <= i < |a| ensures all[i] == a[i] {}
    forall i | 0 <= i < |b| ensures all[|a| + i] == b[i] {}
    forall i, j | 0 <= i < j < |a| ensures KeyOf(s, a[i]) != KeyOf(s, a[j]) {
      assert KeyOf(s, all[i]) != KeyOf(s, all[j]);
    }
    forall i, j | 0 <= i < j < |b| ensures KeyOf(s, b[i]) != KeyOf(s, b[j]) {
      assert KeyOf(s, all[|a| + i]) != KeyOf(s, all[|a| + j]);
    }
    forall r <- a, q <- b ensures KeyOf(s, r) != KeyOf(s, q) {
      var i :| 0 <= i < |a| && a[i] == r;
      var j :| 0 <= j < |b| && b[j] == q;
      assert KeyOf(s, all[i]) != KeyOf(s, all[|a| + j]);
    }
  }

  // The progress rows of the first n units stay as they left them.
  lemma {:induction false} ProgressStays(d: Dataset, db: Database, b: Batch, n: nat, m: nat)
    requires n <= m <= |b.units| && DistinctUnits(b) && CommitFirst(d, db, b, m).Ran?
    ensures CommitFirst(d, db, b, n).Ran?
    ensures var some, all := CommitFirst(d, db, b, n).db, CommitFirst(d, db, b, m).db;
      forall i | 0 <= i < n :: var u := b.units[i].key; u in some.progress && u in all.progress && all.progress[u] == some.progress[u]
    decreases m
  {
    if n < m {
      ProgressStays(d, db, b, n, m - 1);
      UnitElsewhere(d, CommitFirst(d, db, b, m - 1).db, b, b.units[m - 1]);
    } else if n > 0 {
      ProgressStays(d, db, b, n - 1, n - 1);
      UnitElsewhere(d, CommitFirst(d, db, b, n - 1).db, b, b.units[n - 1]);
    }
  }

  // What the n-th turn left is what the whole commit leaves of its unit.
  lemma TurnStays(d: Dataset, db: Database, b: Batch, n: nat)
    requires 0 < n <= |b.units| && DistinctUnits(b) && CommitFirst(d, db, b, |b.units|).Ran?
    ensures CommitFirst(d, db, b, n - 1).Ran? && CommitFirst(d, db, b, n).Ran?
    ensures var step, once := CommitUnit(d, CommitFirst(d, db, b, n - 1).db, b, b.units[n - 1]), CommitFirst(d, db, b, |b.units|).db;
      && step.Did? && CommitFirst(d, db, b, n) == Tallied(CommitFirst(d, db, b, n - 1).counts, step)
      && var u := b.units[n - 1].key;
         u in once.progress && u in step.db.progress && once.progress[u] == step.db.progress[u]
  {
    ProgressStays(d, db, b, n, |b.units|);
  }

  lemma NextRun(d: Dataset, db: Database, b: Batch, n: nat)
    requires 0 < n <= |b.units| && CommitFirst(d, db, b, n - 1).Ran?
    ensures var before := CommitFirst(d, db, b, n - 1);
      CommitFirst(d, db, b, n) == Tallied(before.counts, CommitUnit(d, before.db, b, b.units[n - 1]))
  {
  }

  lemma TallyAgain(run: Counts, again: Counts, first: Step, second: Step)
    requires SameOutcomes(run, again) && first.Did? && second.Did? && second.counted == first.counted
    ensures Tallied(again, second).Ran? && Tallied(again, second).db == second.db
    ensures SameOutcomes(Tallied(run, first).counts, Tallied(again, second).counts)
  {
  }

  // What a turn wrote is still there at the end, so writing it again changes nothing.
  lemma RowsAgain(d: Dataset, db: Database, b: Batch, n: nat, table: Table)
    requires n < |b.units| && DistinctUnits(b) && CommitFirst(d, db, b, n).Ran?
    requires d.kind.Minute? ==> WritesRows(d) && AllHold(d.schema, table, DueValues(d, db, b, |b.units|))
    ensures d.kind.Minute? && b.units[n].status == Complete && !IsReplay(d, CommitFirst(d, db, b, n).db, b.units[n]) ==>
      d.write(b.units[n].key, table, Values(d, b, b.units[n])) == Some(table)
  {
    SameReplay(d, db, b, n);
    if d.kind.Minute? && b.units[n].status == Complete && !IsReplay(d, db, b.units[n]) {
      StillHold(d, db, b, n, table);
    }
  }

  // The n-th turn once more.
  lemma TurnAgain(d: Dataset, db: Database, b: Batch, n: nat, once: Database)
    requires 0 < n <= |b.units| && DistinctUnits(b) && CommitFirst(d, db, b, |b.units|).Ran?
    requires once == CommitFirst(d, db, b, |b.units|).db
    requires d.kind.Minute? ==> WritesRows(d) && AllHold(d.schema, once.table, DueValues(d, db, b, |b.units|))
    ensures CommitFirst(d, db, b, n - 1).Ran?
    ensures var before := CommitFirst(d, db, b, n - 1);
      var step, again := CommitUnit(d, before.db, b, b.units[n - 1]), CommitUnit(d, once, b, b.units[n - 1]);
      && step.Did? && CommitFirst(d, db, b, n) == Tallied(before.counts, step)
      && again.Did? && again.db == once && again.counted == step.counted
  {
    TurnStays(d, db, b, n);
    RowsAgain(d, db, b, n - 1, once.table);
    UnitAgain(d, CommitFirst(d, db, b, n - 1).db, b, b.units[n - 1], once);
  }

  lemma {:induction false} PrefixAgain(d: Dataset, db: Database, b: Batch, n: nat, once: Database)
    requires n <= |b.units| && DistinctUnits(b) && CommitFirst(d, db, b, |b.units|).Ran?
    requires once == CommitFirst(d, db, b, |b.units|).db
    requires d.kind.Minute? ==> WritesRows(d) && AllHold(d.schema, once.table, DueValues(d, db, b, |b.units|))
    ensures CommitFirst(d, db, b, n).Ran?
    ensures var run, again := CommitFirst(d, db, b, n), CommitFirst(d, once, b, n);
      again.Ran? && again.db == once && SameOutcomes(run.counts, again.counts)
  {
    if n > 0 {
      PrefixAgain(d, db, b, n - 1, once);
      TurnAgain(d, db, b, n, once);
      var v, before, again := b.units[n - 1], CommitFirst(d, db, b, n - 1), CommitFirst(d, once, b, n - 1);
      NextRun(d, once, b, n);
      TallyAgain(before.counts, again.counts, CommitUnit(d, before.db, b, v), CommitUnit(d, once, b, v));
    }
  }

  predicate SameOutcomes(a: Counts, b: Counts) {
    a.complete == b.complete && a.noData == b.noData && a.error == b.error
  }

  /** Committing the same batch again leaves tables and progress as they are and reports the same
      outcomes, for every kind of dataset and, off the minute period, whatever its rows do. */
  lemma CommitTwice(d: Dataset, db: Database, b: Batch)
    requires DistinctUnits(b) && (d.kind.Minute? ==> WritesRows(d)) && Committed(d, db, b).Ran?
    ensures var once, again := Committed(d, db, b), Committed(d, Committed(d, db, b).db, b);
      again.Ran? && again.db == once.db && SameOutcomes(once.counts, again.counts)
  {
    if d.kind.Minute? {
      PrefixTable(d, db, b, |b.units|);
      DueDistinct(d, db, b, |b.units|);
      EachHolds(d.schema, db.table, DueValues(d, db, b, |b.units|));
    }
    PrefixAgain(d, db, b, |b.units|, Committed(d, db, b).db);
  }

  /** The outcomes counted are as many as the units. */
  lemma {:induction false} CountsAddUp(d: Dataset, db: Database, b: Batch, n: nat)
    requires n <= |b.units| && CommitFirst(d, db, b, n).Ran?
    ensures var c := CommitFirst(d, db, b, n).counts; c.complete + c.noData + c.error == n
  {
    if n > 0 {
      CountsAddUp(d, db, b, n - 1);
    }
  }

  /* ---------- replays that are noticed ---------- */

  // The grids of a minute product, what its units are and what its rows say.
  datatype Rules = Rules(grids: UnitKey -> MinuteGrid.Grids, workUnit: UnitKey -> MinuteGrid.WorkUnit, minute: Row -> MinuteGrid.Row)

  function MinuteRows(m: Rules, rows: seq<Row>): seq<MinuteGrid.Row> {
    seq(|rows|, i requires 0 <= i < |rows| => m.minute(rows[i]))
  }

  function ProofOf(m: Rules, v: Verdict): Option<MinuteGrid.Proof> {
    MinuteGrid.ProofOf(m.grids(v.key), m.workUnit(v.key), MinuteRows(m, v.rows))
  }

  // The stored row as a reader of minute evidence sees it.
  function Evidence(m: Rules, key: UnitKey, p: Progress): MinuteGrid.State {
    var unit := m.workUnit(key);
    MinuteGrid.State(p.status == Complete, unit.code, unit.date, p.written, p.detail.proof, p.detail.missing, p.detail.outOfScope)
  }

  predicate Verified(m: Rules, key: UnitKey, p: Progress) {
    MinuteGrid.Verified(m.grids(key), m.workUnit(key).product, m.workUnit(key).code, Evidence(m, key, p))
  }

  // The dataset's evidence is that of the minute grid.
  ghost predicate FollowsRules(d: Dataset, m: Rules) {
    d.kind.Minute? ==>
      && (forall v :: d.proof(v) == ProofOf(m, v))
      && (forall key, p :: d.verified(key, p) <==> Verified(m, key, p))
  }

  // The dataset that these rules make.
  function MinuteDataset(m: Rules, schema: Schema, values: (UnitKey, Id, Instant, Row) -> Row, fact: Row -> Finance.Fact): (d: Dataset)
    ensures d.kind.Minute? && FollowsRules(d, m) && WritesRows(d)
  {
    Dataset(Minute, schema, values, (key, t, rows) => UpsertEach(schema, t, rows),
            v => ProofOf(m, v), (key: UnitKey, p: Progress) => Verified(m, key, p), fact)
  }

  // The detail counts what the normaliser counts for a complete minute unit.
  predicate Marked(d: Dataset, m: Rules, v: Verdict) {
    d.kind.Minute? && v.status == Complete ==>
      var g, actual := m.grids(v.key), MinuteGrid.Observed(MinuteRows(m, v.rows));
      && MinuteGrid.ValidGrids(g)
      && v.detail.missing == |MinuteGrid.Times(g.required) - actual|
      && v.detail.outOfScope == |actual - MinuteGrid.Times(g.allowed)|
  }

  lemma MarkedIsVerified(d: Dataset, m: Rules, v: Verdict, q: Progress)
    requires d.kind.Minute? && FollowsRules(d, m) && v.status == Complete && Marked(d, m, v) && Evident(d, v) && v.rows != []
    requires q.status == Complete && q.written == |v.rows| && q.detail == v.detail
    ensures d.verified(v.key, q)
  {
    var g, unit, rows := m.grids(v.key), m.workUnit(v.key), MinuteRows(m, v.rows);
    assert d.proof(v) == ProofOf(m, v);
    assert rows[0] in rows && rows[0].time in MinuteGrid.Observed(rows);
    assert rows[0].time in MinuteGrid.Times(g.allowed);
    assert g.allowed != [];
    MinuteGrid.EvidenceRoundTrip(g, unit, rows);
    assert Evidence(m, v.key, q) == MinuteGrid.Stored(g, unit, rows, v.detail.proof.value);
    assert Verified(m, v.key, q);
  }

  lemma MinuteLeaves(d: Dataset, db: Database, b: Batch, v: Verdict)
    requires d.kind.Minute? && v.status == Complete && CommitUnit(d, db, b, v).Did?
    ensures var q := CommitUnit(d, db, b, v).db.progress[v.key];
      Replays(d, q, v) || (Evident(d, v) && v.rows != [] && q.status == Complete && q.written == |v.rows| && q.detail == v.detail)
  {
  }

  /** A complete minute unit leaves a progress row that every later reader verifies. */
  lemma StoredIsVerified(d: Dataset, m: Rules, db: Database, b: Batch, v: Verdict)
    requires d.kind.Minute? && FollowsRules(d, m) && v.status == Complete && Marked(d, m, v) && CommitUnit(d, db, b, v).Did?
    ensures Verified(m, v.key, CommitUnit(d, db, b, v).db.progress[v.key])
    ensures Replays(d, CommitUnit(d, db, b, v).db.progress[v.key], v)
  {
    var q := CommitUnit(d, db, b, v).db.progress[v.key];
    MinuteLeaves(d, db, b, v);
    if !Replays(d, q, v) {
      MarkedIsVerified(d, m, v, q);
    }
    assert d.verified(v.key, q);
  }

  // What a unit left is recognised exactly if it is a success.
  lemma UnitReplays(d: Dataset, m: Rules, db: Database, b: Batch, v: Verdict, later: Database)
    requires !d.kind.Flow? && FollowsRules(d, m) && Marked(d, m, v) && CommitUnit(d, db, b, v).Did? && v.key in later.progress
    requires later.progress[v.key] == CommitUnit(d, db, b, v).db.progress[v.key]
    ensures var again := CommitUnit(d, later, b, v);
      again.Did? && again.db == later && (again.replayed <==> Terminal(again.counted))
  {
    if d.kind.Minute? && v.status == Complete {
      StoredIsVerified(d, m, db, b, v);
    }
    if !Replays(d, later.progress[v.key], v) {
      UnitAgain(d, db, b, v, later);
    }
  }

  lemma TallyReplay(counts: Counts, step: Step)
    requires counts.replayed == counts.complete + counts.noData && step.Did? && (step.replayed <==> Terminal(step.counted))
    ensures var after := Tallied(counts, step);
      after.Ran? && after.db == step.db && after.counts.replayed == after.counts.complete + after.counts.noData
  {
  }

  lemma {:induction false} PrefixReplays(d: Dataset, m: Rules, db: Database, b: Batch, n: nat, once: Database)
    requires !d.kind.Flow? && FollowsRules(d, m) && forall v <- b.units :: Marked(d, m, v)
    requires n <= |b.units| && DistinctUnits(b) && CommitFirst(d, db, b, |b.units|).Ran?
    requires once == CommitFirst(d, db, b, |b.units|).db
    ensures var again := CommitFirst(d, once, b, n);
      again.Ran? && again.db == once && again.counts.replayed == again.counts.complete + again.counts.noData
  {
    if n > 0 {
      PrefixReplays(d, m, db, b, n - 1, once);
      TurnStays(d, db, b, n);
      var v, again := b.units[n - 1], CommitFirst(d, once, b, n - 1);
      UnitReplays(d, m, CommitFirst(d, db, b, n - 1).db, b, v, once);
      NextRun(d, once, b, n);
      TallyReplay(again.counts, CommitUnit(d, once, b, v));
    }
  }

  /** With what the normaliser makes, the second commit recognises every success as its own and
      writes no row at all. */
  lemma SecondIsReplayed(d: Dataset, m: Rules, db: Database, b: Batch)
    requires !d.kind.Flow? && FollowsRules(d, m) && DistinctUnits(b) && (forall v <- b.units :: Marked(d, m, v)) && Committed(d, db, b).Ran?
    ensures var again := Committed(d, Committed(d, db, b).db, b);
      again.Ran? && again.counts.replayed == again.counts.complete + again.counts.noData
  {
    PrefixReplays(d, m, db, b, |b.units|, Committed(d, db, b).db);
  }

  /** Finance rows that were committed before, under whatever request, change neither history nor
      display. */
  lemma KnownFactsStay(d: Dataset, db: Database, b: Batch, v: Verdict)
    requires d.kind.Facts? && CommitUnit(d, db, b, v).Did?
    requires forall f <- FactsOf(d, v.rows) :: Finance.Recorded(Finance.Past(db.ledger.history, f.id), f.content)
    ensures CommitUnit(d, db, b, v).db.ledger == db.ledger
  {
    Finance.FactsReplayed(db.ledger, FactsOf(d, v.rows));
  }

  /* ---------- another verdict ---------- */

  /** Which stored outcomes a batch leaves alone, and what becomes of the others. Off the minute
      period every success stays. A minute success stays exactly when the batch finds it again, by
      an equal proof that still verifies or by an equal reason; otherwise the new verdict is taken,
      so it is taken back, as an error, exactly when the batch says error. */
  lemma KeptExactly(d: Dataset, db: Database, b: Batch, i: nat)
    requires DistinctUnits(b) && Committed(d, db, b).Ran? && i < |b.units|
    ensures var v, after := b.units[i], Committed(d, db, b).db;
      && v.key in db.progress && v.key in after.progress
      && var p, q := db.progress[v.key], after.progress[v.key];
         && p.request == b.request
         && (!Terminal(p.status) ==> TakesVerdict(d, b, p, v, q))
         && (Terminal(p.status) && !d.kind.Minute? ==> q == p)
         && (Terminal(p.status) && d.kind.Minute? ==>
               if p.status == v.status == Complete && d.verified(v.key, p) && p.detail.proof == v.detail.proof then q == p
               else if p.status == v.status == NoData && p.detail.reason == v.detail.reason then q == p
               else TakesVerdict(d, b, p, v, q))
         && (Terminal(p.status) ==> (q.status == Error <==> d.kind.Minute? && v.status == Error))
  {
    var v, all := b.units[i], |b.units|;
    TurnStays(d, db, b, i + 1);
    Untouched(d, db, b, i, v.key);
    UnitTakes(d, CommitFirst(d, db, b, i).db, b, v);
  }

  lemma UnitTakes(d: Dataset, db: Database, b: Batch, v: Verdict)
    requires CommitUnit(d, db, b, v).Did?
    ensures v.key in db.progress && db.progress[v.key].request == b.request
    ensures var p, q := db.progress[v.key], CommitUnit(d, db, b, v).db.progress[v.key];
      if Replays(d, p, v) then q == p else TakesVerdict(d, b, p, v, q)
  {
    NotesMean(db.ledger, FactsOf(d, v.rows), v.detail);
  }

  /** A finance unit's stored notes tell what became of its facts, each in its turn. */
  lemma UnitNotes(d: Dataset, db: Database, b: Batch, v: Verdict)
    requires CommitUnit(d, db, b, v).Did? && d.kind.Facts? && v.status == Complete && !IsReplay(d, db, v)
    ensures var detail, facts := CommitUnit(d, db, b, v).db.progress[v.key].detail, FactsOf(d, v.rows);
      && (detail.notPromoted <==> v.detail.notPromoted || SomeFact(db.ledger, facts, {Finance.Replayed, Finance.Kept}))
      && (detail.baseline <==> v.detail.baseline || SomeFact(db.ledger, facts, {Finance.Baseline}))
  {
    NotesMean(db.ledger, FactsOf(d, v.rows), v.detail);
  }

  /* ---------- when a commit goes through ---------- */

  // A unit that the commit accepts as things stand.
  predicate UnitPasses(d: Dataset, db: Database, b: Batch, v: Verdict) {
    && v.key in db.progress && db.progress[v.key].request == b.request
    && (d.kind.Minute? && v.status == Complete ==> d.proof(v).Some? && v.detail.proof == d.proof(v))
    && (IsReplay(d, db, v) ||
          (&& v.status in {Complete, NoData, Error} && (v.status == Complete <==> v.rows != [])
           && (d.kind.Flow? && v.status == Complete ==> |v.rows| == 1)))
  }

  lemma UnitGoesThrough(d: Dataset, db: Database, b: Batch, v: Verdict)
    requires WritesRows(d)
    ensures CommitUnit(d, db, b, v).Did? <==>
      && UnitPasses(d, db, b, v)
      && ((d.kind.Plain? || d.kind.Minute?) && v.status == Complete && !IsReplay(d, db, v) ==>
            UpsertEach(d.schema, db.table, Values(d, b, v)).Some?)
  {
  }

  lemma SamePasses(d: Dataset, db: Database, b: Batch, n: nat)
    requires n < |b.units| && DistinctUnits(b) && CommitFirst(d, db, b, n).Ran?
    ensures UnitPasses(d, CommitFirst(d, db, b, n).db, b, b.units[n]) <==> UnitPasses(d, db, b, b.units[n])
  {
    Untouched(d, db, b, n, b.units[n].key);
  }

  // What the first n units need.
  predicate MayPass(d: Dataset, db: Database, b: Batch, n: nat)
    requires n <= |b.units|
  {
    && (forall i | 0 <= i < n :: UnitPasses(d, db, b, b.units[i]))
    && (d.kind.Plain? || d.kind.Minute? ==> UpsertEach(d.schema, db.table, DueValues(d, db, b, n)).Some?)
  }

  lemma NextPasses(d: Dataset, db: Database, b: Batch, n: nat, table: Table)
    requires n < |b.units| && TableUpTo(d, db, b, n, table)
    ensures MayPass(d, db, b, n + 1) <==>
      && MayPass(d, db, b, n) && UnitPasses(d, db, b, b.units[n])
      && ((d.kind.Plain? || d.kind.Minute?) && b.units[n].status == Complete && !IsReplay(d, db, b.units[n]) ==>
            UpsertEach(d.schema, table, Values(d, b, b.units[n])).Some?)
  {
    MinuteBulk.EachJoin(d.schema, db.table, DueValues(d, db, b, n), Values(d, b, b.units[n]));
    assert DueValues(d, db, b, n) + [] == DueValues(d, db, b, n);
  }

  lemma FewerPass(d: Dataset, db: Database, b: Batch, n: nat)
    requires n < |b.units|
    ensures MayPass(d, db, b, n + 1) ==> MayPass(d, db, b, n)
  {
    MinuteBulk.EachJoin(d.schema, db.table, DueValues(d, db, b, n), Values(d, b, b.units[n]));
    assert DueValues(d, db, b, n) + [] == DueValues(d, db, b, n);
  }

  lemma {:induction false} PrefixGoesThrough(d: Dataset, db: Database, b: Batch, n: nat)
    requires WritesRows(d) && DistinctUnits(b) && n <= |b.units|
    ensures CommitFirst(d, db, b, n).Ran? <==> MayPass(d, db, b, n)
  {
    if n > 0 {
      PrefixGoesThrough(d, db, b, n - 1);
      FewerPass(d, db, b, n - 1);
      if CommitFirst(d, db, b, n - 1).Ran? {
        PrefixTable(d, db, b, n - 1);
        NextPasses(d, db, b, n - 1, CommitFirst(d, db, b, n - 1).db.table);
        SameReplay(d, db, b, n - 1);
        SamePasses(d, db, b, n - 1);
        UnitGoesThrough(d, CommitFirst(d, db, b, n - 1).db, b, b.units[n - 1]);
      }
    }
  }

  /** A commit of a dataset written row by row goes through exactly when the minute identities of the
      whole batch are distinct, the request owns every unit, every complete minute unit carries the
      proof of its rows, every unit is a replay or an outcome with rows exactly if complete (one row
      for a flow unit), and the row-by-row writer takes all values due. */
  lemma GoesThrough(d: Dataset, db: Database, b: Batch)
    requires WritesRows(d) && DistinctUnits(b)
    ensures Committed(d, db, b).Ran? <==>
      (d.kind.Minute? ==> DistinctKeys(d.schema, AllValues(d, b, |b.units|))) && MayPass(d, db, b, |b.units|)
  {
    PrefixGoesThrough(d, db, b, |b.units|);
  }

  /** Progress rows outside the batch never move. */
  lemma OthersUntouched(d: Dataset, db: Database, b: Batch, u: UnitKey)
    requires Committed(d, db, b).Ran? && (forall v <- b.units :: v.key != u) && u in db.progress
    ensures var after := Committed(d, db, b).db; u in after.progress && after.progress[u] == db.progress[u]
  {
    Untouched(d, db, b, |b.units|, u);
  }

  /* ---------- the store ---------- */

  lemma WriteKeepsValid(d: Dataset, db: Database, b: Batch, v: Verdict)
    requires Valid(d, db) && WritesRows(d) && Write(d, db, b, v).Some?
    ensures var e := Write(d, db, b, v).value; WellKeyed(d.schema, e.table) && Finance.AllChained(e.ledger.history)
  {
    MinuteBulk.EachKeepsWellKeyed(d.schema, db.table, Values(d, b, v));
    Finance.FactsKeep(db.ledger, FactsOf(d, v.rows));
  }

  class BatchStore {
    var db: Database

    constructor (db: Database)
      ensures this.db == db
    {
      this.db := db;
    }

    // The row-by-row writer.
    static method WriteEach(s: Schema, t: Table, rows: seq<Row>) returns (r: Option<Table>)
      ensures r == UpsertEach(s, t, rows)
    {
      var done, i := t, 0;
      while i < |rows|
        invariant 0 <= i <= |rows| && UpsertEach(s, t, rows[..i]) == Some(done)
      {
        assert rows[..i + 1][..i] == rows[..i];
        var next := UpsertRow(s, done, rows[i]);
        if next.None? {
          MinuteBulk.FailureStays(s, t, rows, i + 1);
          return None;
        }
        done, i := next.value, i + 1;
      }
      assert rows[..i] == rows;
      r := Some(done);
    }

    // The finance rows, with their notes.
    static method WriteFacts(l: Finance.Ledger, facts: seq<Finance.Fact>, detail: Detail)
      returns (after: Finance.Ledger, noted: Detail)
      requires Finance.AllChained(l.history)
      ensures after == Finance.FactsCommitted(l, facts) && noted == NotedAll(l, facts, detail)
    {
      var store := new Finance.FinanceStore(l);
      noted := detail;
      var i := 0;
      while i < |facts|
        invariant 0 <= i <= |facts| && fresh(store)
        invariant Finance.AllChained(store.history)
        invariant store.Now() == Finance.FactsCommitted(l, facts[..i]) && noted == NotedAll(l, facts[..i], detail)
      {
        assert facts[..i + 1][..i] == facts[..i];
        var p := store.CommitFact(facts[i]);
        if p.Replayed? || p.Kept? {
          noted := noted.(notPromoted := true);
        } else if p.Baseline? {
          noted := noted.(baseline := true);
        }
        i := i + 1;
      }
      assert facts[..i] == facts;
      after := store.Now();
    }

    // The business rows of one unit, in the dataset's own way.
    static method WriteUnit(d: Dataset, db: Database, b: Batch, v: Verdict) returns (r: Option<Effects>)
      requires Valid(d, db) && WritesRows(d) && (v.status == Complete <==> v.rows != [])
      requires d.kind.Minute? ==> DistinctKeys(d.schema, Values(d, b, v))
      ensures r == Write(d, db, b, v)
    {
      if !Terminal(v.status) || d.kind.Flow? {
        return Some(Effects(db.table, db.ledger, v.detail));
      }
      if d.kind.Facts? {
        var ledger, detail := WriteFacts(db.ledger, FactsOf(d, v.rows), v.detail);
        return Some(Effects(db.table, ledger, detail));
      }
      var table;
      if d.kind.Minute? {
        table := MinuteBulk.UpsertMinuteRows(d.schema, db.table, Values(d, b, v));
      } else {
        table := WriteEach(d.schema, db.table, Values(d, b, v));
      }
      r := if table.None? then None else Some(Effects(table.value, db.ledger, v.detail));
    }

    // One turn of the loop.
    static method CommitOne(d: Dataset, db: Database, b: Batch, v: Verdict) returns (r: Step)
      requires Valid(d, db) && WritesRows(d) && (d.kind.Minute? && v.status == Complete ==> DistinctKeys(d.schema, Values(d, b, v)))
      ensures r == CommitUnit(d, db, b, v) && (r.Did? ==> Valid(d, r.db))
    {
      if v.key !in db.progress || db.progress[v.key].request != b.request {
        return Raised(NotOwner);
      }
      var p := db.progress[v.key];
      if !Evident(d, v) {
        return Raised(BadOutcome);
      }
      if Replays(d, p, v) {
        return Did(db, p.status, true);
      }
      if !Allowed(v) {
        return Raised(BadOutcome);
      }
      if d.kind.Flow? && v.status == Complete {
        return if |v.rows| != 1 then Raised(Refused)
               else Did(db.(progress := db.progress[v.key := StagedAs(p, b, v)]), Complete, false);
      }
      var effects := WriteUnit(d, db, b, v);
      if effects.None? {
        return Raised(Refused);
      }
      WriteKeepsValid(d, db, b, v);
      var e := effects.value;
      r := Did(Database(db.progress[v.key := Settled(p, b, v, e.detail)], e.table, e.ledger), v.status, false);
    }

    // The run so far and its next unit.
    static method Advance(d: Dataset, ghost start: Database, b: Batch, n: nat, now: Database, counts: Counts) returns (r: Run)
      requires Valid(d, now) && WritesRows(d) && n < |b.units| && CommitFirst(d, start, b, n) == Ran(now, counts)
      requires d.kind.Minute? ==> DistinctKeys(d.schema, AllValues(d, b, |b.units|))
      ensures r == CommitFirst(d, start, b, n + 1) && (r.Ran? ==> Valid(d, r.db))
    {
      if d.kind.Minute? {
        UnitValuesDistinct(d, b, n, |b.units|);
      }
      NextRun(d, start, b, n + 1);
      var step := CommitOne(d, now, b, b.units[n]);
      r := match step
        case Raised(why) => Failed(why)
        case Did(after, counted, replayed) => Ran(after, Counted(counts, counted, replayed));
    }

    /** `commit`, one transaction, for the datasets whose rows are written one by one. */
    method Commit(d: Dataset, b: Batch) returns (r: Run)
      requires Valid(d, db) && WritesRows(d)
      modifies this
      ensures r == Committed(d, old(db), b)
      ensures db == (if r.Ran? then r.db else old(db)) && Valid(d, db)
    {
      if d.kind.Minute? {
        var distinct := MinuteBulk.KeysAreDistinct(d.schema, AllValues(d, b, |b.units|));
        if !distinct {
          return Failed(Refused);
        }
      }
      r := Ran(db, Counts(0, 0, 0, 0));
      var n := 0;
      while n < |b.units|
        invariant 0 <= n <= |b.units| && db == old(db)
        invariant r == CommitFirst(d, old(db), b, n) && r.Ran? && Valid(d, r.db)
      {
        r := Advance(d, db, b, n, r.db, r.counts);
        n := n + 1;
        if r.Failed? {
          FailureIsFinal(d, db, b, n, |b.units|);
          return;
        }
      }
      db := r.db;
    }
  }

  lemma {:induction false} FailureIsFinal(d: Dataset, db: Database, b: Batch, n: nat, m: nat)
    requires n <= m <= |b.units| && CommitFirst(d, db, b, n).Failed?
    ensures CommitFirst(d, db, b, m) == CommitFirst(d, db, b, n)
    decreases m
  {
    if n < m {
      FailureIsFinal(d, db, b, n, m - 1);
    }
  }

  // The identities of one unit are distinct if those of the batch are.
  lemma {:induction false} UnitValuesDistinct(d: Dataset, b: Batch, n: nat, m: nat)
    requires n < m <= |b.units| && DistinctKeys(d.schema, AllValues(d, b, m))
    ensures b.units[n].status == Complete ==> DistinctKeys(d.schema, Values(d, b, b.units[n]))
    decreases m
  {
    ValuesSplit(d, b, m - 1);
    if n < m - 1 {
      UnitValuesDistinct(d, b, n, m - 1);
    }
  }
}
