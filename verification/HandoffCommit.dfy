/** The hand-off sees of a database only who owns a unit and how it stands. What `begin_request` and
    `commit` do to the whole database is, seen this way, what the hand-off takes them to do
    (acquisition/store.py). */
module HandoffCommit {
  import opened Basics
  import Handoff
  import HandoffRunner
  import opened BatchCommit

  type Table = map<UnitKey, Progress>

  function Standing(s: Status): Handoff.Progress {
    match s
    case Running => Handoff.Running
    case Staged => Handoff.Done(Handoff.Staged)
    case Complete => Handoff.Done(Handoff.Complete)
    case NoData => Handoff.Done(Handoff.NoData)
    case Error => Handoff.Done(Handoff.Error)
  }

  function Seen(t: Table): map<UnitKey, Handoff.Row> {
    map u | u in t :: Handoff.Row(t[u].request, Standing(t[u].status))
  }

  /* ---------- begin_request ---------- */

  const NOTHING := Detail(None, 0, 0, None, None, false, false, 0)

  // A unit that the request does not own yet starts over; what it wrote before is kept.
  function Begun(t: Table, units: seq<UnitKey>, request: Id, now: Instant): Table {
    map u | u in t.Keys + (set v | v in units) ::
      if u !in t then Progress(Running, request, 0, now, None, None, None, NOTHING)
      else if u !in units || t[u].request == request then t[u]
      else t[u].(status := Running, request := request, updated := now, retry := None, error := None)
  }

  lemma BeginIsSeen(t: Table, units: seq<UnitKey>, request: Id, now: Instant)
    ensures Seen(Begun(t, units, request, now)) == HandoffRunner.BeginRows(Seen(t), units, request)
  {
  }

  /** A unit that starts over keeps what it has written, when it last succeeded and what it noted; one
      that nothing is known of starts with nothing. */
  lemma BegunKeeps(t: Table, units: seq<UnitKey>, request: Id, now: Instant, u: UnitKey)
    requires u in units && !(u in t && t[u].request == request)
    ensures var q := Begun(t, units, request, now)[u];
      && q.status == Running && q.request == request && q.updated == now && q.retry == None && q.error == None
      && (u in t ==> q.written == t[u].written && q.success == t[u].success && q.detail == t[u].detail)
      && (u !in t ==> q.written == 0 && q.success == None)
  {
  }

  /* ---------- commit ---------- */

  function Keys(b: Batch): (keys: seq<UnitKey>)
    ensures |keys| == |b.units| && forall i :: 0 <= i < |keys| ==> keys[i] == b.units[i].key
  {
    seq(|b.units|, i requires 0 <= i < |b.units| => b.units[i].key)
  }

  function OutcomeOf(s: Status): Handoff.Outcome {
    match s
    case Staged => Handoff.Staged
    case Complete => Handoff.Complete
    case NoData => Handoff.NoData
    case _ => Handoff.Error
  }

  // The verdicts that this commit came to.
  function JudgeOf(after: Database): HandoffRunner.Judge {
    (r: Handoff.Result, u: UnitKey, p: Handoff.Progress) =>
      if u in after.progress then OutcomeOf(after.progress[u].status) else Handoff.Error
  }

  lemma SettledStatus(d: Dataset, db: Database, b: Batch, i: nat)
    requires DistinctUnits(b) && Committed(d, db, b).Ran? && i < |b.units|
    ensures var u, after := b.units[i].key, Committed(d, db, b).db;
      && u in db.progress && u in after.progress
      && after.progress[u].request == db.progress[u].request == b.request && after.progress[u].status != Running
  {
    TurnStays(d, db, b, i + 1);
    Untouched(d, db, b, i, b.units[i].key);
    UnitSettles(d, CommitFirst(d, db, b, i).db, b, b.units[i]);
  }

  lemma UnitSettles(d: Dataset, db: Database, b: Batch, v: Verdict)
    requires CommitUnit(d, db, b, v).Did?
    ensures v.key in db.progress && db.progress[v.key].request == b.request
    ensures var q := CommitUnit(d, db, b, v).db.progress[v.key];
      q.request == b.request && q.status != Running && OutcomeCounts(CommitUnit(d, db, b, v).counted, q.status)
  {
  }

  predicate OutcomeCounts(counted: Status, status: Status) {
    counted == if status == Staged then Complete else status
  }

  lemma KeysStay(d: Dataset, db: Database, b: Batch, n: nat)
    requires n <= |b.units| && CommitFirst(d, db, b, n).Ran?
    ensures CommitFirst(d, db, b, n).db.progress.Keys == db.progress.Keys
  {
    if n > 0 {
      KeysStay(d, db, b, n - 1);
      UnitElsewhere(d, CommitFirst(d, db, b, n - 1).db, b, b.units[n - 1]);
    }
  }

  // The batch's units are owned and settled; no other progress row moves.
  lemma WhatMoves(d: Dataset, db: Database, b: Batch)
    requires DistinctUnits(b) && Committed(d, db, b).Ran?
    ensures var after := Committed(d, db, b).db;
      && after.progress.Keys == db.progress.Keys
      && (forall u <- Keys(b) ::
            u in db.progress && after.progress[u].status != Running && after.progress[u].request == db.progress[u].request == b.request)
      && forall u <- db.progress :: u !in Keys(b) ==> after.progress[u] == db.progress[u]
  {
    KeysStay(d, db, b, |b.units|);
    var after := Committed(d, db, b).db;
    forall u <- Keys(b)
      ensures u in db.progress && after.progress[u].status != Running && after.progress[u].request == db.progress[u].request == b.request
    {
      var i :| 0 <= i < |b.units| && b.units[i].key == u;
      SettledStatus(d, db, b, i);
    }
    forall u <- db.progress | u !in Keys(b) ensures after.progress[u] == db.progress[u] {
      forall v <- b.units ensures v.key != u {
        var i :| 0 <= i < |b.units| && b.units[i] == v;
        assert Keys(b)[i] == v.key;
      }
      OthersUntouched(d, db, b, u);
    }
  }

  /** A commit that goes through is a settlement by its own verdicts, and only a request that owns
      every unit gets that far. */
  lemma CommitIsSeen(d: Dataset, db: Database, b: Batch, r: Handoff.Result)
    requires DistinctUnits(b) && Committed(d, db, b).Ran?
    ensures var after := Committed(d, db, b).db;
      && HandoffRunner.SettleRows(Seen(db.progress), Keys(b), r, JudgeOf(after)) == Seen(after.progress)
      && Handoff.Owns(Seen(db.progress), Handoff.Request(b.request, Keys(b)))
  {
    WhatMoves(d, db, b);
  }

  /** A batch whose request has lost a unit writes nothing at all. */
  lemma LostUnitFails(d: Dataset, db: Database, b: Batch, i: nat)
    requires i < |b.units| && DistinctUnits(b)
    requires b.units[i].key !in db.progress || db.progress[b.units[i].key].request != b.request
    ensures Committed(d, db, b).Failed?
  {
    if Committed(d, db, b).Ran? {
      SettledStatus(d, db, b, i);
    }
  }

  // How the first n units of a batch stand.
  predicate Stand(t: Table, b: Batch, n: nat)
    requires n <= |b.units|
  {
    forall i | 0 <= i < n :: b.units[i].key in t && t[b.units[i].key].status != Running
  }

  function Standings(t: Table, b: Batch, n: nat): HandoffRunner.Counts
    requires n <= |b.units| && Stand(t, b, n)
  {
    if n == 0 then HandoffRunner.Counts(0, 0, 0)
    else HandoffRunner.Counted(Standings(t, b, n - 1), OutcomeOf(t[b.units[n - 1].key].status))
  }

  lemma StandingsAreSeen(t: Table, b: Batch, n: nat)
    requires n <= |b.units| && Stand(t, b, n)
    ensures forall u <- Keys(b)[..n] :: u in Seen(t) && Seen(t)[u].status.Done?
    ensures HandoffRunner.CountRows(Seen(t), Keys(b)[..n]) == Standings(t, b, n)
  {
    if n > 0 {
      StandingsAreSeen(t, b, n - 1);
      assert Keys(b)[..n] == Keys(b)[..n - 1] + [b.units[n - 1].key];
      assert Keys(b)[..n][..n - 1] == Keys(b)[..n - 1];
    }
  }

  predicate SameCounts(c: Counts, h: HandoffRunner.Counts) {
    c.complete == h.complete && c.noData == h.noData && c.error == h.error
  }

  lemma TallyStands(c: Counts, h: HandoffRunner.Counts, step: Step, status: Status)
    requires SameCounts(c, h) && step.Did? && status != Running && OutcomeCounts(step.counted, status)
    ensures Tallied(c, step).Ran? && SameCounts(Tallied(c, step).counts, HandoffRunner.Counted(h, OutcomeOf(status)))
  {
  }

  // The unit's progress row is the one that its turn left.
  predicate LeftAt(d: Dataset, db: Database, b: Batch, i: nat, t: Table) {
    && i < |b.units| && CommitFirst(d, db, b, i + 1).Ran?
    && var u, left := b.units[i].key, CommitFirst(d, db, b, i + 1).db.progress;
       u in left && u in t && t[u] == left[u]
  }

  lemma {:induction false} CountsStand(d: Dataset, db: Database, b: Batch, n: nat, t: Table)
    requires n <= |b.units| && CommitFirst(d, db, b, n).Ran? && Stand(t, b, n)
    requires forall i | 0 <= i < n :: LeftAt(d, db, b, i, t)
    ensures SameCounts(CommitFirst(d, db, b, n).counts, Standings(t, b, n))
  {
    if n > 0 {
      CountsStand(d, db, b, n - 1, t);
      var before, v := CommitFirst(d, db, b, n - 1), b.units[n - 1];
      assert LeftAt(d, db, b, n - 1, t);
      NextRun(d, db, b, n);
      UnitSettles(d, before.db, b, v);
      TallyStands(before.counts, Standings(t, b, n - 1), CommitUnit(d, before.db, b, v), t[v.key].status);
    }
  }

  lemma AllLeft(d: Dataset, db: Database, b: Batch)
    requires DistinctUnits(b) && Committed(d, db, b).Ran?
    ensures var t := Committed(d, db, b).db.progress;
      Stand(t, b, |b.units|) && forall i | 0 <= i < |b.units| :: LeftAt(d, db, b, i, t)
  {
    var n, t := |b.units|, Committed(d, db, b).db.progress;
    forall i | 0 <= i < n ensures LeftAt(d, db, b, i, t) && t[b.units[i].key].status != Running {
      ProgressStays(d, db, b, i + 1, n);
      SettledStatus(d, db, b, i);
    }
  }

  /** The counts of a commit are those of the outcomes the hand-off then sees. */
  lemma CommitCounts(d: Dataset, db: Database, b: Batch)
    requires DistinctUnits(b) && Committed(d, db, b).Ran?
    ensures var run := Committed(d, db, b); var seen := Seen(run.db.progress);
      && (forall u <- Keys(b) :: u in seen && seen[u].status.Done?)
      && SameCounts(run.counts, HandoffRunner.CountRows(seen, Keys(b)))
  {
    var n, t := |b.units|, Committed(d, db, b).db.progress;
    AllLeft(d, db, b);
    CountsStand(d, db, b, n, t);
    StandingsAreSeen(t, b, n);
    assert Keys(b)[..n] == Keys(b);
  }
}
