/** The append-only history of finance facts and the display row promoted from it
    (acquisition/store.py, `_append_finance_revision`, `_newer_source_update` and their use in
    `commit`). */
module FinanceRevisions {
  import opened Basics

  // A source's update time as text: unreadable, or a local day and second, the latter only
  // meaningful when the text gives seconds.
  datatype Stamp = Unreadable(text: nat) | Moment(day: int, second: nat, precise: bool)

  /** `_newer_source_update`. */
  predicate Newer(offered: Option<Stamp>, shown: Option<Stamp>) {
    match (offered, shown)
    case (Some(Moment(d, s, p)), Some(Moment(e, t, q))) =>
      if d != e then d > e else p && q && s > t
    case _ => false
  }

  lemma NewerIsStrictOrder(a: Option<Stamp>, b: Option<Stamp>, c: Option<Stamp>)
    ensures !Newer(a, a)
    ensures Newer(a, b) ==> !Newer(b, a)
    ensures Newer(a, b) && Newer(b, c) ==> Newer(a, c)
  {
    if a.Some? && a.value.Moment? && b.Some? && b.value.Moment? && c.Some? && c.value.Moment? {
      assert Newer(a, b) ==> a.value.day >= b.value.day;
    }
  }

  // The order of two readable versions: by day, and within a day by the second if both give one.
  ghost predicate AtLeast(shown: Option<Stamp>, offered: Option<Stamp>) {
    forall d, s, p, e, t, q :: offered == Some(Moment(d, s, p)) && shown == Some(Moment(e, t, q)) ==>
      d <= e && (d == e && p && q ==> s <= t)
  }

  /** A version is passed over exactly when the shown one is at least as late, as far as can be told. */
  lemma NotNewerMeans(offered: Option<Stamp>, shown: Option<Stamp>)
    ensures !Newer(offered, shown) <==> AtLeast(shown, offered)
  {
    if Newer(offered, shown) {
      var o, w := offered.value, shown.value;
      assert offered == Some(Moment(o.day, o.second, o.precise)) && shown == Some(Moment(w.day, w.second, w.precise));
    }
  }

  // A version that is the same or newer.
  predicate NotOlder(offered: Option<Stamp>, shown: Option<Stamp>) {
    offered == shown || Newer(offered, shown)
  }

  datatype Identity = Identity(stock: int, reportDate: int, reportType: int)

  datatype DisplayKey = DisplayKey(stock: int, reportDate: int)

  // `content` is the payload without its receipt columns; its digest is the fingerprint.
  datatype Fact = Fact(id: Identity, version: Option<Stamp>, content: nat)

  datatype Revision = Revision(number: nat, fingerprint: nat, supersedes: Option<nat>)

  datatype Display = Display(version: Option<Stamp>, content: nat)

  datatype Promotion = Replayed | Kept | Promoted | Baseline

  function KeyOf(f: Fact): DisplayKey {
    DisplayKey(f.id.stock, f.id.reportDate)
  }

  type History = map<Identity, seq<Revision>>

  function Past(h: History, id: Identity): seq<Revision> {
    if id in h then h[id] else []
  }

  // Numbers run from one without a gap, and no fingerprint is recorded twice.
  predicate Chained(revisions: seq<Revision>) {
    && (forall i :: 0 <= i < |revisions| ==> revisions[i].number == i + 1)
    && (forall i, j :: 0 <= i < j < |revisions| ==> revisions[i].fingerprint != revisions[j].fingerprint)
    && (forall i :: 0 <= i < |revisions| ==> revisions[i].supersedes.None? || revisions[i].supersedes == Some(i))
  }

  predicate AllChained(h: History) {
    forall id <- h :: Chained(h[id])
  }

  predicate Recorded(revisions: seq<Revision>, fingerprint: nat) {
    exists r <- revisions :: r.fingerprint == fingerprint
  }

  ghost predicate OnlyGrows(before: History, after: History) {
    forall id :: Past(before, id) <= Past(after, id)
  }

  // A version once set on a display row only ever moves up.
  ghost predicate DisplayMovesUp(before: map<DisplayKey, Display>, after: map<DisplayKey, Display>) {
    forall k <- before :: k in after
                          && (before[k].version.Some? ==> NotOlder(after[k].version, before[k].version))
  }

  lemma MovesUpTransitive(a: map<DisplayKey, Display>, b: map<DisplayKey, Display>, c: map<DisplayKey, Display>)
    requires DisplayMovesUp(a, b) && DisplayMovesUp(b, c)
    ensures DisplayMovesUp(a, c)
  {
    forall k <- a | a[k].version.Some? ensures NotOlder(c[k].version, a[k].version) {
      NewerIsStrictOrder(c[k].version, b[k].version, a[k].version);
    }
  }

  // The revision after `past`: it names what it supersedes only if the display row follows it.
  function NextRevision(past: seq<Revision>, f: Fact, promoted: bool): Revision {
    Revision(|past| + 1, f.content, if past != [] && promoted then Some(|past|) else None)
  }

  // The history and the display rows.
  datatype Ledger = Ledger(history: History, display: map<DisplayKey, Display>)

  // What becomes of a fact, and which records it leaves.
  function PromotionOf(l: Ledger, f: Fact): Promotion {
    if Recorded(Past(l.history, f.id), f.content) then Replayed
    else if KeyOf(f) !in l.display then Promoted
    else if l.display[KeyOf(f)].version.None? then Baseline
    else if Newer(f.version, l.display[KeyOf(f)].version) then Promoted
    else Kept
  }

  function FactCommitted(l: Ledger, f: Fact): Ledger {
    var p, past := PromotionOf(l, f), Past(l.history, f.id);
    Ledger(
      if p.Replayed? then l.history else l.history[f.id := past + [NextRevision(past, f, !p.Kept?)]],
      if p.Replayed? || p.Kept? then l.display else l.display[KeyOf(f) := Display(f.version, f.content)])
  }

  function FactsCommitted(l: Ledger, facts: seq<Fact>): Ledger {
    if facts == [] then l else FactCommitted(FactsCommitted(l, facts[..|facts| - 1]), facts[|facts| - 1])
  }

  ghost predicate Follows(before: Ledger, after: Ledger) {
    && AllChained(after.history) && OnlyGrows(before.history, after.history)
    && DisplayMovesUp(before.display, after.display)
  }

  lemma RecordedStays(before: seq<Revision>, after: seq<Revision>, fingerprint: nat)
    requires before <= after && Recorded(before, fingerprint)
    ensures Recorded(after, fingerprint)
  {
    var r :| r in before && r.fingerprint == fingerprint;
    assert r in after;
  }

  lemma AllStayRecorded(before: History, after: History, facts: seq<Fact>)
    requires OnlyGrows(before, after) && forall f <- facts :: Recorded(Past(before, f.id), f.content)
    ensures forall f <- facts :: Recorded(Past(after, f.id), f.content)
  {
    forall f <- facts ensures Recorded(Past(after, f.id), f.content) {
      RecordedStays(Past(before, f.id), Past(after, f.id), f.content);
    }
  }

  lemma NextIsChained(past: seq<Revision>, f: Fact, promoted: bool)
    requires Chained(past) && !Recorded(past, f.content)
    ensures Chained(past + [NextRevision(past, f, promoted)]) && Recorded(past + [NextRevision(past, f, promoted)], f.content)
  {
    var next := NextRevision(past, f, promoted);
    assert forall i :: 0 <= i < |past| ==> past[i] in past;
    assert next in past + [next];
  }

  lemma FactKeeps(l: Ledger, f: Fact)
    requires AllChained(l.history)
    ensures Follows(l, FactCommitted(l, f)) && Recorded(Past(FactCommitted(l, f).history, f.id), f.content)
  {
    var past, p := Past(l.history, f.id), PromotionOf(l, f);
    if !p.Replayed? {
      NextIsChained(past, f, !p.Kept?);
    }
  }

  // One row more.
  lemma FollowsOn(l: Ledger, middle: Ledger, f: Fact)
    requires Follows(l, middle)
    ensures Follows(l, FactCommitted(middle, f)) && OnlyGrows(middle.history, FactCommitted(middle, f).history)
    ensures Recorded(Past(FactCommitted(middle, f).history, f.id), f.content)
  {
    FactKeeps(middle, f);
    MovesUpTransitive(l.display, middle.display, FactCommitted(middle, f).display);
  }

  /** Any sequence of rows: every chain stays whole and only grows, every fact is recorded, and no
      display row ever steps back. */
  lemma {:induction false} FactsKeep(l: Ledger, facts: seq<Fact>)
    requires AllChained(l.history)
    ensures Follows(l, FactsCommitted(l, facts))
    ensures forall f <- facts :: Recorded(Past(FactsCommitted(l, facts).history, f.id), f.content)
  {
    if facts != [] {
      var front, last := facts[..|facts| - 1], facts[|facts| - 1];
      var middle := FactsCommitted(l, front);
      FactsKeep(l, front);
      FollowsOn(l, middle, last);
      AllStayRecorded(middle.history, FactCommitted(middle, last).history, front);
      assert facts == front + [last];
    }
  }

  /** Rows that were committed before change nothing when they are committed again. */
  lemma {:induction false} FactsReplayed(l: Ledger, facts: seq<Fact>)
    requires forall f <- facts :: Recorded(Past(l.history, f.id), f.content)
    ensures FactsCommitted(l, facts) == l
  {
    if facts != [] {
      var front, last := facts[..|facts| - 1], facts[|facts| - 1];
      assert facts == front + [last];
      assert last in facts;
      FactsReplayed(l, front);
    }
  }

  /* ---------- the display row is the latest fact ---------- */

  const EMPTY := Ledger(map[], map[])

  // The update time is a column of the payload, and so part of the content.
  predicate Stamped(facts: seq<Fact>, versionOf: nat -> Option<Stamp>) {
    forall f <- facts :: f.version == versionOf(f.content)
  }

  predicate ShowsOne(shown: Display, key: DisplayKey, facts: seq<Fact>) {
    exists g <- facts :: KeyOf(g) == key && shown == Display(g.version, g.content)
  }

  // No fact of the row is later than what it shows; a fact with a version is not hidden behind one without.
  ghost predicate Shows(display: map<DisplayKey, Display>, f: Fact) {
    && KeyOf(f) in display
    && AtLeast(display[KeyOf(f)].version, f.version)
    && (f.version.Some? ==> display[KeyOf(f)].version.Some?)
  }

  ghost predicate AllFromFacts(h: History, facts: seq<Fact>) {
    forall id, c: nat :: Recorded(Past(h, id), c) ==> exists g <- facts :: g.id == id && g.content == c
  }

  /** Whatever facts are committed, in whatever order: each display row shows one of its own facts,
      and none of the others is known to be later. */
  lemma {:induction false} LatestIsShown(facts: seq<Fact>, versionOf: nat -> Option<Stamp>)
    requires Stamped(facts, versionOf)
    ensures var after := FactsCommitted(EMPTY, facts);
      && AllFromFacts(after.history, facts)
      && (forall f <- facts :: Shows(after.display, f))
      && (forall k <- after.display :: ShowsOne(after.display[k], k, facts))
  {
    if facts != [] {
      var front, last := facts[..|facts| - 1], facts[|facts| - 1];
      assert facts == front + [last];
      LatestIsShown(front, versionOf);
      var before := FactsCommitted(EMPTY, front);
      OneMoreShown(before, front, last, versionOf);
    }
  }

  lemma OneMoreShown(before: Ledger, front: seq<Fact>, last: Fact, versionOf: nat -> Option<Stamp>)
    requires Stamped(front + [last], versionOf) && AllFromFacts(before.history, front)
    requires forall f <- front :: Shows(before.display, f)
    requires forall k <- before.display :: ShowsOne(before.display[k], k, front)
    ensures var after := FactCommitted(before, last);
      && AllFromFacts(after.history, front + [last])
      && (forall f <- front + [last] :: Shows(after.display, f))
      && (forall k <- after.display :: ShowsOne(after.display[k], k, front + [last]))
  {
    var after, facts := FactCommitted(before, last), front + [last];
    assert last in facts && forall f <- front :: f in facts;
    HistoryFromFacts(before, front, last);
    forall k <- after.display ensures ShowsOne(after.display[k], k, facts) {
      if k in before.display && after.display[k] == before.display[k] {
        var g :| g in front && KeyOf(g) == k && before.display[k] == Display(g.version, g.content);
        assert g in facts;
      }
    }
    forall f <- facts ensures Shows(after.display, f) {
      if f in front {
        StillShown(before, f, last);
      } else {
        LastShown(before, front, last, versionOf);
      }
    }
  }

  lemma HistoryFromFacts(before: Ledger, front: seq<Fact>, last: Fact)
    requires AllFromFacts(before.history, front)
    ensures AllFromFacts(FactCommitted(before, last).history, front + [last])
  {
    var after, facts := FactCommitted(before, last), front + [last];
    forall id, c: nat | Recorded(Past(after.history, id), c) ensures exists g <- facts :: g.id == id && g.content == c {
      if Recorded(Past(before.history, id), c) {
        var g :| g in front && g.id == id && g.content == c;
        assert g in facts;
      } else {
        assert last in facts && last.id == id && last.content == c;
      }
    }
  }

  // What is shown stays, or gives way to something newer or to a first version.
  lemma StillShown(before: Ledger, f: Fact, last: Fact)
    requires Shows(before.display, f)
    ensures Shows(FactCommitted(before, last).display, f)
  {
    var shown := before.display[KeyOf(f)].version;
    NotNewerMeans(f.version, shown);
    NotNewerMeans(f.version, last.version);
    NewerIsStrictOrder(f.version, last.version, shown);
  }

  lemma LastShown(before: Ledger, front: seq<Fact>, last: Fact, versionOf: nat -> Option<Stamp>)
    requires Stamped(front + [last], versionOf) && AllFromFacts(before.history, front)
    requires forall f <- front :: Shows(before.display, f)
    ensures Shows(FactCommitted(before, last).display, last)
  {
    if PromotionOf(before, last).Replayed? {
      var g :| g in front && g.id == last.id && g.content == last.content;
      assert g in front + [last] && last in front + [last];
    } else {
      NewerIsStrictOrder(last.version, last.version, last.version);
      NotNewerMeans(last.version, last.version);
      if KeyOf(last) in before.display {
        NotNewerMeans(last.version, before.display[KeyOf(last)].version);
      }
    }
  }

  class FinanceStore {
    var history: History
    var display: map<DisplayKey, Display>

    constructor (ledger: Ledger)
      ensures Now() == ledger
    {
      history, display := ledger.history, ledger.display;
    }

    function Now(): Ledger
      reads this
    {
      Ledger(history, display)
    }

    // The highest number so far, as the descending order of the query gives it.
    static method LatestNumber(revisions: seq<Revision>) returns (n: nat)
      requires Chained(revisions)
      ensures n == |revisions|
    {
      n := 0;
      var i := 0;
      while i < |revisions|
        invariant 0 <= i <= |revisions| && n == i
      {
        if revisions[i].number > n {
          n := revisions[i].number;
        }
        i := i + 1;
      }
    }

    /** `_append_finance_revision`. */
    method AppendRevision(f: Fact) returns (p: Promotion)
      requires AllChained(history)
      modifies this`history
      ensures p == PromotionOf(old(Now()), f)
      ensures history == FactCommitted(old(Now()), f).history
      ensures p.Replayed? <==> Recorded(Past(old(history), f.id), f.content)
      ensures p.Replayed? ==> history == old(history)
      ensures var past := Past(old(history), f.id);
        !p.Replayed? ==> history == old(history)[f.id := past + [
          Revision(|past| + 1, f.content, if past != [] && !p.Kept? then Some(|past|) else None)]]
      ensures p.Baseline? ==> KeyOf(f) in display && display[KeyOf(f)].version.None?
      ensures p.Promoted? ==> KeyOf(f) !in display || Newer(f.version, display[KeyOf(f)].version)
      ensures p.Kept? ==> KeyOf(f) in display && display[KeyOf(f)].version.Some? && !Newer(f.version, display[KeyOf(f)].version)
    {
      var previous := Past(history, f.id);
      if Recorded(previous, f.content) {
        return Replayed;
      }
      var key := KeyOf(f);
      var baseline := key in display && display[key].version.None?;
      var promote := key !in display || baseline || Newer(f.version, display[key].version);
      var latest := LatestNumber(previous);
      var supersedes := if previous != [] && promote then Some(latest) else None;
      var revision := Revision(latest + 1, f.content, supersedes);
      history := history[f.id := previous + [revision]];
      p := if baseline then Baseline else if promote then Promoted else Kept;
    }

    /** One finance row of a commit: the history first, then the display row unless it stays. */
    method CommitFact(f: Fact) returns (p: Promotion)
      requires AllChained(history)
      modifies this
      ensures p == PromotionOf(old(Now()), f) && Now() == FactCommitted(old(Now()), f)
      ensures Follows(old(Now()), Now()) && Recorded(Past(history, f.id), f.content)
      ensures display == if p.Replayed? || p.Kept? then old(display) else old(display)[KeyOf(f) := Display(f.version, f.content)]
    {
      FactKeeps(Now(), f);
      p := AppendRevision(f);
      if p.Promoted? || p.Baseline? {
        display := display[KeyOf(f) := Display(f.version, f.content)];
      }
    }

    /** Any sequence of rows. */
    method CommitFacts(facts: seq<Fact>)
      requires AllChained(history)
      modifies this
      ensures Now() == FactsCommitted(old(Now()), facts) && Follows(old(Now()), Now())
      ensures forall f <- facts :: Recorded(Past(history, f.id), f.content)
    {
      var i := 0;
      while i < |facts|
        invariant 0 <= i <= |facts|
        invariant AllChained(history) && Now() == FactsCommitted(old(Now()), facts[..i])
      {
        assert facts[..i + 1][..i] == facts[..i];
        var _ := CommitFact(facts[i]);
        i := i + 1;
      }
      assert facts[..i] == facts;
      FactsKeep(old(Now()), facts);
    }

    /** Rows that were committed before change nothing when they are committed again. */
    method Replay(facts: seq<Fact>)
      requires AllChained(history)
      requires forall f <- facts :: Recorded(Past(history, f.id), f.content)
      modifies this
      ensures history == old(history) && display == old(display)
    {
      FactsReplayed(Now(), facts);
      CommitFacts(facts);
    }
  }
}
