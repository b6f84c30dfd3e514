/** The bulk form of the minute writer and its agreement with the row-by-row form
    (acquisition/store.py, `_upsert_minute_rows` and the checks of `commit` before it). */
module MinuteBulk {
  import opened Basics
  import opened MinuteUpsert

  type Shape = set<Column>

  // One parameter set of a bulk statement.
  datatype Write = Write(key: Key, plan: Plan)

  function ShapeOf(plan: Plan): Shape {
    match plan
    case Insert(values) => values.cells.Keys
    case Update(changed) => changed.cells.Keys
    case Refuse => {}
  }

  function CountKey(s: Schema, rows: seq<Row>, k: Key): nat {
    if rows == [] then 0
    else CountKey(s, rows[..|rows| - 1], k) + if KeyOf(s, rows[|rows| - 1]) == k then 1 else 0
  }

  lemma CountAppend(s: Schema, rows: seq<Row>, r: Row, k: Key)
    ensures CountKey(s, rows + [r], k) == CountKey(s, rows, k) + if KeyOf(s, r) == k then 1 else 0
  {
    assert (rows + [r])[..|rows|] == rows;
  }

  lemma {:induction false} CountAll(s: Schema, rows: seq<Row>, k: Key)
    requires forall r <- rows :: KeyOf(s, r) == k
    ensures CountKey(s, rows, k) == |rows|
    ensures forall h :: h != k ==> CountKey(s, rows, h) == 0
  {
    if rows != [] {
      CountAll(s, rows[..|rows| - 1], k);
    }
  }

  lemma {:induction false} CountJoin(s: Schema, a: seq<Row>, b: seq<Row>, k: Key)
    ensures CountKey(s, a + b, k) == CountKey(s, a, k) + CountKey(s, b, k)
  {
    if b == [] {
      assert a + b == a;
    } else {
      var front, last := b[..|b| - 1], b[|b| - 1];
      assert a + b == (a + front) + [last] && b == front + [last];
      CountJoin(s, a, front, k);
      CountAppend(s, a + front, last, k);
      CountAppend(s, front, last, k);
    }
  }

  lemma {:induction false} CountTake(s: Schema, rows: seq<Row>, n: nat, k: Key)
    requires n <= |rows|
    ensures CountKey(s, rows[..n], k) <= CountKey(s, rows, k)
  {
    assert rows == rows[..n] + rows[n..];
    CountJoin(s, rows[..n], rows[n..], k);
  }

  /** `select ... where <any of the keys> limit n`: which rows are left out is up to the
      database. */
  method Select(s: Schema, t: Table, keys: set<Key>, limit: nat) returns (found: seq<Row>)
    requires WellKeyed(s, t)
    ensures |found| <= limit
    ensures forall r <- found :: KeyOf(s, r) in keys && r in Rows(t, KeyOf(s, r))
    ensures forall k <- keys :: CountKey(s, found, k) <= |Rows(t, k)|
    ensures |found| < limit ==> forall k <- keys :: CountKey(s, found, k) == |Rows(t, k)|
  {
    var all: seq<Row>, todo := [], keys;
    while todo != {}
      invariant todo <= keys
      invariant forall r <- all :: KeyOf(s, r) in keys && r in Rows(t, KeyOf(s, r))
      invariant forall k <- keys :: CountKey(s, all, k) == if k in todo then 0 else |Rows(t, k)|
    {
      var key :| key in todo;
      forall k <- keys ensures CountKey(s, all + Rows(t, key), k) == CountKey(s, all, k) + if k == key then |Rows(t, key)| else 0 {
        CountJoin(s, all, Rows(t, key), k);
        CountAll(s, Rows(t, key), key);
      }
      all := all + Rows(t, key);
      todo := todo - {key};
    }
    found := if |all| <= limit then all else all[..limit];
    forall k <- keys ensures CountKey(s, found, k) <= |Rows(t, k)| {
      if |all| > limit {
        CountTake(s, all, limit, k);
      }
    }
  }

  function KeysOf(s: Schema, rows: seq<Row>): set<Key> {
    set r | r in rows :: KeyOf(s, r)
  }

  lemma {:induction false} FewKeys(s: Schema, rows: seq<Row>)
    ensures |KeysOf(s, rows)| <= |rows|
  {
    if rows != [] {
      var front, last := rows[..|rows| - 1], rows[|rows| - 1];
      FewKeys(s, front);
      assert rows == front + [last];
      assert KeysOf(s, rows) == KeysOf(s, front) + {KeyOf(s, last)};
    }
  }

  // `previous` holds the one row of each wanted key that has a row among `matches`.
  predicate Indexed(s: Schema, matches: seq<Row>, wanted: set<Key>, previous: map<Key, Row>) {
    && |previous.Keys| == |matches|
    && (forall k <- wanted :: CountKey(s, matches, k) == if k in previous then 1 else 0)
    && (forall k <- previous :: k in wanted && previous[k] in matches && KeyOf(s, previous[k]) == k)
  }

  lemma CountNext(s: Schema, matches: seq<Row>, i: nat, k: Key)
    requires i < |matches|
    ensures matches[..i + 1] == matches[..i] + [matches[i]]
    ensures CountKey(s, matches[..i + 1], k) == CountKey(s, matches[..i], k) + if KeyOf(s, matches[i]) == k then 1 else 0
  {
    assert matches[..i + 1] == matches[..i] + [matches[i]];
    CountAppend(s, matches[..i], matches[i], k);
  }

  lemma IndexNext(s: Schema, matches: seq<Row>, i: nat, wanted: set<Key>, previous: map<Key, Row>)
    requires i < |matches| && Indexed(s, matches[..i], wanted, previous)
    requires KeyOf(s, matches[i]) in wanted && KeyOf(s, matches[i]) !in previous
    ensures Indexed(s, matches[..i + 1], wanted, previous[KeyOf(s, matches[i]) := matches[i]])
  {
    var m := matches[i];
    var after := previous[KeyOf(s, m) := m];
    OneMoreKey(previous, KeyOf(s, m), m);
    forall k <- wanted ensures CountKey(s, matches[..i + 1], k) == if k in after then 1 else 0 {
      CountNext(s, matches, i, k);
    }
    assert m == matches[..i + 1][i];
    assert forall q <- matches[..i] :: q in matches[..i + 1];
  }

  lemma OneMoreKey<K, V>(previous: map<K, V>, k: K, v: V)
    requires k !in previous
    ensures |previous[k := v].Keys| == |previous.Keys| + 1
  {
    assert previous[k := v].Keys == previous.Keys + {k};
  }

  lemma FoundTwice(s: Schema, matches: seq<Row>, i: nat, wanted: set<Key>, previous: map<Key, Row>)
    requires i < |matches| && Indexed(s, matches[..i], wanted, previous)
    requires KeyOf(s, matches[i]) in wanted && KeyOf(s, matches[i]) in previous
    ensures CountKey(s, matches, KeyOf(s, matches[i])) > 1
  {
    var m := matches[i];
    assert matches[..i + 1] == matches[..i] + [m];
    CountAppend(s, matches[..i], m, KeyOf(s, m));
    CountTake(s, matches, i + 1, KeyOf(s, m));
  }

  // One fetched row joins the index, unless its key is there already.
  method IndexOne(s: Schema, wanted: set<Key>, matches: seq<Row>, i: nat, previous: map<Key, Row>)
    returns (r: Option<map<Key, Row>>)
    requires i < |matches| && Indexed(s, matches[..i], wanted, previous) && KeyOf(s, matches[i]) in wanted
    ensures r.None? ==> CountKey(s, matches, KeyOf(s, matches[i])) > 1
    ensures r.Some? ==> Indexed(s, matches[..i + 1], wanted, r.value)
  {
    var identity := KeyOf(s, matches[i]);
    if identity !in wanted || identity in previous {
      FoundTwice(s, matches, i, wanted, previous);
      return None;
    }
    IndexNext(s, matches, i, wanted, previous);
    r := Some(previous[identity := matches[i]]);
  }

  // What the fetched rows tell about each wanted key; nothing if two of them share a key.
  method IndexMatches(s: Schema, wanted: set<Key>, matches: seq<Row>) returns (r: Option<map<Key, Row>>)
    requires forall m <- matches :: KeyOf(s, m) in wanted
    ensures r.None? ==> exists k <- wanted :: CountKey(s, matches, k) > 1
    ensures r.Some? ==> |matches| <= |wanted| && Indexed(s, matches, wanted, r.value)
  {
    r := Some(map[]);
    var i := 0;
    while i < |matches|
      invariant 0 <= i <= |matches|
      invariant r.Some? && Indexed(s, matches[..i], wanted, r.value)
    {
      assert matches[i] in matches;
      r := IndexOne(s, wanted, matches, i, r.value);
      if r.None? {
        return;
      }
      i := i + 1;
    }
    assert matches[..i] == matches;
    Smaller(r.value.Keys, wanted);
  }

  // The rows of each wanted key are exactly those that the index shows.
  predicate Shows(s: Schema, t: Table, wanted: set<Key>, previous: map<Key, Row>) {
    forall k <- wanted :: Rows(t, k) == if k in previous then [previous[k]] else []
  }

  /** Looking for one row more than there are keys is enough: a duplicate under any wanted key
      either shows up among the rows fetched or makes them one too many. */
  method FetchPrevious(s: Schema, t: Table, chunk: seq<Row>) returns (r: Option<map<Key, Row>>)
    requires WellKeyed(s, t)
    ensures r.None? <==> exists k <- KeysOf(s, chunk) :: |Rows(t, k)| > 1
    ensures r.Some? ==> Shows(s, t, KeysOf(s, chunk), r.value)
  {
    var wanted := KeysOf(s, chunk);
    var matches := Select(s, t, wanted, |chunk| + 1);
    FewKeys(s, chunk);
    r := IndexMatches(s, wanted, matches);
    if r.Some? {
      IndexShows(s, t, wanted, matches, r.value);
    } else {
      ghost var k :| k in wanted && CountKey(s, matches, k) > 1;
      assert |Rows(t, k)| > 1;
    }
  }

  lemma IndexShows(s: Schema, t: Table, wanted: set<Key>, matches: seq<Row>, previous: map<Key, Row>)
    requires Indexed(s, matches, wanted, previous)
    requires forall r <- matches :: KeyOf(s, r) in wanted && r in Rows(t, KeyOf(s, r))
    requires forall k <- wanted :: CountKey(s, matches, k) == |Rows(t, k)|
    ensures Shows(s, t, wanted, previous) && forall k <- wanted :: |Rows(t, k)| <= 1
  {
    forall k <- wanted ensures |Rows(t, k)| <= 1 && Rows(t, k) == if k in previous then [previous[k]] else [] {
      if k in previous {
        assert previous[k] in Rows(t, k);
      }
    }
  }

  /* ---------- planning ---------- */

  datatype Kind = Updates | Inserts

  // A row that changes nothing on its stored copy is not written at all.
  predicate Selected(kind: Kind, plan: Plan) {
    match kind
    case Updates => plan.Update? && plan.changed.cells != map[]
    case Inserts => plan.Insert?
  }

  function WriteOf(s: Schema, t: Table, r: Row): Write {
    Write(KeyOf(s, r), PlanFor(s, t, r))
  }

  type Groups = map<Shape, seq<Write>>

  predicate NoKeyTwice(ws: seq<Write>) {
    forall i, j :: 0 <= i < j < |ws| ==> ws[i].key != ws[j].key
  }

  // Every selected write of `rows` is in the group of its shape, once, and nothing else is.
  predicate Grouped(s: Schema, t: Table, rows: seq<Row>, kind: Kind, groups: Groups) {
    && (forall shape <- groups :: NoKeyTwice(groups[shape]) && forall w <- groups[shape] ::
          ShapeOf(w.plan) == shape && Selected(kind, w.plan) && IsWriteOf(s, t, rows, w))
    && (forall r <- rows :: Selected(kind, PlanFor(s, t, r)) ==>
          ShapeOf(PlanFor(s, t, r)) in groups && WriteOf(s, t, r) in groups[ShapeOf(PlanFor(s, t, r))])
  }

  predicate IsWriteOf(s: Schema, t: Table, rows: seq<Row>, w: Write) {
    exists r <- rows :: WriteOf(s, t, r) == w
  }

  // `groups.setdefault(shape, []).append(w)`.
  function AddTo(groups: Groups, w: Write): Groups {
    var shape := ShapeOf(w.plan);
    groups[shape := (if shape in groups then groups[shape] else []) + [w]]
  }

  lemma AddKeepsGrouped(s: Schema, t: Table, rows: seq<Row>, r: Row, kind: Kind, groups: Groups)
    requires Grouped(s, t, rows, kind, groups) && !Touches(s, rows, KeyOf(s, r))
    ensures Grouped(s, t, rows + [r], kind,
                    if Selected(kind, PlanFor(s, t, r)) then AddTo(groups, WriteOf(s, t, r)) else groups)
  {
    var all, w := rows + [r], WriteOf(s, t, r);
    assert r in all && forall q <- rows :: q in all;
    assert forall q <- all :: q in rows || q == r;
    OlderWrites(s, t, rows, r);
    if Selected(kind, w.plan) {
      AddedOnce(s, t, rows, r, kind, groups);
    }
  }

  lemma AddedOnce(s: Schema, t: Table, rows: seq<Row>, r: Row, kind: Kind, groups: Groups)
    requires Grouped(s, t, rows, kind, groups) && !Touches(s, rows, KeyOf(s, r)) && Selected(kind, PlanFor(s, t, r))
    ensures Grouped(s, t, rows + [r], kind, AddTo(groups, WriteOf(s, t, r)))
  {
    var all, w := rows + [r], WriteOf(s, t, r);
    var after := AddTo(groups, w);
    OlderWrites(s, t, rows, r);
    assert r in all && IsWriteOf(s, t, all, w);
    forall shape <- after
      ensures NoKeyTwice(after[shape])
      ensures forall v: Write <- after[shape] :: ShapeOf(v.plan) == shape && Selected(kind, v.plan) && IsWriteOf(s, t, all, v)
    {
      if shape == ShapeOf(w.plan) && shape in groups {
        assert forall v: Write <- after[shape] :: v in groups[shape] || v == w;
        NewKeyAtEnd(groups[shape], w);
      }
    }
    forall q <- all | Selected(kind, PlanFor(s, t, q))
      ensures ShapeOf(PlanFor(s, t, q)) in after && WriteOf(s, t, q) in after[ShapeOf(PlanFor(s, t, q))]
    {
      assert q in rows || q == r;
    }
  }

  lemma NewKeyAtEnd(ws: seq<Write>, w: Write)
    requires NoKeyTwice(ws) && forall v <- ws :: v.key != w.key
    ensures NoKeyTwice(ws + [w])
  {
    forall i, j | 0 <= i < j < |ws + [w]| ensures (ws + [w])[i].key != (ws + [w])[j].key {
      assert ws != [] ==> ws[i] in ws;
    }
  }

  lemma OlderWrites(s: Schema, t: Table, rows: seq<Row>, r: Row)
    requires !Touches(s, rows, KeyOf(s, r))
    ensures forall w :: IsWriteOf(s, t, rows, w) ==> IsWriteOf(s, t, rows + [r], w) && w.key != KeyOf(s, r)
  {
    assert forall q <- rows :: q in rows + [r];
  }

  /** The loop that sorts a chunk into statements by the set of columns they set. */
  method PlanChunk(s: Schema, chunk: seq<Row>, previous: map<Key, Row>, ghost t: Table)
    returns (ok: bool, inserts: Groups, updates: Groups)
    requires DistinctKeys(s, chunk) && Shows(s, t, KeysOf(s, chunk), previous)
    ensures ok <==> Accepted(s, t, chunk)
    ensures ok ==> Grouped(s, t, chunk, Inserts, inserts) && Grouped(s, t, chunk, Updates, updates)
  {
    inserts, updates := map[], map[];
    var i := 0;
    while i < |chunk|
      invariant 0 <= i <= |chunk|
      invariant Accepted(s, t, chunk[..i])
      invariant Grouped(s, t, chunk[..i], Inserts, inserts) && Grouped(s, t, chunk[..i], Updates, updates)
    {
      var values := chunk[i];
      var identity := KeyOf(s, values);
      assert values in chunk && identity in KeysOf(s, chunk);
      var existing := if identity in previous then [previous[identity]] else [];
      var plan := PlanRow(s, existing, values);
      if plan.Refuse? {
        return false, inserts, updates;
      }
      assert chunk[..i + 1] == chunk[..i] + [values];
      AddKeepsGrouped(s, t, chunk[..i], values, Inserts, inserts);
      AddKeepsGrouped(s, t, chunk[..i], values, Updates, updates);
      if plan.Insert? {
        inserts := AddTo(inserts, Write(identity, plan));
      } else if plan.changed.cells != map[] {
        updates := AddTo(updates, Write(identity, plan));
      }
      i := i + 1;
    }
    assert chunk[..i] == chunk;
    ok := true;
  }

  /* ---------- carrying out ---------- */

  // The table while the writes of `rows` under the keys in `written` have been carried out.
  predicate PartlyWritten(s: Schema, t: Table, rows: seq<Row>, written: set<Key>, now: Table) {
    && (forall r <- rows ::
          var k := KeyOf(s, r);
          if k in written then k in now && now[k] == Written(s, Rows(t, k), PlanFor(s, t, r)) else Rows(now, k) == Rows(t, k))
    && (forall k <- t :: k in now)
    && (forall k <- now :: (k in written && Touches(s, rows, k)) || (k in t && now[k] == t[k]))
  }

  // One statement for one parameter set, on every row that matches it.
  method Execute(s: Schema, t: Table, w: Write) returns (after: Table, matched: nat)
    ensures w.plan.Insert? ==> matched == 1 && after == t[w.key := Rows(t, w.key) + [Stored(s, w.plan.values)]]
    ensures w.plan.Update? ==> matched == |Rows(t, w.key)|
    ensures w.plan.Update? && |Rows(t, w.key)| == 1 ==> after == t[w.key := [Over(Rows(t, w.key)[0], w.plan.changed)]]
  {
    var rows := Rows(t, w.key);
    match w.plan
    case Insert(values) => after, matched := t[w.key := rows + [Stored(s, values)]], 1;
    case Update(changed) =>
      var changedRows := seq(|rows|, i requires 0 <= i < |rows| => Over(rows[i], changed));
      assert |rows| == 1 ==> changedRows == [Over(rows[0], changed)];
      after, matched := if w.key in t then t[w.key := changedRows] else t, |rows|;
    case Refuse => after, matched := t, 0;
  }

  lemma WriteKeepsPartly(s: Schema, t: Table, rows: seq<Row>, written: set<Key>, now: Table, r: Row)
    requires DistinctKeys(s, rows) && r in rows && KeyOf(s, r) !in written && !PlanFor(s, t, r).Refuse?
    requires PartlyWritten(s, t, rows, written, now)
    ensures var k := KeyOf(s, r);
      PartlyWritten(s, t, rows, written + {k}, now[k := Written(s, Rows(t, k), PlanFor(s, t, r))])
  {
    var k := KeyOf(s, r);
    assert Touches(s, rows, k);
    forall q <- rows ensures KeyOf(s, q) == k ==> q == r {
      var i :| 0 <= i < |rows| && rows[i] == q;
      var j :| 0 <= j < |rows| && rows[j] == r;
      assert i < j || j < i || i == j;
    }
  }

  function KeysIn(ws: seq<Write>): set<Key> {
    set w | w in ws :: w.key
  }

  // The next write of a group that is being carried out.
  lemma NextWrite(s: Schema, t: Table, rows: seq<Row>, group: seq<Write>, i: nat, written: set<Key>, now: Table)
    requires DistinctKeys(s, rows) && Accepted(s, t, rows) && i < |group|
    requires NoKeyTwice(group) && KeysIn(group) !! written && forall w <- group :: IsWriteOf(s, t, rows, w)
    requires PartlyWritten(s, t, rows, written + KeysIn(group[..i]), now)
    ensures var w := group[i];
      exists q <- rows :: WriteOf(s, t, q) == w && Rows(now, w.key) == Rows(t, w.key)
        && PartlyWritten(s, t, rows, written + KeysIn(group[..i + 1]), now[w.key := Written(s, Rows(t, w.key), PlanFor(s, t, q))])
  {
    var w := group[i];
    assert w in group;
    assert w.key in KeysIn(group);
    var q :| q in rows && WriteOf(s, t, q) == w;
    assert w.key !in written + KeysIn(group[..i]);
    WriteKeepsPartly(s, t, rows, written + KeysIn(group[..i]), now, q);
    assert group[..i + 1] == group[..i] + [w];
    assert KeysIn(group[..i + 1]) == KeysIn(group[..i]) + {w.key};
    assert written + KeysIn(group[..i + 1]) == written + KeysIn(group[..i]) + {w.key};
  }

  /** One bulk statement: as many rows must match as parameter sets were given. */
  method RunGroup(s: Schema, now: Table, group: seq<Write>, ghost t: Table, ghost rows: seq<Row>, ghost written: set<Key>)
    returns (r: Option<Table>)
    requires DistinctKeys(s, rows) && Accepted(s, t, rows) && PartlyWritten(s, t, rows, written, now)
    requires NoKeyTwice(group) && KeysIn(group) !! written
    requires forall w <- group :: IsWriteOf(s, t, rows, w)
    ensures r.Some? && PartlyWritten(s, t, rows, written + KeysIn(group), r.value)
  {
    var after, total, i := now, 0, 0;
    while i < |group|
      invariant 0 <= i <= |group| && total == i
      invariant PartlyWritten(s, t, rows, written + KeysIn(group[..i]), after)
    {
      var w := group[i];
      NextWrite(s, t, rows, group, i, written, after);
      var matched;
      after, matched := Execute(s, after, w);
      total := total + matched;
      i := i + 1;
    }
    assert group[..i] == group;
    r := if total == |group| then Some(after) else None;
  }

  function KeysInAll(groups: Groups, shapes: set<Shape>): set<Key>
    requires shapes <= groups.Keys
  {
    set shape, w | shape in shapes && w in groups[shape] :: w.key
  }

  // Two groups never write the same key: the key decides the write, the write its shape.
  lemma GroupsApart(s: Schema, t: Table, rows: seq<Row>, kind: Kind, groups: Groups, shape: Shape, shapes: set<Shape>)
    requires DistinctKeys(s, rows) && Grouped(s, t, rows, kind, groups)
    requires shapes <= groups.Keys && shape in groups && shape !in shapes
    ensures KeysIn(groups[shape]) !! KeysInAll(groups, shapes)
  {
    forall w, other, v | w in groups[shape] && other in shapes && v in groups[other] ensures w.key != v.key {
      if w.key == v.key {
        SameKeySameWrite(s, t, rows, w, v);
      }
    }
  }

  lemma SameKeySameWrite(s: Schema, t: Table, rows: seq<Row>, w: Write, v: Write)
    requires DistinctKeys(s, rows) && IsWriteOf(s, t, rows, w) && IsWriteOf(s, t, rows, v) && w.key == v.key
    ensures w == v
  {
    var i :| 0 <= i < |rows| && WriteOf(s, t, rows[i]) == w;
    var j :| 0 <= j < |rows| && WriteOf(s, t, rows[j]) == v;
    assert i < j || j < i || i == j;
  }

  /** Every statement of one kind, in any order of their shapes. */
  method RunGroups(s: Schema, now: Table, groups: Groups, ghost t: Table, ghost rows: seq<Row>, ghost kind: Kind, ghost written: set<Key>)
    returns (r: Option<Table>)
    requires DistinctKeys(s, rows) && Accepted(s, t, rows) && PartlyWritten(s, t, rows, written, now)
    requires Grouped(s, t, rows, kind, groups) && KeysInAll(groups, groups.Keys) !! written
    ensures r.Some? && PartlyWritten(s, t, rows, written + KeysInAll(groups, groups.Keys), r.value)
  {
    var after, todo := now, groups.Keys;
    ghost var ran: set<Shape> := {};
    while todo != {}
      invariant todo + ran == groups.Keys && todo !! ran
      invariant PartlyWritten(s, t, rows, written + KeysInAll(groups, ran), after)
    {
      var shape :| shape in todo;
      GroupsApart(s, t, rows, kind, groups, shape, ran);
      assert KeysIn(groups[shape]) <= KeysInAll(groups, groups.Keys);
      var result := RunGroup(s, after, groups[shape], t, rows, written + KeysInAll(groups, ran));
      if result.None? {
        return None;
      }
      assert KeysInAll(groups, ran + {shape}) == KeysInAll(groups, ran) + KeysIn(groups[shape]);
      assert written + KeysInAll(groups, ran + {shape}) == written + KeysInAll(groups, ran) + KeysIn(groups[shape]);
      after, todo, ran := result.value, todo - {shape}, ran + {shape};
    }
    assert ran == groups.Keys;
    r := Some(after);
  }

  // Both kinds of statements together write every key that changes.
  lemma AllWritten(s: Schema, t: Table, rows: seq<Row>, inserts: Groups, updates: Groups, now: Table)
    requires DistinctKeys(s, rows) && Accepted(s, t, rows)
    requires Grouped(s, t, rows, Inserts, inserts) && Grouped(s, t, rows, Updates, updates)
    requires PartlyWritten(s, t, rows, KeysInAll(updates, updates.Keys) + KeysInAll(inserts, inserts.Keys), now)
    ensures CarriedOut(s, t, rows, now)
  {
    var written := KeysInAll(updates, updates.Keys) + KeysInAll(inserts, inserts.Keys);
    forall r <- rows
      ensures var k := KeyOf(s, r); k in now && now[k] == Written(s, Rows(t, k), PlanFor(s, t, r))
    {
      var k, plan := KeyOf(s, r), PlanFor(s, t, r);
      if Selected(Inserts, plan) || Selected(Updates, plan) {
        assert WriteOf(s, t, r).key in written;
      } else {
        assert plan.Update? && plan.changed.cells == map[];
        assert Rows(t, k)[0].cells + map[] == Rows(t, k)[0].cells;
        if k in written {
          assert k in now;
        } else {
          assert Rows(now, k) == Rows(t, k);
        }
      }
    }
  }

  lemma KindsApart(s: Schema, t: Table, rows: seq<Row>, inserts: Groups, updates: Groups)
    requires DistinctKeys(s, rows)
    requires Grouped(s, t, rows, Inserts, inserts) && Grouped(s, t, rows, Updates, updates)
    ensures KeysInAll(inserts, inserts.Keys) !! KeysInAll(updates, updates.Keys)
  {
    forall a, w, b, v | a in inserts && w in inserts[a] && b in updates && v in updates[b] ensures w.key != v.key {
      if w.key == v.key {
        SameKeySameWrite(s, t, rows, w, v);
      }
    }
  }

  method UpsertChunk(s: Schema, t: Table, chunk: seq<Row>) returns (r: Option<Table>)
    requires WellKeyed(s, t) && DistinctKeys(s, chunk)
    ensures r == UpsertEach(s, t, chunk)
  {
    EachIsCarriedOut(s, t, chunk);
    var previous := FetchPrevious(s, t, chunk);
    if previous.None? {
      ghost var k :| k in KeysOf(s, chunk) && |Rows(t, k)| > 1;
      ghost var row :| row in chunk && KeyOf(s, row) == k;
      assert PlanFor(s, t, row).Refuse?;
      return None;
    }
    var ok, inserts, updates := PlanChunk(s, chunk, previous.value, t);
    if !ok {
      return None;
    }
    KindsApart(s, t, chunk, inserts, updates);
    var updated := RunGroups(s, t, updates, t, chunk, Updates, {});
    if updated.None? {
      return None;
    }
    assert {} + KeysInAll(updates, updates.Keys) == KeysInAll(updates, updates.Keys);
    r := RunGroups(s, updated.value, inserts, t, chunk, Inserts, KeysInAll(updates, updates.Keys));
    AllWritten(s, t, chunk, inserts, updates, r.value);
    CarriedOutIsUnique(s, t, chunk, r.value, UpsertEach(s, t, chunk).value);
  }

  lemma {:induction false} EachJoin(s: Schema, t: Table, a: seq<Row>, b: seq<Row>)
    ensures UpsertEach(s, t, a + b) ==
            match UpsertEach(s, t, a) case None => None case Some(middle) => UpsertEach(s, middle, b)
  {
    if b == [] {
      assert a + b == a;
    } else {
      var front, last := b[..|b| - 1], b[|b| - 1];
      assert (a + b)[..|a + b| - 1] == a + front;
      EachJoin(s, t, a, front);
    }
  }

  lemma OneKeepsWellKeyed(s: Schema, t: Table, row: Row)
    requires WellKeyed(s, t) && UpsertOne(s, t, row).Some?
    ensures WellKeyed(s, UpsertOne(s, t, row).value)
  {
    var existing := Rows(t, KeyOf(s, row));
    match PlanFor(s, t, row)
    case Insert(values) => KeyTells(s, Stored(s, values), row);
    case Update(changed) => KeyTells(s, Over(existing[0], changed), existing[0]);
    case Refuse =>
  }

  lemma {:induction false} EachKeepsWellKeyed(s: Schema, t: Table, rows: seq<Row>)
    requires WellKeyed(s, t)
    ensures UpsertEach(s, t, rows).Some? ==> WellKeyed(s, UpsertEach(s, t, rows).value)
  {
    if rows != [] {
      EachKeepsWellKeyed(s, t, rows[..|rows| - 1]);
      if UpsertEach(s, t, rows).Some? {
        OneKeepsWellKeyed(s, UpsertEach(s, t, rows[..|rows| - 1]).value, rows[|rows| - 1]);
      }
    }
  }

  lemma ChunkAfter(s: Schema, t: Table, rows: seq<Row>, offset: nat, end: nat)
    requires offset <= end <= |rows| && DistinctKeys(s, rows) && UpsertEach(s, t, rows[..offset]).Some?
    ensures DistinctKeys(s, rows[offset..end])
    ensures UpsertEach(s, t, rows[..end]) == UpsertEach(s, UpsertEach(s, t, rows[..offset]).value, rows[offset..end])
  {
    assert rows[..end] == rows[..offset] + rows[offset..end];
    EachJoin(s, t, rows[..offset], rows[offset..end]);
    SliceDistinct(s, rows, offset, end);
  }

  lemma SliceDistinct(s: Schema, rows: seq<Row>, offset: nat, end: nat)
    requires offset <= end <= |rows| && DistinctKeys(s, rows)
    ensures DistinctKeys(s, rows[offset..end])
  {
    var slice := rows[offset..end];
    forall q <- slice ensures HasKey(s, q) {
      assert q in rows;
    }
    forall i, j | 0 <= i < j < |slice| ensures KeyOf(s, slice[i]) != KeyOf(s, slice[j]) {
      assert slice[i] == rows[offset + i] && slice[j] == rows[offset + j];
    }
  }

  lemma FailureStays(s: Schema, t: Table, rows: seq<Row>, n: nat)
    requires n <= |rows| && UpsertEach(s, t, rows[..n]).None?
    ensures UpsertEach(s, t, rows).None?
  {
    EachJoin(s, t, rows[..n], rows[n..]);
    assert rows[..n] + rows[n..] == rows;
  }

  /** `_upsert_minute_rows` does exactly what writing its rows one by one does: it succeeds on
      the same inputs and leaves the same table. */
  method UpsertMinuteRows(s: Schema, t: Table, rows: seq<Row>) returns (r: Option<Table>)
    requires WellKeyed(s, t) && DistinctKeys(s, rows)
    ensures r == UpsertEach(s, t, rows)
    ensures r.Some? <==> forall q <- rows :: Acceptable(s, Rows(t, KeyOf(s, q)), q)
    ensures r.Some? ==> AllTaken(s, t, rows, r.value)
  {
    EachIsTaken(s, t, rows);
    var done, offset := t, 0;
    while offset < |rows|
      invariant 0 <= offset <= |rows|
      invariant UpsertEach(s, t, rows[..offset]) == Some(done) && WellKeyed(s, done)
    {
      var end := if offset + CHUNK_ROWS < |rows| then offset + CHUNK_ROWS else |rows|;
      var chunk := rows[offset..end];
      ChunkAfter(s, t, rows, offset, end);
      EachKeepsWellKeyed(s, done, chunk);
      var next := UpsertChunk(s, done, chunk);
      if next.None? {
        FailureStays(s, t, rows, end);
        return None;
      }
      done, offset := next.value, end;
    }
    assert rows[..offset] == rows;
    r := Some(done);
  }

  /** The checks made over the whole batch before anything is written. */
  method KeysAreDistinct(s: Schema, rows: seq<Row>) returns (ok: bool)
    ensures ok <==> DistinctKeys(s, rows)
  {
    var seen: set<Key>, i := {}, 0;
    while i < |rows|
      invariant 0 <= i <= |rows|
      invariant DistinctKeys(s, rows[..i]) && seen == KeysOf(s, rows[..i])
    {
      var row := rows[i];
      var identity := KeyOf(s, row);
      assert row in rows && rows[..i + 1] == rows[..i] + [row];
      if !HasKey(s, row) {
        return false;
      }
      if identity in seen {
        var q :| q in rows[..i] && KeyOf(s, q) == identity;
        var j :| 0 <= j < i && rows[..i][j] == q;
        assert KeyOf(s, rows[j]) == KeyOf(s, rows[i]);
        return false;
      }
      assert KeysOf(s, rows[..i + 1]) == seen + {identity};
      seen, i := seen + {identity}, i + 1;
    }
    assert rows[..i] == rows;
    ok := true;
  }

  /** One committed batch of minute rows: it is written as by the simple form, or the table is
      left alone. */
  method CommitMinuteRows(s: Schema, t: Table, rows: seq<Row>) returns (ok: bool, after: Table)
    requires WellKeyed(s, t)
    ensures ok <==> DistinctKeys(s, rows) && UpsertEach(s, t, rows).Some?
    ensures ok ==> AllTaken(s, t, rows, after)
    ensures after == if ok then UpsertEach(s, t, rows).value else t
    ensures WellKeyed(s, after)
  {
    var distinct := KeysAreDistinct(s, rows);
    if !distinct {
      return false, t;
    }
    var r := UpsertMinuteRows(s, t, rows);
    EachKeepsWellKeyed(s, t, rows);
    ok, after := r.Some?, if r.Some? then r.value else t;
  }
}
