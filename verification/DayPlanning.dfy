/** Compact planning of daily work: a day is dropped on counts and a key fingerprint instead of its
    full states (acquisition/models.py `key_fingerprint`, acquisition/plan.py). */
module DayPlanning {
  import opened Basics

  type Key = int
  type Day = int

  // A 32-bit word as the set of its one bits.
  type Bits = set<nat>

  function Xor(a: Bits, b: Bits): Bits { (a - b) + (b - a) }

  datatype Fingerprint = Fingerprint(count: nat, sum0: nat, xor0: Bits, sum1: nat, xor1: Bits)

  const EMPTY := Fingerprint(0, 0, {}, 0, {})

  // One 32-bit checksum, as a number and as bits.
  datatype Crc = Crc(number: nat, bits: Bits)

  // The two salted checksums of a key.
  datatype Salted = Salted(first: Key -> Crc, second: Key -> Crc)

  function Add(h: Salted, f: Fingerprint, k: Key): Fingerprint {
    Fingerprint(f.count + 1, f.sum0 + h.first(k).number, Xor(f.xor0, h.first(k).bits),
                f.sum1 + h.second(k).number, Xor(f.xor1, h.second(k).bits))
  }

  function Of(h: Salted, keys: seq<Key>): Fingerprint {
    if keys == [] then EMPTY else Add(h, Of(h, keys[..|keys| - 1]), keys[|keys| - 1])
  }

  // What two partial aggregates add up to.
  function Merge(f: Fingerprint, g: Fingerprint): Fingerprint {
    Fingerprint(f.count + g.count, f.sum0 + g.sum0, Xor(f.xor0, g.xor0), f.sum1 + g.sum1, Xor(f.xor1, g.xor1))
  }

  /** `key_fingerprint`: one pass, two sums and two xors. */
  method KeyFingerprint(h: Salted, keys: seq<Key>) returns (f: Fingerprint)
    ensures f == Of(h, keys)
  {
    var sums: seq<nat>, xors: seq<Bits> := [0, 0], [{}, {}];
    var i := 0;
    while i < |keys|
      invariant 0 <= i <= |keys| && |sums| == 2 && |xors| == 2
      invariant Fingerprint(i, sums[0], xors[0], sums[1], xors[1]) == Of(h, keys[..i])
    {
      var a, b := h.first(keys[i]), h.second(keys[i]);
      assert keys[..i + 1][..i] == keys[..i];
      sums, xors := [sums[0] + a.number, sums[1] + b.number], [Xor(xors[0], a.bits), Xor(xors[1], b.bits)];
      i := i + 1;
    }
    assert keys[..i] == keys;
    f := Fingerprint(|keys|, sums[0], xors[0], sums[1], xors[1]);
  }

  lemma XorJoins(a: Bits, b: Bits, c: Bits)
    ensures Xor(a, Xor(b, c)) == Xor(Xor(a, b), c)
  {
  }

  lemma MergeAdd(h: Salted, f: Fingerprint, g: Fingerprint, k: Key)
    ensures Merge(f, Add(h, g, k)) == Add(h, Merge(f, g), k)
  {
    XorJoins(f.xor0, g.xor0, h.first(k).bits);
    XorJoins(f.xor1, g.xor1, h.second(k).bits);
  }

  lemma MergeEmpty(f: Fingerprint)
    ensures Merge(f, EMPTY) == f
  {
  }

  lemma {:induction false} OfJoin(h: Salted, a: seq<Key>, b: seq<Key>)
    ensures Of(h, a + b) == Merge(Of(h, a), Of(h, b))
  {
    if b == [] {
      assert a + b == a;
      MergeEmpty(Of(h, a));
    } else {
      var front, last := b[..|b| - 1], b[|b| - 1];
      assert (a + b)[..|a + b| - 1] == a + front;
      OfJoin(h, a, front);
      MergeAdd(h, Of(h, a), Of(h, front), last);
    }
  }

  // How many of the keys have this bit in their checksum, and what the checksums add up to.
  function Hits(crc: Key -> Crc, keys: seq<Key>, bit: nat): nat {
    if keys == [] then 0 else (if bit in crc(keys[0]).bits then 1 else 0) + Hits(crc, keys[1..], bit)
  }

  function Total(crc: Key -> Crc, keys: seq<Key>): nat {
    if keys == [] then 0 else crc(keys[0]).number + Total(crc, keys[1..])
  }

  /** A fingerprint counts the keys, adds up both of their checksums, and has the bits that an odd
      number of them has. */
  lemma {:induction false} FingerprintMeans(h: Salted, keys: seq<Key>, bit: nat)
    ensures var f := Of(h, keys);
      && f.count == |keys| && f.sum0 == Total(h.first, keys) && f.sum1 == Total(h.second, keys)
      && (bit in f.xor0 <==> Hits(h.first, keys, bit) % 2 == 1) && (bit in f.xor1 <==> Hits(h.second, keys, bit) % 2 == 1)
  {
    if keys != [] {
      var first, rest := [keys[0]], keys[1..];
      assert keys == first + rest;
      FingerprintMeans(h, rest, bit);
      OfJoin(h, first, rest);
      assert first[..0] == [];
      assert Of(h, first) == Add(h, EMPTY, keys[0]);
    }
  }

  // One key may be moved to the end.
  lemma KeyToEnd(h: Salted, left: seq<Key>, k: Key, right: seq<Key>)
    ensures Of(h, left + [k] + right) == Of(h, left + right + [k])
  {
    var l, r := Of(h, left), Of(h, right);
    OfJoin(h, left + [k], right);
    OfJoin(h, left, right);
    assert (left + [k])[..|left|] == left && (left + right + [k])[..|left + right|] == left + right;
    AddOutside(h, l, r, k);
  }

  lemma AddOutside(h: Salted, f: Fingerprint, g: Fingerprint, k: Key)
    ensures Merge(Add(h, f, k), g) == Add(h, Merge(f, g), k)
  {
    XorSwaps(f.xor0, h.first(k).bits, g.xor0);
    XorSwaps(f.xor1, h.second(k).bits, g.xor1);
  }

  lemma XorSwaps(a: Bits, b: Bits, c: Bits)
    ensures Xor(Xor(a, b), c) == Xor(Xor(a, c), b)
  {
  }

  lemma Cancel(a: multiset<Key>, b: multiset<Key>, k: Key)
    requires a + multiset{k} == b + multiset{k}
    ensures a == b
  {
    forall x ensures a[x] == b[x] {
      assert (a + multiset{k})[x] == (b + multiset{k})[x];
    }
  }

  // The last key of one listing stands somewhere in the other.
  lemma LastStandsIn(a: seq<Key>, b: seq<Key>) returns (left: seq<Key>, right: seq<Key>)
    requires multiset(a) == multiset(b) && a != []
    ensures b == left + [a[|a| - 1]] + right
    ensures multiset(a[..|a| - 1]) == multiset(left + right)
  {
    var k := a[|a| - 1];
    assert a == a[..|a| - 1] + [k];
    assert k in multiset(b);
    var i :| 0 <= i < |b| && b[i] == k;
    left, right := b[..i], b[i + 1..];
    assert b == left + [k] + right;
    assert multiset(b) == multiset(left + right) + multiset{k};
    Cancel(multiset(a[..|a| - 1]), multiset(left + right), k);
  }

  /** The order of the keys plays no part, so a database may aggregate them as it likes. */
  lemma {:induction false} OfAnyOrder(h: Salted, a: seq<Key>, b: seq<Key>)
    requires multiset(a) == multiset(b)
    ensures Of(h, a) == Of(h, b)
    decreases |a|
  {
    if a == [] {
      assert |multiset(b)| == |b|;
    } else {
      var k := a[|a| - 1];
      var left, right := LastStandsIn(a, b);
      OfAnyOrder(h, a[..|a| - 1], left + right);
      KeyToEnd(h, left, k, right);
      assert (left + right + [k])[..|left + right|] == left + right;
    }
  }

  /* ---------- the progress of a day ---------- */

  datatype Status = Running | Staged | Complete | NoData | Error

  type States = map<Key, Status>

  predicate Terminal(s: Status) { s == Complete || s == NoData }

  function KeysWith(states: States, s: Status): set<Key> {
    set k | k in states && states[k] == s
  }

  function TerminalKeys(states: States): set<Key> {
    KeysWith(states, Complete) + KeysWith(states, NoData)
  }

  ghost predicate Lists(keys: seq<Key>, s: set<Key>) {
    && (forall k :: k in keys <==> k in s)
    && forall i, j :: 0 <= i < j < |keys| ==> keys[i] != keys[j]
  }

  // What the two grouped queries return for one day; a status no row has counts nothing.
  datatype Summary = Summary(running: nat, staged: nat, complete: nat, noData: nat, error: nat, terminal: Fingerprint) {
    function Total(): nat { running + staged + complete + noData + error }
  }

  ghost predicate Counts(states: States, s: Summary) {
    && s.running == |KeysWith(states, Running)| && s.staged == |KeysWith(states, Staged)|
    && s.complete == |KeysWith(states, Complete)| && s.noData == |KeysWith(states, NoData)|
    && s.error == |KeysWith(states, Error)|
  }

  ghost predicate Summarises(h: Salted, states: States, s: Summary) {
    Counts(states, s) && exists keys :: Lists(keys, TerminalKeys(states)) && s.terminal == Of(h, keys)
  }

  // The fingerprint tells these two key sets apart.
  ghost predicate CollisionFree(h: Salted, a: set<Key>, b: set<Key>) {
    forall xs, ys :: Lists(xs, a) && Lists(ys, b) && Of(h, xs) == Of(h, ys) ==> a == b
  }

  // `day_progress_matches` for a product with one row per partition.
  predicate DayMatches(h: Salted, expected: seq<Key>, s: Summary) {
    var terminal := s.complete + s.noData;
    expected != [] && terminal == |expected| && s.Total() == terminal && s.terminal == Of(h, expected)
  }

  // `summarize` calls the day complete.
  predicate DayComplete(expected: set<Key>, states: States) {
    expected != {} && expected - KeysWith(states, Complete) - KeysWith(states, NoData) == {}
  }

  lemma FrontLists(keys: seq<Key>, s: set<Key>)
    requires Lists(keys, s) && keys != []
    ensures Lists(keys[..|keys| - 1], s - {keys[|keys| - 1]}) && keys[|keys| - 1] in s
  {
    var front, last := keys[..|keys| - 1], keys[|keys| - 1];
    assert keys == front + [last];
    assert last in keys;
    forall k ensures k in front <==> k in s - {last} {
      if k in front {
        assert k in keys;
      }
    }
  }

  lemma {:induction false} ListsSize(keys: seq<Key>, s: set<Key>)
    requires Lists(keys, s)
    ensures |keys| == |s|
  {
    if keys == [] {
      assert forall k :: k !in s;
    } else {
      var front, last := keys[..|keys| - 1], keys[|keys| - 1];
      FrontLists(keys, s);
      ListsSize(front, s - {last});
    }
  }

  lemma CountsAddUp(states: States)
    ensures |KeysWith(states, Running)| + |KeysWith(states, Staged)| + |KeysWith(states, Complete)|
            + |KeysWith(states, NoData)| + |KeysWith(states, Error)| == |states|
    ensures |TerminalKeys(states)| == |KeysWith(states, Complete)| + |KeysWith(states, NoData)|
  {
    var a, b, c, d, e := KeysWith(states, Running), KeysWith(states, Staged), KeysWith(states, Complete), KeysWith(states, NoData), KeysWith(states, Error);
    forall k ensures k in states.Keys <==> k in a + b + c + d + e {
      if k in states {
        match states[k] case Running => case Staged => case Complete => case NoData => case Error =>
      }
    }
    assert states.Keys == a + b + c + d + e;
    assert |c + d| == |c| + |d|;
    assert |a + b| == |a| + |b|;
    assert |a + b + c + d + e| == |a + b + c + d| + |e|;
    assert |a + b + c + d| == |a + b + c| + |d|;
    assert |a + b + c| == |a + b| + |c|;
  }

  lemma SameListing(xs: seq<Key>, ys: seq<Key>, s: set<Key>)
    requires Lists(xs, s) && Lists(ys, s)
    ensures multiset(xs) == multiset(ys)
  {
    ListedOnce(xs, s);
    ListedOnce(ys, s);
  }

  lemma {:induction false} ListedOnce(keys: seq<Key>, s: set<Key>)
    requires Lists(keys, s)
    ensures multiset(keys) == multiset(s)
  {
    if keys == [] {
      assert forall k :: k !in s;
      assert s == {};
    } else {
      var front, last := keys[..|keys| - 1], keys[|keys| - 1];
      assert keys == front + [last];
      FrontLists(keys, s);
      ListedOnce(front, s - {last});
      assert s == (s - {last}) + {last};
    }
  }

  /** A day matches exactly when its states are terminal and stand under the expected keys and no
      others, as long as the fingerprint tells the two key sets apart. */
  lemma MatchesMeansExact(h: Salted, expected: seq<Key>, keys: set<Key>, states: States, s: Summary)
    requires Lists(expected, keys) && Summarises(h, states, s) && CollisionFree(h, TerminalKeys(states), keys)
    ensures DayMatches(h, expected, s) <==> keys != {} && states.Keys == keys && TerminalKeys(states) == keys
  {
    CountsAddUp(states);
    ListsSize(expected, keys);
    assert keys == {} <==> expected == [] by {
      if expected != [] {
        assert expected[0] in keys;
      }
    }
    var listed :| Lists(listed, TerminalKeys(states)) && s.terminal == Of(h, listed);
    if DayMatches(h, expected, s) {
      assert TerminalKeys(states) == keys;
      assert keys <= states.Keys && |states.Keys| == |keys|;
      SameSize(keys, states.Keys);
    }
    if keys != {} && states.Keys == keys && TerminalKeys(states) == keys {
      SameListing(listed, expected, keys);
      OfAnyOrder(h, listed, expected);
    }
  }

  /** A complete day that is still looked at is one with stale extra states, and no other. */
  lemma KeptThoughComplete(h: Salted, expected: seq<Key>, keys: set<Key>, states: States, s: Summary)
    requires Lists(expected, keys) && Summarises(h, states, s) && CollisionFree(h, TerminalKeys(states), keys)
    ensures DayMatches(h, expected, s) ==> DayComplete(keys, states)
    ensures DayComplete(keys, states) && !DayMatches(h, expected, s) <==> DayComplete(keys, states) && states.Keys != keys
  {
    MatchesMeansExact(h, expected, keys, states, s);
    if DayComplete(keys, states) && states.Keys == keys {
      assert TerminalKeys(states) == keys;
    }
  }

  // The flow test of a day: nothing but complete states.
  lemma OnlyComplete(states: States, s: Summary)
    requires Counts(states, s)
    ensures 0 < s.complete == s.Total() <==> states != map[] && forall k <- states :: states[k] == Complete
  {
    CountsAddUp(states);
    var complete := KeysWith(states, Complete);
    assert s.Total() == |states.Keys| && complete <= states.Keys;
    if |complete| == |states.Keys| {
      SameSize(complete, states.Keys);
    }
    if forall k <- states :: states[k] == Complete {
      assert complete == states.Keys;
    }
  }

  /* ---------- choosing the days ---------- */

  datatype Product = Product(eventData: bool, flow: bool, minute: bool)

  // What the queries and the catalog say about a day, and the states they come from.
  datatype DayFacts = DayFacts(expected: seq<Key>, summary: Summary, healthy: bool, states: States)

  ghost predicate Consistent(h: Salted, p: Product, f: DayFacts) {
    && Summarises(h, f.states, f.summary)
    && (!p.flow && !p.minute ==>
          Lists(f.expected, KeySet(f.expected)) && CollisionFree(h, TerminalKeys(f.states), KeySet(f.expected)))
  }

  predicate AlwaysKept(p: Product, days: seq<Day>, refresh: set<Day>, d: Day) {
    (days != [] && d == days[|days| - 1]) || (!p.flow && p.eventData && d in refresh)
  }

  // The test on counts and fingerprints alone; a minute day never passes it.
  predicate LooksFinished(h: Salted, p: Product, f: DayFacts) {
    if p.flow then 0 < f.summary.complete == f.summary.Total() && f.healthy
    else !p.minute && DayMatches(h, f.expected, f.summary)
  }

  /** What the test stands for. A flow day holds complete states only and is healthy. Any other
      day's states stand under exactly the expected keys and none is missing. */
  predicate IsFinished(p: Product, f: DayFacts) {
    if p.flow then f.states != map[] && (forall k <- f.states :: f.states[k] == Complete) && f.healthy
    else !p.minute && f.states.Keys == KeySet(f.expected) && DayComplete(KeySet(f.expected), f.states)
  }

  lemma LooksAreRight(h: Salted, p: Product, f: DayFacts)
    requires Consistent(h, p, f)
    ensures LooksFinished(h, p, f) <==> IsFinished(p, f)
  {
    if p.flow {
      OnlyComplete(f.states, f.summary);
    } else if !p.minute {
      KeptThoughComplete(h, f.expected, KeySet(f.expected), f.states, f.summary);
    }
  }

  // The loop over the days.
  method SelectDays(h: Salted, p: Product, days: seq<Day>, facts: map<Day, DayFacts>, refresh: set<Day>)
    returns (result: seq<Day>)
    requires forall d <- days :: d in facts
    ensures forall d <- result :: d in days
    ensures forall d <- days :: d in result <==> AlwaysKept(p, days, refresh, d) || !LooksFinished(h, p, facts[d])
  {
    result := [];
    var i := 0;
    while i < |days|
      invariant 0 <= i <= |days|
      invariant forall d <- result :: d in days[..i]
      invariant forall d <- days[..i] :: d in result <==> AlwaysKept(p, days, refresh, d) || !LooksFinished(h, p, facts[d])
    {
      var d := days[i];
      assert d in days && days[..i + 1] == days[..i] + [d];
      if AlwaysKept(p, days, refresh, d) || !LooksFinished(h, p, facts[d]) {
        result := result + [d];
      }
      i := i + 1;
    }
    assert days[..i] == days;
  }

  /** `daily_candidate_days`. It keeps the latest day, the refresh overlap of event data, and
      otherwise exactly the days that are not finished: no dropped day hides a gap. */
  method CandidateDays(h: Salted, p: Product, days: seq<Day>, facts: map<Day, DayFacts>, refresh: set<Day>)
    returns (result: seq<Day>)
    requires forall d <- days :: d in facts && Consistent(h, p, facts[d])
    ensures forall d <- result :: d in days
    ensures forall d <- days :: d in result <==>
      d == days[|days| - 1] || (p.eventData && !p.flow && d in refresh) || !IsFinished(p, facts[d])
  {
    result := SelectDays(h, p, days, facts, refresh);
    forall d <- days ensures LooksFinished(h, p, facts[d]) <==> IsFinished(p, facts[d]) {
      LooksAreRight(h, p, facts[d]);
    }
  }

  function KeySet(keys: seq<Key>): set<Key> {
    set k | k in keys
  }
}
