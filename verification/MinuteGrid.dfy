/** The permanent evidence of a minute inventory: the observed times as a hex bitmap over the
    allowed grid (acquisition/minute_grid.py, acquisition/normalize.py, acquisition/store.py). */
module MinuteGrid {
  import opened Basics

  // A minute of the day.
  type Time = nat

  // The canonical grids of one product and security: sorted lists without duplicates.
  datatype Grids = Grids(required: seq<Time>, allowed: seq<Time>)

  predicate Distinct(ts: seq<Time>) {
    forall i, j :: 0 <= i < j < |ts| ==> ts[i] != ts[j]
  }

  function Times(ts: seq<Time>): set<Time> {
    set t | t in ts
  }

  predicate ValidGrids(g: Grids) {
    Distinct(g.required) && Distinct(g.allowed) && Times(g.required) <= Times(g.allowed)
  }

  datatype Row = Row(time: Time, date: int, code: int, aligned: bool, content: nat)

  datatype WorkUnit = WorkUnit(product: int, code: int, date: int, canonical: bool)

  // SHA-256 of sorted times, of a grid or of sorted rows, taken as injective.
  datatype Digest = OfTimes(times: set<Time>) | OfGrid(grid: seq<Time>) | OfRows(rows: multiset<Row>)

  datatype Identity = Identity(product: int, code: int, date: int, required: Digest, allowed: Digest)

  datatype Proof = Proof(identity: Identity, rowCount: int, observed: Digest, bitmap: seq<nat>, content: Digest)

  function IdentityOf(g: Grids, product: int, code: int, date: int): Identity {
    Identity(product, code, date, OfGrid(g.required), OfGrid(g.allowed))
  }

  function Observed(rows: seq<Row>): set<Time> {
    set r | r in rows :: r.time
  }

  /* ---------- bits ---------- */

  function Pow2(n: nat): nat { if n == 0 then 1 else 2 * Pow2(n - 1) }

  // `sum(1 << i for i, value in enumerate(allowed) if value in observed)`, from bit k on.
  function Mask(allowed: seq<Time>, observed: set<Time>, k: nat): nat {
    if allowed == [] then 0
    else (if allowed[0] in observed then Pow2(k) else 0) + Mask(allowed[1..], observed, k + 1)
  }

  // `mask & (1 << i)`.
  predicate Bit(mask: nat, i: nat) {
    if i == 0 then mask % 2 == 1 else Bit(mask / 2, i - 1)
  }

  // `mask >> n`.
  function Shifted(mask: nat, n: nat): nat {
    if n == 0 then mask else Shifted(mask / 2, n - 1)
  }

  // The times whose bit is set.
  function Decode(allowed: seq<Time>, mask: nat): set<Time> {
    set i | 0 <= i < |allowed| && Bit(mask, i) :: allowed[i]
  }

  lemma {:induction false} MaskDoubles(allowed: seq<Time>, observed: set<Time>, k: nat)
    ensures Mask(allowed, observed, k + 1) == 2 * Mask(allowed, observed, k)
    decreases |allowed|
  {
    if allowed != [] {
      MaskDoubles(allowed[1..], observed, k + 1);
    }
  }

  lemma {:induction false} MaskBits(allowed: seq<Time>, observed: set<Time>)
    ensures forall i | 0 <= i < |allowed| :: Bit(Mask(allowed, observed, 0), i) <==> allowed[i] in observed
    ensures Shifted(Mask(allowed, observed, 0), |allowed|) == 0
    ensures Mask(allowed, observed, 0) < Pow2(|allowed|)
    decreases |allowed|
  {
    if allowed != [] {
      var rest := allowed[1..];
      MaskBits(rest, observed);
      MaskDoubles(rest, observed, 0);
      var m := Mask(allowed, observed, 0);
      assert m / 2 == Mask(rest, observed, 0);
      forall i | 0 <= i < |allowed| ensures Bit(m, i) <==> allowed[i] in observed {
        if i > 0 {
          assert rest[i - 1] == allowed[i];
        }
      }
    }
  }

  /** The mask holds exactly the observed times of the grid. */
  lemma DecodeMask(allowed: seq<Time>, observed: set<Time>)
    requires observed <= Times(allowed)
    ensures Decode(allowed, Mask(allowed, observed, 0)) == observed
  {
    MaskBits(allowed, observed);
    forall t <- observed ensures t in Decode(allowed, Mask(allowed, observed, 0)) {
      assert t in allowed;
      var i :| 0 <= i < |allowed| && allowed[i] == t;
      assert Bit(Mask(allowed, observed, 0), i);
    }
  }

  /* ---------- hex ---------- */

  function Pow16(n: nat): nat { if n == 0 then 1 else 16 * Pow16(n - 1) }

  function Digits(m: nat): (ds: seq<nat>)
    ensures ds != [] && forall d <- ds :: d < 16
  {
    if m < 16 then [m] else Digits(m / 16) + [m % 16]
  }

  // `format(mask, "0{width}x")`.
  function Format(m: nat, width: nat): seq<nat> {
    var ds := Digits(m);
    if |ds| < width then Zeros(width - |ds|) + ds else ds
  }

  function Zeros(n: nat): (z: seq<nat>)
    ensures |z| == n && forall d <- z :: d == 0
  {
    if n == 0 then [] else Zeros(n - 1) + [0]
  }

  // `int(text, 16)`.
  function FromHex(ds: seq<nat>): nat {
    if ds == [] then 0 else 16 * FromHex(ds[..|ds| - 1]) + ds[|ds| - 1]
  }

  function Width(allowed: seq<Time>): nat { (|allowed| + 3) / 4 }

  lemma {:induction false} DigitsValue(m: nat)
    ensures FromHex(Digits(m)) == m
    ensures forall w: nat :: w > 0 && m < Pow16(w) ==> |Digits(m)| <= w
  {
    if m >= 16 {
      DigitsValue(m / 16);
      assert Digits(m)[..|Digits(m)| - 1] == Digits(m / 16);
      forall w: nat | w > 0 && m < Pow16(w) ensures |Digits(m)| <= w {
        assert Pow16(1) == 16;
        assert w > 1;
        assert m / 16 < Pow16(w - 1);
      }
    }
  }

  lemma {:induction false} ZerosValue(n: nat)
    ensures FromHex(Zeros(n)) == 0
  {
    if n > 0 {
      ZerosValue(n - 1);
      assert Zeros(n)[..n - 1] == Zeros(n - 1);
    }
  }

  lemma {:induction false} PaddedValue(n: nat, ds: seq<nat>)
    ensures FromHex(Zeros(n) + ds) == FromHex(ds)
  {
    var all := Zeros(n) + ds;
    if ds == [] {
      assert all == Zeros(n);
      ZerosValue(n);
    } else {
      assert all[..|all| - 1] == Zeros(n) + ds[..|ds| - 1];
      PaddedValue(n, ds[..|ds| - 1]);
    }
  }

  lemma {:induction false} BitsFitDigits(n: nat)
    ensures Pow2(n) <= Pow16((n + 3) / 4)
  {
    if n > 4 {
      BitsFitDigits(n - 4);
      assert Pow2(n - 2) == 4 * Pow2(n - 4);
      assert Pow2(n) == 4 * Pow2(n - 2);
      assert (n + 3) / 4 == (n - 4 + 3) / 4 + 1;
    } else if n > 0 {
      assert (n + 3) / 4 == 1 && Pow16(1) == 16;
      assert Pow2(1) == 2 && Pow2(2) == 4 && Pow2(3) == 8 && Pow2(4) == 16;
    }
  }

  /** Written in hex and read back, a mask of the grid is itself and has the full width. */
  lemma HexRoundTrip(allowed: seq<Time>, observed: set<Time>)
    requires allowed != []
    ensures var m := Mask(allowed, observed, 0);
      FromHex(Format(m, Width(allowed))) == m && |Format(m, Width(allowed))| == Width(allowed)
  {
    var m := Mask(allowed, observed, 0);
    MaskBits(allowed, observed);
    BitsFitDigits(|allowed|);
    DigitsValue(m);
    if |Digits(m)| < Width(allowed) {
      PaddedValue(Width(allowed) - |Digits(m)|, Digits(m));
    }
  }

  /* ---------- the proof and its acceptance ---------- */

  predicate RowBelongs(unit: WorkUnit, r: Row) {
    r.aligned && r.date == unit.date && r.code == unit.code
  }

  /** `proof`. */
  function ProofOf(g: Grids, unit: WorkUnit, rows: seq<Row>): Option<Proof> {
    var observed := Observed(rows);
    if !unit.canonical || exists r <- rows :: !RowBelongs(unit, r) then None
    else if !(Times(g.required) <= observed <= Times(g.allowed)) || |rows| != |observed| then None
    else Some(Proof(IdentityOf(g, unit.product, unit.code, unit.date), |rows|, OfTimes(observed),
                    Format(Mask(g.allowed, observed, 0), Width(g.allowed)), OfRows(multiset(rows))))
  }

  predicate TimesDiffer(rows: seq<Row>) {
    forall i, j :: 0 <= i < j < |rows| ==> rows[i].time != rows[j].time
  }

  lemma NextTimeDiffers(front: seq<Row>, last: Row)
    ensures TimesDiffer(front + [last]) <==> TimesDiffer(front) && last.time !in Observed(front)
  {
    var rows := front + [last];
    if TimesDiffer(rows) {
      assert forall i, j :: 0 <= i < j < |front| ==> rows[i] == front[i] && rows[j] == front[j];
      forall r <- front ensures r.time != last.time {
        var i :| 0 <= i < |front| && front[i] == r;
        assert rows[i].time != rows[|front|].time;
      }
    }
  }

  lemma {:induction false} CountsTimes(rows: seq<Row>)
    ensures |Observed(rows)| <= |rows|
    ensures |Observed(rows)| == |rows| <==> TimesDiffer(rows)
  {
    if rows != [] {
      var front, last := rows[..|rows| - 1], rows[|rows| - 1];
      assert rows == front + [last];
      CountsTimes(front);
      NextTimeDiffers(front, last);
      assert Observed(rows) == Observed(front) + {last.time};
    }
  }

  /** Rows have a proof exactly when the unit's code is canonical, every row is an aligned row of the
      unit's own day and code, every required time is there, every time is allowed, and none is
      there twice. */
  lemma ProvableMeans(g: Grids, unit: WorkUnit, rows: seq<Row>)
    ensures ProofOf(g, unit, rows).Some? <==>
      && unit.canonical
      && (forall r <- rows :: r.aligned && r.date == unit.date && r.code == unit.code && r.time in g.allowed)
      && (forall t <- g.required :: exists r <- rows :: r.time == t)
      && (forall i, j :: 0 <= i < j < |rows| ==> rows[i].time != rows[j].time)
  {
    CountsTimes(rows);
    var observed := Observed(rows);
    assert observed <= Times(g.allowed) <==> forall r <- rows :: r.time in g.allowed by {
      if observed <= Times(g.allowed) {
        assert forall r <- rows :: r.time in observed;
      }
    }
    assert Times(g.required) <= observed <==> forall t <- g.required :: exists r <- rows :: r.time == t by {
      if Times(g.required) <= observed {
        assert forall t <- g.required :: t in Times(g.required);
      }
    }
  }

  /** Equal proofs are proofs of the same product, code, day, grids and rows. */
  lemma ProofTells(g: Grids, a: WorkUnit, xs: seq<Row>, h: Grids, b: WorkUnit, ys: seq<Row>)
    requires ProofOf(g, a, xs).Some? && ProofOf(h, b, ys).Some?
    ensures ProofOf(g, a, xs) == ProofOf(h, b, ys) <==>
      a.product == b.product && a.code == b.code && a.date == b.date && g == h && multiset(xs) == multiset(ys)
  {
    if multiset(xs) == multiset(ys) {
      assert |multiset(xs)| == |xs| && |multiset(ys)| == |ys|;
      forall t ensures t in Observed(xs) <==> t in Observed(ys) {
        assert forall r :: r in xs <==> r in multiset(xs);
        assert forall r :: r in ys <==> r in multiset(ys);
      }
      assert Observed(xs) == Observed(ys);
    }
  }

  datatype State = State(complete: bool, code: int, date: int, writtenRows: int, proof: Option<Proof>, missing: int, outOfScope: int)

  function Bitmap(p: Proof): nat { FromHex(p.bitmap) }

  /** `verified_complete` of a minute product. */
  predicate Verified(g: Grids, product: int, code: int, state: State) {
    && state.complete && state.proof.Some?
    && var p := state.proof.value;
       && p.identity == IdentityOf(g, product, code, state.date)
       && state.writtenRows == p.rowCount && state.missing == 0 && state.outOfScope == 0
       && |p.bitmap| == Width(g.allowed) && (forall d <- p.bitmap :: d < 16)
       && Shifted(Bitmap(p), |g.allowed|) == 0
       && var observed := Decode(g.allowed, Bitmap(p));
          && Times(g.required) <= observed && |observed| == p.rowCount && p.observed == OfTimes(observed)
          && p.content.OfRows?
  }

  // What the normaliser and the commit store for an accepted unit.
  function Stored(g: Grids, unit: WorkUnit, rows: seq<Row>, p: Proof): State {
    var actual := Observed(rows);
    State(true, unit.code, unit.date, |rows|, Some(p), |Times(g.required) - actual|, |actual - Times(g.allowed)|)
  }

  /** Whatever rows are accepted, the bitmap stands for exactly their times, and the state that is
      stored is accepted by every later reader. */
  lemma EvidenceRoundTrip(g: Grids, unit: WorkUnit, rows: seq<Row>)
    requires ValidGrids(g) && g.allowed != [] && ProofOf(g, unit, rows).Some?
    ensures var p := ProofOf(g, unit, rows).value;
      && Decode(g.allowed, Bitmap(p)) == Observed(rows)
      && Verified(g, unit.product, unit.code, Stored(g, unit, rows, p))
  {
    var observed := Observed(rows);
    MaskBits(g.allowed, observed);
    DecodeMask(g.allowed, observed);
    HexRoundTrip(g.allowed, observed);
    FormatDigits(Mask(g.allowed, observed, 0), Width(g.allowed));
    assert Times(g.required) - observed == {} && observed - Times(g.allowed) == {};
  }

  lemma FormatDigits(m: nat, width: nat)
    ensures forall d <- Format(m, width) :: d < 16
  {
  }

  /** Whatever state is accepted, it is a complete one without gaps or strays, and its bitmap names
      a complete set of allowed times, as many as rows were written. */
  lemma EvidenceIsComplete(g: Grids, product: int, code: int, state: State)
    requires ValidGrids(g) && Verified(g, product, code, state)
    ensures state.complete && state.missing == 0 && state.outOfScope == 0
    ensures var observed := Decode(g.allowed, Bitmap(state.proof.value));
      Times(g.required) <= observed <= Times(g.allowed) && |observed| == state.writtenRows
  {
  }

  /** Evidence made for one inventory is accepted for no other product, code, day or grids. */
  lemma EvidenceIsOwn(g: Grids, unit: WorkUnit, rows: seq<Row>, h: Grids, product: int, code: int, state: State)
    requires ProofOf(g, unit, rows).Some? && state.proof == ProofOf(g, unit, rows) && Verified(h, product, code, state)
    ensures product == unit.product && code == unit.code && state.date == unit.date && h == g
    ensures state.writtenRows == |rows| && Decode(h.allowed, Bitmap(state.proof.value)) == Observed(rows)
  {
  }

  /** Two accepted units with the same bitmap observed the same times; a different time shows. */
  lemma BitmapIsFaithful(g: Grids, a: WorkUnit, xs: seq<Row>, b: WorkUnit, ys: seq<Row>)
    requires ValidGrids(g) && g.allowed != [] && ProofOf(g, a, xs).Some? && ProofOf(g, b, ys).Some?
    ensures ProofOf(g, a, xs).value.bitmap == ProofOf(g, b, ys).value.bitmap <==> Observed(xs) == Observed(ys)
  {
    EvidenceRoundTrip(g, a, xs);
    EvidenceRoundTrip(g, b, ys);
  }

  /** An empty grid is the exception: its bitmap is one digit wide where none is expected, so even
      an empty inventory is never accepted. */
  lemma EmptyGridIsNeverAccepted(unit: WorkUnit)
    requires unit.canonical
    ensures var g := Grids([], []);
      ProofOf(g, unit, []).Some? && !Verified(g, unit.product, unit.code, Stored(g, unit, [], ProofOf(g, unit, []).value))
  {
    var g := Grids([], []);
    assert Observed([]) == {} && Times([]) == {};
    assert |Format(0, 0)| == 1;
  }
}
