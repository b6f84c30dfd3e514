/** The blinking-caret detector of the login driver (integrations/qmt_login_profile.py,
    `blink_caret`). */
module Caret {
  import opened Basics
  import opened ScreenImage

  datatype CaretError = SequenceInvalid | Unstable | ShapeInvalid | NotFound | CyclesInsufficient

  datatype Located = Ok(caret: Rect) | Err(error: CaretError)

  type Point = (int, int)

  // What a frame shows at some pixels.
  datatype Patch = Patch(colors: seq<Rgb>)

  const MAX_CHANGED := 48
  const MIN_DIFFERENCE := 90
  const MAX_DARK := 128

  // Frames of one size, all of them holding the region.
  predicate Comparable(frames: seq<Frame>, roi: Rect) {
    && 0 < |frames| && roi.Valid()
    && (forall f <- frames :: f.Valid() && f.width == frames[0].width && f.height == frames[0].height)
    && roi.right <= frames[0].width && roi.bottom <= frames[0].height
  }

  // What the detector agrees to look at.
  predicate ValidSequence(frames: seq<Frame>, roi: Rect) {
    5 <= |frames| <= 64 && Comparable(frames, roi) && roi.Width() * roi.Height() * |frames| <= 4_000_000
  }

  function Distance(a: Rgb, b: Rgb): int {
    Abs(a.r - b.r) + Abs(a.g - b.g) + Abs(a.b - b.b)
  }

  function Abs(x: int): int { if x < 0 then -x else x }

  function Max(x: int, y: int): int { if x < y then y else x }

  /* ---------- what counts as a caret ---------- */

  function Pixels(r: Rect): set<Point> {
    set x, y | r.left <= x < r.right && r.top <= y < r.bottom :: (x, y)
  }

  // Some frame differs from the first one here.
  ghost predicate Changes(frames: seq<Frame>, roi: Rect, x: int, y: int)
    requires Comparable(frames, roi)
  {
    && roi.Contains(x, y)
    && exists f <- frames :: f.At(x, y) != frames[0].At(x, y)
  }

  // No pixel of the region ever moves by less than a clear difference.
  ghost predicate Stable(frames: seq<Frame>, roi: Rect)
    requires Comparable(frames, roi)
  {
    forall f <- frames :: SteadyIn(frames[0], f, roi)
  }

  // Two frames show the same inside `r`.
  ghost predicate Same(a: Frame, b: Frame, r: Rect)
    requires a.Valid() && b.Valid() && r.Valid()
    requires r.right <= a.width && r.bottom <= a.height && r.right <= b.width && r.bottom <= b.height
  {
    forall x, y | r.Contains(x, y) :: a.At(x, y) == b.At(x, y)
  }

  ghost predicate Solid(f: Frame, r: Rect, color: Rgb)
    requires f.Valid() && r.Valid() && r.right <= f.width && r.bottom <= f.height
  {
    forall x, y | r.Contains(x, y) :: f.At(x, y) == color
  }

  predicate Dark(color: Rgb) {
    color.r <= MAX_DARK && color.g <= MAX_DARK && color.b <= MAX_DARK
  }

  // Only what lies inside `r` ever changes, and it is a bar of the right size.
  ghost predicate IsBar(frames: seq<Frame>, roi: Rect, r: Rect)
    requires Comparable(frames, roi)
  {
    && r.Valid() && r.right <= roi.right && r.bottom <= roi.bottom
    && 1 <= r.Width() <= 2 && 8 <= r.Height() <= 24
    && forall x, y :: Changes(frames, roi, x, y) <==> r.Contains(x, y)
  }

  // Frames i, k and m show one patch, j and l the other: two complete cycles.
  ghost predicate Cycles(frames: seq<Frame>, r: Rect, i: nat, j: nat, k: nat, l: nat, m: nat)
    requires Inside(frames, r)
  {
    && i < j < k < l < m < |frames|
    && !Same(frames[i], frames[j], r)
    && Same(frames[i], frames[k], r) && Same(frames[j], frames[l], r) && Same(frames[k], frames[m], r)
  }

  ghost predicate CyclesTwice(frames: seq<Frame>, r: Rect)
    requires Inside(frames, r)
  {
    exists i, j, k, l, m :: Cycles(frames, r, i, j, k, l, m)
  }

  ghost predicate Inside(frames: seq<Frame>, r: Rect) {
    r.Valid() && forall i :: 0 <= i < |frames| ==> frames[i].Valid() && r.right <= frames[i].width && r.bottom <= frames[i].height
  }

  // Every frame shows what the first one shows or what frame `b` shows.
  ghost predicate EitherPatch(frames: seq<Frame>, r: Rect, b: nat)
    requires Inside(frames, r)
  {
    b < |frames| && forall i | 0 <= i < |frames| :: Same(frames[i], frames[0], r) || Same(frames[i], frames[b], r)
  }

  ghost predicate TwoPatches(frames: seq<Frame>, r: Rect)
    requires Inside(frames, r)
  {
    exists b :: EitherPatch(frames, r, b)
  }

  lemma BarIsInside(frames: seq<Frame>, roi: Rect, r: Rect)
    requires Comparable(frames, roi) && IsBar(frames, roi, r)
    ensures Inside(frames, r)
  {
    forall i | 0 <= i < |frames|
      ensures frames[i].Valid() && r.right <= frames[i].width && r.bottom <= frames[i].height
    {
      assert frames[i] in frames;
    }
  }

  ghost predicate SolidFrame(frames: seq<Frame>, r: Rect, i: nat)
    requires Inside(frames, r)
  {
    i < |frames| && exists c :: Solid(frames[i], r, c)
  }

  ghost predicate DarkFrame(frames: seq<Frame>, r: Rect, i: nat)
    requires Inside(frames, r)
  {
    i < |frames| && exists c :: Solid(frames[i], r, c) && Dark(c)
  }

  // A patch of one colour that is dark, unless both patches are of one colour each.
  ghost predicate Contrast(frames: seq<Frame>, r: Rect)
    requires Inside(frames, r)
  {
    (forall i | 0 <= i < |frames| :: SolidFrame(frames, r, i)) || (exists i :: DarkFrame(frames, r, i))
  }

  /** A caret: a steady bar, alone in changing, that goes through two full cycles of exactly
      two patches. */
  ghost predicate IsCaret(frames: seq<Frame>, roi: Rect, r: Rect)
    requires Comparable(frames, roi)
  {
    && Stable(frames, roi) && IsBar(frames, roi, r) && Inside(frames, r) && TwoPatches(frames, r)
    && CyclesTwice(frames, r) && Contrast(frames, r)
  }

  /* ---------- counting pixels ---------- */

  lemma {:induction false} PixelCount(r: Rect)
    requires r.left <= r.right && r.top <= r.bottom
    ensures |Pixels(r)| == r.Width() * r.Height()
    decreases r.right - r.left
  {
    if r.left == r.right {
      assert Pixels(r) == {};
    } else {
      var less, column := r.(right := r.right - 1), Rect(r.right - 1, r.top, r.right, r.bottom);
      PixelCount(less);
      ColumnCount(r.right - 1, r.top, r.bottom);
      assert Pixels(r) == Pixels(less) + Pixels(column) by {
        forall p ensures p in Pixels(r) <==> p in Pixels(less) + Pixels(column) {}
      }
      assert Pixels(less) !! Pixels(column);
      OneMoreColumn(less.Width(), r.Height());
    }
  }

  lemma OneMoreColumn(w: int, h: int)
    ensures (w + 1) * h == w * h + h
  {
  }

  lemma {:induction false} ColumnCount(x: int, top: int, bottom: int)
    requires top <= bottom
    ensures |Pixels(Rect(x, top, x + 1, bottom))| == bottom - top
    decreases bottom - top
  {
    if top == bottom {
      assert Pixels(Rect(x, top, x + 1, bottom)) == {};
    } else {
      ColumnCount(x, top, bottom - 1);
      assert Pixels(Rect(x, top, x + 1, bottom)) == Pixels(Rect(x, top, x + 1, bottom - 1)) + {(x, bottom - 1)};
    }
  }

  /* ---------- alternations ---------- */

  function Transitions<T(==)>(sts: seq<T>): nat {
    if |sts| <= 1 then 0
    else Transitions(sts[..|sts| - 1]) + if sts[|sts| - 1] != sts[|sts| - 2] then 1 else 0
  }

  predicate Alternates<T(==)>(sts: seq<T>, i: nat, j: nat, k: nat, l: nat, m: nat) {
    && i < j < k < l < m < |sts|
    && sts[i] != sts[j] && sts[i] == sts[k] == sts[m] && sts[j] == sts[l]
  }

  ghost predicate AlternatesTwice<T>(sts: seq<T>) {
    exists i, j, k, l, m :: Alternates(sts, i, j, k, l, m)
  }

  lemma {:induction false} Moves<T>(sts: seq<T>, p: nat, q: nat)
    requires p <= q < |sts|
    ensures Transitions(sts[..q + 1]) >= Transitions(sts[..p + 1]) + if sts[p] != sts[q] then 1 else 0
    decreases q - p
  {
    if p < q {
      Moves(sts, p, q - 1);
      assert sts[..q + 1][..q] == sts[..q];
    }
  }

  // The last change: nothing moves after it.
  lemma {:induction false} LastMove<T>(sts: seq<T>) returns (p: nat)
    requires Transitions(sts) > 0
    ensures 1 <= p < |sts| && sts[p] != sts[p - 1]
    ensures forall q | p <= q < |sts| :: sts[q] == sts[p]
    ensures Transitions(sts[..p]) == Transitions(sts) - 1
    decreases |sts|
  {
    var front := sts[..|sts| - 1];
    if sts[|sts| - 1] != sts[|sts| - 2] {
      p := |sts| - 1;
    } else {
      p := LastMove(front);
      assert front[..p] == sts[..p];
    }
  }

  lemma TransitionsGiveCycles<T>(sts: seq<T>, a: T, b: T)
    requires forall i | 0 <= i < |sts| :: sts[i] == a || sts[i] == b
    requires Transitions(sts) >= 4
    ensures AlternatesTwice(sts)
  {
    var m := LastMove(sts);
    var l := LastMove(sts[..m]);
    assert sts[..m][..l] == sts[..l];
    var k := LastMove(sts[..l]);
    assert sts[..l][..k] == sts[..k];
    var j := LastMove(sts[..k]);
    assert sts[m - 1] == sts[l] && sts[l - 1] == sts[k] && sts[k - 1] == sts[j];
    assert sts[m] == a || sts[m] == b;
    assert Alternates(sts, j - 1, j, k, l, m);
  }

  lemma CyclesGiveTransitions<T>(sts: seq<T>, i: nat, j: nat, k: nat, l: nat, m: nat)
    requires Alternates(sts, i, j, k, l, m)
    ensures Transitions(sts) >= 4
  {
    Moves(sts, i, j);
    Moves(sts, j, k);
    Moves(sts, k, l);
    Moves(sts, l, m);
    Moves(sts, m, |sts| - 1);
    assert sts[..|sts| - 1 + 1] == sts;
  }

  /** With two patches, four transitions are two full cycles, and the other way round. */
  lemma CyclesAreTransitions<T>(sts: seq<T>, a: T, b: T)
    requires forall i | 0 <= i < |sts| :: sts[i] == a || sts[i] == b
    ensures Transitions(sts) >= 4 <==> AlternatesTwice(sts)
  {
    if Transitions(sts) >= 4 {
      TransitionsGiveCycles(sts, a, b);
    }
    if i, j, k, l, m :| Alternates(sts, i, j, k, l, m) {
      CyclesGiveTransitions(sts, i, j, k, l, m);
    }
  }

  /* ---------- the first pass: which pixels change ---------- */

  predicate Holds(f: Frame, r: Rect) {
    f.Valid() && 0 <= r.left && 0 <= r.top && r.right <= f.width && r.bottom <= f.height
  }

  // Where two frames differ in row y, left of column x.
  function RowDiffer(a: Frame, b: Frame, r: Rect, y: int, x: int): set<Point>
    requires Holds(a, r) && Holds(b, r) && r.top <= y < r.bottom && x <= r.right
    decreases x - r.left
  {
    if x <= r.left then {}
    else RowDiffer(a, b, r, y, x - 1) + if a.At(x - 1, y) != b.At(x - 1, y) then {(x - 1, y)} else {}
  }

  // Where two frames differ above row y.
  function RowsDiffer(a: Frame, b: Frame, r: Rect, y: int): set<Point>
    requires Holds(a, r) && Holds(b, r) && r.Valid() && y <= r.bottom
    decreases y - r.top
  {
    if y <= r.top then {} else RowsDiffer(a, b, r, y - 1) + RowDiffer(a, b, r, y - 1, r.right)
  }

  function DifferIn(a: Frame, b: Frame, r: Rect): set<Point>
    requires Holds(a, r) && Holds(b, r) && r.Valid()
  {
    RowsDiffer(a, b, r, r.bottom)
  }

  lemma {:induction false} InRow(a: Frame, b: Frame, r: Rect, y: int, x: int, i: int, j: int)
    requires Holds(a, r) && Holds(b, r) && r.top <= y < r.bottom && x <= r.right
    ensures (i, j) in RowDiffer(a, b, r, y, x) <==> r.left <= i < x && j == y && a.At(i, j) != b.At(i, j)
    decreases x - r.left
  {
    if x > r.left {
      InRow(a, b, r, y, x - 1, i, j);
    }
  }

  lemma {:induction false} InRows(a: Frame, b: Frame, r: Rect, y: int, i: int, j: int)
    requires Holds(a, r) && Holds(b, r) && r.Valid() && y <= r.bottom
    ensures (i, j) in RowsDiffer(a, b, r, y) <==> r.left <= i < r.right && r.top <= j < y && a.At(i, j) != b.At(i, j)
    decreases y - r.top
  {
    if y > r.top {
      InRows(a, b, r, y - 1, i, j);
      InRow(a, b, r, y - 1, r.right, i, j);
    }
  }

  lemma SameFrame(a: Frame, r: Rect)
    requires Holds(a, r) && r.Valid()
    ensures DifferIn(a, a, r) == {}
  {
    forall p <- DifferIn(a, a, r) ensures false {
      InRows(a, a, r, r.bottom, p.0, p.1);
    }
  }

  lemma {:induction false} RowGrows(a: Frame, b: Frame, r: Rect, y: int, x: int, z: int)
    requires Holds(a, r) && Holds(b, r) && r.top <= y < r.bottom && x <= z <= r.right
    ensures RowDiffer(a, b, r, y, x) <= RowDiffer(a, b, r, y, z)
    decreases z
  {
    if x < z && r.left < z {
      RowGrows(a, b, r, y, x, z - 1);
    }
  }

  lemma {:induction false} RowsGrow(a: Frame, b: Frame, r: Rect, y: int, z: int)
    requires Holds(a, r) && Holds(b, r) && r.Valid() && y <= z <= r.bottom
    ensures RowsDiffer(a, b, r, y) <= RowsDiffer(a, b, r, z)
    decreases z
  {
    if y < z && r.top < z {
      RowsGrow(a, b, r, y, z - 1);
    }
  }

  predicate SteadyPixel(a: Frame, b: Frame, x: int, y: int)
    requires a.Valid() && b.Valid() && a.Has(x, y) && b.Has(x, y)
  {
    a.At(x, y) == b.At(x, y) || Distance(a.At(x, y), b.At(x, y)) >= MIN_DIFFERENCE
  }

  ghost predicate SteadyIn(a: Frame, b: Frame, r: Rect)
    requires Holds(a, r) && Holds(b, r)
  {
    forall x, y | r.Contains(x, y) :: SteadyPixel(a, b, x, y)
  }

  datatype Scan = Clean | Stop(error: CaretError)

  method ScanRow(a: Frame, b: Frame, r: Rect, y: int, before: set<Point>) returns (out: Scan, changed: set<Point>)
    requires Holds(a, r) && Holds(b, r) && r.Valid() && r.top <= y < r.bottom
    ensures out == Clean ==> changed == before + RowDiffer(a, b, r, y, r.right)
    ensures out == Clean ==> forall x | r.left <= x < r.right :: SteadyPixel(a, b, x, y)
    ensures out == Stop(Unstable) ==> exists x :: r.left <= x < r.right && !SteadyPixel(a, b, x, y)
    ensures out.Stop? && out.error != Unstable ==>
      out.error == ShapeInvalid && |changed| > MAX_CHANGED && changed <= before + RowDiffer(a, b, r, y, r.right)
  {
    changed := before;
    var x := r.left;
    while x < r.right
      invariant r.left <= x <= r.right
      invariant changed == before + RowDiffer(a, b, r, y, x)
      invariant forall i | r.left <= i < x :: SteadyPixel(a, b, i, y)
    {
      var p, q := a.At(x, y), b.At(x, y);
      if p != q {
        if Distance(p, q) < MIN_DIFFERENCE {
          assert !SteadyPixel(a, b, x, y);
          return Stop(Unstable), changed;
        }
        changed := changed + {(x, y)};
        if |changed| > MAX_CHANGED {
          RowGrows(a, b, r, y, x + 1, r.right);
          return Stop(ShapeInvalid), changed;
        }
      }
      x := x + 1;
    }
    out := Clean;
  }

  method ScanFrame(a: Frame, b: Frame, r: Rect, before: set<Point>) returns (out: Scan, changed: set<Point>)
    requires Holds(a, r) && Holds(b, r) && r.Valid()
    ensures out == Clean ==> SteadyIn(a, b, r) && changed == before + DifferIn(a, b, r)
    ensures out == Stop(Unstable) ==> !SteadyIn(a, b, r)
    ensures out.Stop? && out.error != Unstable ==>
      out.error == ShapeInvalid && |changed| > MAX_CHANGED && changed <= before + DifferIn(a, b, r)
  {
    changed := before;
    var y := r.top;
    while y < r.bottom
      invariant r.top <= y <= r.bottom
      invariant changed == before + RowsDiffer(a, b, r, y)
      invariant forall i, j | r.left <= i < r.right && r.top <= j < y :: SteadyPixel(a, b, i, j)
    {
      out, changed := ScanRow(a, b, r, y, changed);
      if out != Clean {
        RowsGrow(a, b, r, y + 1, r.bottom);
        return;
      }
      y := y + 1;
    }
    out := Clean;
  }

  // What differs from the first frame in one of the first `n`.
  function DifferUpTo(frames: seq<Frame>, roi: Rect, n: nat): set<Point>
    requires Comparable(frames, roi) && n <= |frames|
  {
    if n == 0 then {}
    else
      assert frames[n - 1] in frames;
      DifferUpTo(frames, roi, n - 1) + DifferIn(frames[0], frames[n - 1], roi)
  }

  lemma {:induction false} DifferGrows(frames: seq<Frame>, roi: Rect, n: nat, m: nat)
    requires Comparable(frames, roi) && n <= m <= |frames|
    ensures DifferUpTo(frames, roi, n) <= DifferUpTo(frames, roi, m)
    decreases m
  {
    if n < m {
      DifferGrows(frames, roi, n, m - 1);
    }
  }

  lemma {:induction false} DifferIsChanges(frames: seq<Frame>, roi: Rect, n: nat, x: int, y: int)
    requires Comparable(frames, roi) && n <= |frames|
    ensures (x, y) in DifferUpTo(frames, roi, n) <==>
            roi.Contains(x, y) && exists f <- frames[..n] :: f in frames && f.At(x, y) != frames[0].At(x, y)
  {
    if n > 0 {
      InRows(frames[0], frames[n - 1], roi, roi.bottom, x, y);
      DifferIsChanges(frames, roi, n - 1, x, y);
      assert frames[..n] == frames[..n - 1] + [frames[n - 1]];
      assert frames[n - 1] in frames[..n] && frames[n - 1] in frames;
    }
  }

  lemma AllDifferences(frames: seq<Frame>, roi: Rect)
    requires Comparable(frames, roi)
    ensures forall x, y :: (x, y) in DifferUpTo(frames, roi, |frames|) <==> Changes(frames, roi, x, y)
  {
    forall x, y ensures (x, y) in DifferUpTo(frames, roi, |frames|) <==> Changes(frames, roi, x, y) {
      DifferIsChanges(frames, roi, |frames|, x, y);
      assert frames[..|frames|] == frames;
    }
  }

  ghost predicate SteadyAt(frames: seq<Frame>, roi: Rect, i: nat)
    requires Comparable(frames, roi) && i < |frames|
  {
    frames[i] in frames && SteadyIn(frames[0], frames[i], roi)
  }

  lemma StableIsSteady(frames: seq<Frame>, roi: Rect)
    requires Comparable(frames, roi)
    ensures Stable(frames, roi) <==> forall i | 0 <= i < |frames| :: SteadyAt(frames, roi, i)
  {
    if forall i | 0 <= i < |frames| :: SteadyAt(frames, roi, i) {
      forall f <- frames ensures SteadyIn(frames[0], f, roi) {
        var i :| 0 <= i < |frames| && frames[i] == f;
        assert SteadyAt(frames, roi, i);
      }
    }
    if Stable(frames, roi) {
      forall i | 0 <= i < |frames| ensures SteadyAt(frames, roi, i) {
        assert frames[i] in frames;
      }
    }
  }

  method FindChanges(frames: seq<Frame>, roi: Rect) returns (out: Scan, changed: set<Point>)
    requires Comparable(frames, roi)
    ensures out == Clean ==> Stable(frames, roi) && changed == DifferUpTo(frames, roi, |frames|)
    ensures out == Stop(Unstable) ==> !Stable(frames, roi)
    ensures out.Stop? && out.error != Unstable ==>
      out.error == ShapeInvalid && |changed| > MAX_CHANGED && changed <= DifferUpTo(frames, roi, |frames|)
  {
    changed := {};
    StableIsSteady(frames, roi);
    SameFrame(frames[0], roi);
    assert DifferUpTo(frames, roi, 1) == {} && SteadyAt(frames, roi, 0);
    var i := 1;
    while i < |frames|
      invariant 1 <= i <= |frames|
      invariant forall k | 0 <= k < i :: SteadyAt(frames, roi, k)
      invariant changed == DifferUpTo(frames, roi, i)
    {
      assert frames[i] in frames;
      out, changed := ScanFrame(frames[0], frames[i], roi, changed);
      if out != Clean {
        DifferGrows(frames, roi, i + 1, |frames|);
        assert out == Stop(Unstable) ==> !SteadyAt(frames, roi, i);
        return;
      }
      i := i + 1;
    }
    out := Clean;
  }

  /* ---------- the bounding rectangle ---------- */

  ghost predicate Bounds(points: set<Point>, r: Rect) {
    && (forall p <- points :: r.Contains(p.0, p.1))
    && (exists p <- points :: p.0 == r.left) && (exists p <- points :: p.0 == r.right - 1)
    && (exists p <- points :: p.1 == r.top) && (exists p <- points :: p.1 == r.bottom - 1)
  }

  method Bound(points: set<Point>) returns (r: Rect)
    requires points != {}
    ensures Bounds(points, r)
  {
    var seed :| seed in points;
    r := Rect(seed.0, seed.1, seed.0 + 1, seed.1 + 1);
    ghost var seen := {seed};
    var rest := points - {seed};
    while rest != {}
      invariant seen + rest == points
      invariant Bounds(seen, r)
    {
      var p :| p in rest;
      ghost var narrower, fewer := r, seen;
      r := Rect(if p.0 < r.left then p.0 else r.left, if p.1 < r.top then p.1 else r.top,
                if p.0 >= r.right then p.0 + 1 else r.right, if p.1 >= r.bottom then p.1 + 1 else r.bottom);
      seen, rest := seen + {p}, rest - {p};
      WiderBounds(fewer, narrower, p, r);
    }
    assert seen == points;
  }

  lemma WiderBounds(points: set<Point>, r: Rect, p: Point, wider: Rect)
    requires Bounds(points, r)
    requires wider == Rect(if p.0 < r.left then p.0 else r.left, if p.1 < r.top then p.1 else r.top,
                           if p.0 >= r.right then p.0 + 1 else r.right, if p.1 >= r.bottom then p.1 + 1 else r.bottom)
    ensures Bounds(points + {p}, wider)
  {
    var all := points + {p};
    assert p in all && forall q <- points :: q in all;
  }

  // A full rectangle is its own bounding rectangle.
  lemma BoundsOfPixels(r: Rect, b: Rect)
    requires r.Valid() && Bounds(Pixels(r), b)
    ensures r == b
  {
    assert (r.left, r.top) in Pixels(r) && (r.right - 1, r.bottom - 1) in Pixels(r);
  }

  /** The changed pixels fill their bounding rectangle exactly when there are as many of them. */
  lemma FullWhenCounted(points: set<Point>, b: Rect)
    requires points != {} && Bounds(points, b)
    ensures |points| == b.Width() * b.Height() <==> points == Pixels(b)
  {
    PixelCount(b);
    assert points <= Pixels(b);
    if |points| == |Pixels(b)| {
      SameSize(points, Pixels(b));
    }
  }
}
