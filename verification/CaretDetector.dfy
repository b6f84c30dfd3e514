/** The second pass of the caret detector, and the whole of it
    (integrations/qmt_login_profile.py, `blink_caret`). */
module CaretDetector {
  import opened Basics
  import opened ScreenImage
  import opened Caret

  ghost predicate Covers(coordinates: seq<Point>, r: Rect) {
    forall x, y :: (x, y) in coordinates <==> r.Contains(x, y)
  }

  predicate Reads(f: Frame, coordinates: seq<Point>) {
    f.Valid() && forall p <- coordinates :: f.Has(p.0, p.1)
  }

  // The colours of a frame at these pixels.
  function PatchOf(f: Frame, coordinates: seq<Point>): Patch
    requires Reads(f, coordinates)
  {
    Patch(seq(|coordinates|, i requires 0 <= i < |coordinates| => ColorAt(f, coordinates, i)))
  }

  function ColorAt(f: Frame, coordinates: seq<Point>, i: nat): Rgb
    requires Reads(f, coordinates) && i < |coordinates|
  {
    assert coordinates[i] in coordinates;
    f.At(coordinates[i].0, coordinates[i].1)
  }

  ghost predicate Readable(frames: seq<Frame>, coordinates: seq<Point>, r: Rect) {
    && Inside(frames, r) && Covers(coordinates, r) && coordinates != [] && frames != []
    && AllRead(frames, coordinates)
  }

  ghost predicate AllRead(frames: seq<Frame>, coordinates: seq<Point>) {
    forall i :: 0 <= i < |frames| ==> Reads(frames[i], coordinates)
  }

  ghost function Patches(frames: seq<Frame>, coordinates: seq<Point>): (sts: seq<Patch>)
    requires AllRead(frames, coordinates)
  {
    seq(|frames|, i requires 0 <= i < |frames| => PatchOf(frames[i], coordinates))
  }

  lemma PatchesCompare(frames: seq<Frame>, coordinates: seq<Point>, r: Rect, i: nat, j: nat)
    requires Readable(frames, coordinates, r) && i < |frames| && j < |frames|
    ensures Patches(frames, coordinates)[i] == Patches(frames, coordinates)[j] <==> Same(frames[i], frames[j], r)
  {
    var a, b := frames[i], frames[j];
    if PatchOf(a, coordinates) == PatchOf(b, coordinates) {
      forall x, y | r.Contains(x, y) ensures a.At(x, y) == b.At(x, y) {
        var n :| 0 <= n < |coordinates| && coordinates[n] == (x, y);
        assert PatchOf(a, coordinates).colors[n] == PatchOf(b, coordinates).colors[n];
      }
    }
    if Same(a, b, r) {
      forall n | 0 <= n < |coordinates| ensures PatchOf(a, coordinates).colors[n] == PatchOf(b, coordinates).colors[n] {
        assert (coordinates[n].0, coordinates[n].1) in coordinates;
      }
      assert PatchOf(a, coordinates).colors == PatchOf(b, coordinates).colors;
    }
  }

  predicate OneColor(patch: Patch) {
    patch.colors != [] && forall c <- patch.colors :: c == patch.colors[0]
  }

  lemma PatchIsSolid(frames: seq<Frame>, coordinates: seq<Point>, r: Rect, k: nat, c: Rgb)
    requires Readable(frames, coordinates, r) && k < |frames|
    ensures var patch := Patches(frames, coordinates)[k];
      patch.colors != [] && (Solid(frames[k], r, c) <==> OneColor(patch) && patch.colors[0] == c)
  {
    var f, patch := frames[k], PatchOf(frames[k], coordinates);
    if Solid(f, r, c) {
      forall i | 0 <= i < |coordinates| ensures patch.colors[i] == c {
        assert (coordinates[i].0, coordinates[i].1) in coordinates;
      }
    }
    if OneColor(patch) && patch.colors[0] == c {
      forall x, y | r.Contains(x, y) ensures f.At(x, y) == c {
        var i :| 0 <= i < |coordinates| && coordinates[i] == (x, y);
        assert patch.colors[i] in patch.colors;
      }
    }
  }

  /* ---------- the same conditions on patches ---------- */

  predicate EitherOf(sts: seq<Patch>, b: nat) {
    b < |sts| && forall i | 0 <= i < |sts| :: sts[i] == sts[0] || sts[i] == sts[b]
  }

  predicate DarkPatch(sts: seq<Patch>, i: nat) {
    i < |sts| && OneColor(sts[i]) && Dark(sts[i].colors[0])
  }

  predicate SolidPatch(sts: seq<Patch>, i: nat) {
    i < |sts| && OneColor(sts[i])
  }

  ghost predicate PatchContrast(sts: seq<Patch>) {
    (forall i | 0 <= i < |sts| :: SolidPatch(sts, i)) || (exists i :: DarkPatch(sts, i))
  }

  lemma EitherOfPatches(frames: seq<Frame>, coordinates: seq<Point>, r: Rect, b: nat)
    requires Readable(frames, coordinates, r)
    ensures EitherPatch(frames, r, b) <==> EitherOf(Patches(frames, coordinates), b)
  {
    if b < |frames| {
      forall i | 0 <= i < |frames|
        ensures var sts := Patches(frames, coordinates);
          && (Same(frames[i], frames[0], r) <==> sts[i] == sts[0])
          && (Same(frames[i], frames[b], r) <==> sts[i] == sts[b])
      {
        PatchesCompare(frames, coordinates, r, i, 0);
        PatchesCompare(frames, coordinates, r, i, b);
      }
    }
  }

  lemma CyclesOfPatches(frames: seq<Frame>, coordinates: seq<Point>, r: Rect, i: nat, j: nat, k: nat, l: nat, m: nat)
    requires Readable(frames, coordinates, r)
    ensures Cycles(frames, r, i, j, k, l, m) <==> Alternates(Patches(frames, coordinates), i, j, k, l, m)
  {
    if i < j < k < l < m < |frames| {
      PatchesCompare(frames, coordinates, r, i, j);
      PatchesCompare(frames, coordinates, r, i, k);
      PatchesCompare(frames, coordinates, r, j, l);
      PatchesCompare(frames, coordinates, r, k, m);
    }
  }

  lemma SolidOfPatches(frames: seq<Frame>, coordinates: seq<Point>, r: Rect, i: nat)
    requires Readable(frames, coordinates, r)
    ensures SolidFrame(frames, r, i) <==> SolidPatch(Patches(frames, coordinates), i)
    ensures DarkFrame(frames, r, i) <==> DarkPatch(Patches(frames, coordinates), i)
  {
    if i < |frames| {
      var patch := Patches(frames, coordinates)[i];
      PatchIsSolid(frames, coordinates, r, i, WHITE_RGB);
      forall c ensures patch.colors != [] && (Solid(frames[i], r, c) <==> OneColor(patch) && patch.colors[0] == c) {
        PatchIsSolid(frames, coordinates, r, i, c);
      }
      assert OneColor(patch) ==> Solid(frames[i], r, patch.colors[0]);
    }
  }

  ghost predicate Blinks(sts: seq<Patch>) {
    (exists b :: EitherOf(sts, b)) && AlternatesTwice(sts) && PatchContrast(sts)
  }

  /** The conditions on frames are the conditions on what they show at the changed pixels. */
  lemma PatchesDecide(frames: seq<Frame>, coordinates: seq<Point>, r: Rect)
    requires Readable(frames, coordinates, r)
    ensures TwoPatches(frames, r) && CyclesTwice(frames, r) && Contrast(frames, r) <==> Blinks(Patches(frames, coordinates))
  {
    forall b: nat ensures EitherPatch(frames, r, b) <==> EitherOf(Patches(frames, coordinates), b) {
      EitherOfPatches(frames, coordinates, r, b);
    }
    forall i: nat, j: nat, k: nat, l: nat, m: nat
      ensures Cycles(frames, r, i, j, k, l, m) <==> Alternates(Patches(frames, coordinates), i, j, k, l, m)
    {
      CyclesOfPatches(frames, coordinates, r, i, j, k, l, m);
    }
    forall i: nat
      ensures SolidFrame(frames, r, i) <==> SolidPatch(Patches(frames, coordinates), i)
      ensures DarkFrame(frames, r, i) <==> DarkPatch(Patches(frames, coordinates), i)
    {
      SolidOfPatches(frames, coordinates, r, i);
    }
  }

  /* ---------- the second pass ---------- */

  // The order in which the pixels are read plays no part.
  method Listed(points: set<Point>) returns (coordinates: seq<Point>)
    ensures forall p :: p in coordinates <==> p in points
  {
    coordinates := [];
    var rest := points;
    while rest != {}
      invariant forall p :: p in points <==> p in coordinates || p in rest
    {
      var p :| p in rest;
      coordinates, rest := coordinates + [p], rest - {p};
    }
  }

  // The distinct patches among `sts`, at most two of them.
  predicate DistinctIn(states: seq<Patch>, sts: seq<Patch>) {
    && (forall s <- sts :: s in states) && (forall s <- states :: s in sts)
    && |states| <= 2 && (|states| == 2 ==> states[0] != states[1])
  }

  lemma ThreeAreNotTwo(sts: seq<Patch>, i: nat, states: seq<Patch>)
    requires i < |sts| && DistinctIn(states, sts[..i]) && |states| == 2 && sts[i] !in states
    ensures forall b :: !EitherOf(sts, b)
  {
    assert forall s <- sts[..i] :: s in sts;
    assert states[0] in sts && states[1] in sts;
    forall b: nat ensures !EitherOf(sts, b) {
      EitherCovers(sts, b);
    }
  }

  lemma EitherCovers(sts: seq<Patch>, b: nat)
    ensures EitherOf(sts, b) ==> forall s <- sts :: s == sts[0] || s == sts[b]
  {
  }

  lemma NextPatch(states: seq<Patch>, front: seq<Patch>, state: Patch)
    requires DistinctIn(states, front)
    ensures state in states ==> DistinctIn(states, front + [state])
    ensures state !in states && |states| < 2 ==> DistinctIn(states + [state], front + [state])
  {
    var all := front + [state];
    assert state in all && forall s <- front :: s in all;
    assert forall s <- all :: s in front || s == state;
    assert state in states + [state] && forall s <- states :: s in states + [state];
  }

  lemma NextTransition(sts: seq<Patch>, i: nat)
    requires i < |sts|
    ensures sts[..i + 1] == sts[..i] + [sts[i]]
    ensures Transitions(sts[..i + 1]) == Transitions(sts[..i]) + (if 0 < i && sts[i] != sts[i - 1] then 1 else 0)
  {
    assert sts[..i + 1][..i] == sts[..i];
  }

  // A patch joins the distinct ones, unless it is the third.
  method AddPatch(states: seq<Patch>, state: Patch, ghost sts: seq<Patch>, ghost i: nat)
    returns (ok: bool, more: seq<Patch>)
    requires i < |sts| && state == sts[i] && DistinctIn(states, sts[..i])
    ensures ok ==> DistinctIn(more, sts[..i + 1])
    ensures !ok ==> forall b :: !EitherOf(sts, b)
  {
    NextTransition(sts, i);
    NextPatch(states, sts[..i], state);
    if state in states {
      return true, states;
    }
    if |states| == 2 {
      ThreeAreNotTwo(sts, i, states);
      return false, states;
    }
    ok, more := true, states + [state];
  }

  /** The loop that collects the distinct patches and counts the transitions. */
  method CollectPatches(frames: seq<Frame>, coordinates: seq<Point>, ghost sts: seq<Patch>)
    returns (ok: bool, states: seq<Patch>, transitions: nat)
    requires AllRead(frames, coordinates) && sts == Patches(frames, coordinates)
    ensures ok ==> DistinctIn(states, sts) && transitions == Transitions(sts)
    ensures !ok ==> forall b :: !EitherOf(sts, b)
  {
    ok, states, transitions := true, [], 0;
    var previous := None;
    var i := 0;
    while i < |frames|
      invariant 0 <= i <= |frames|
      invariant DistinctIn(states, sts[..i])
      invariant previous == if i == 0 then None else Some(sts[i - 1])
      invariant transitions == Transitions(sts[..i])
    {
      var state := PatchOf(frames[i], coordinates);
      ok, states := AddPatch(states, state, sts, i);
      if !ok {
        return;
      }
      NextTransition(sts, i);
      if previous.Some? && state != previous.value {
        transitions := transitions + 1;
      }
      previous := Some(state);
      i := i + 1;
    }
    assert sts[..i] == sts;
    ok := true;
  }

  lemma DistinctMeansEither(states: seq<Patch>, sts: seq<Patch>)
    requires DistinctIn(states, sts) && sts != []
    ensures exists b :: EitherOf(sts, b)
  {
    if b :| 0 <= b < |sts| && sts[b] != sts[0] {
      assert sts[b] in sts && sts[0] in sts;
      forall i | 0 <= i < |sts| ensures sts[i] == sts[0] || sts[i] == sts[b] {
        assert sts[i] in sts;
      }
      assert EitherOf(sts, b);
    } else {
      assert EitherOf(sts, 0);
    }
  }

  lemma {:induction false} OnePatchNeverMoves(sts: seq<Patch>, only: Patch)
    requires forall i | 0 <= i < |sts| :: sts[i] == only
    ensures Transitions(sts) == 0
  {
    if |sts| > 1 {
      OnePatchNeverMoves(sts[..|sts| - 1], only);
    }
  }

  lemma ContrastOfStates(states: seq<Patch>, sts: seq<Patch>)
    requires DistinctIn(states, sts) && |states| == 2
    ensures PatchContrast(sts) <==>
      || (OneColor(states[0]) && OneColor(states[1]))
      || (OneColor(states[0]) && Dark(states[0].colors[0])) || (OneColor(states[1]) && Dark(states[1].colors[0]))
  {
    assert states[0] in sts && states[1] in sts;
    var a :| 0 <= a < |sts| && sts[a] == states[0];
    var b :| 0 <= b < |sts| && sts[b] == states[1];
    forall i | 0 <= i < |sts| ensures sts[i] == states[0] || sts[i] == states[1] {
      assert sts[i] in sts;
    }
    assert SolidPatch(sts, a) <==> OneColor(states[0]);
    assert SolidPatch(sts, b) <==> OneColor(states[1]);
    assert DarkPatch(sts, a) <==> OneColor(states[0]) && Dark(states[0].colors[0]);
    assert DarkPatch(sts, b) <==> OneColor(states[1]) && Dark(states[1].colors[0]);
  }

  // What the collected patches and their transitions tell.
  lemma CollectedDecide(states: seq<Patch>, sts: seq<Patch>)
    requires DistinctIn(states, sts) && sts != []
    ensures exists b :: EitherOf(sts, b)
    ensures AlternatesTwice(sts) <==> |states| == 2 && Transitions(sts) >= 4
  {
    DistinctMeansEither(states, sts);
    assert sts[0] in sts;
    var last := states[|states| - 1];
    forall i | 0 <= i < |sts| ensures sts[i] == states[0] || sts[i] == last {
      assert sts[i] in sts;
    }
    if |states| == 1 {
      OnePatchNeverMoves(sts, last);
    }
    CyclesAreTransitions(sts, states[0], last);
  }

  method CheckPatches(frames: seq<Frame>, coordinates: seq<Point>) returns (out: Scan)
    requires AllRead(frames, coordinates) && frames != []
    ensures out == Clean <==> Blinks(Patches(frames, coordinates))
    ensures out.Stop? ==> out.error in {Unstable, CyclesInsufficient}
  {
    ghost var sts := Patches(frames, coordinates);
    var ok, states, transitions := CollectPatches(frames, coordinates, sts);
    if !ok {
      return Stop(Unstable);
    }
    CollectedDecide(states, sts);
    if |states| != 2 || transitions < 4 {
      return Stop(CyclesInsufficient);
    }
    ContrastOfStates(states, sts);
    var solid := (if OneColor(states[0]) then [states[0]] else []) + (if OneColor(states[1]) then [states[1]] else []);
    if solid == [] || (|solid| == 1 && !Dark(solid[0].colors[0])) {
      return Stop(Unstable);
    }
    out := Clean;
  }

  /* ---------- the whole detector ---------- */

  predicate BarSized(r: Rect) {
    r.Valid() && 1 <= r.Width() <= 2 && 8 <= r.Height() <= 24
  }

  lemma SamePoints(a: set<Point>, b: set<Point>)
    requires forall x, y :: (x, y) in a <==> (x, y) in b
    ensures a == b
  {
    forall p: Point ensures p in a <==> p in b {
      var (x, y) := p;
      assert (x, y) in a <==> (x, y) in b;
    }
  }

  lemma BarArea(points: set<Point>, r: Rect)
    requires BarSized(r) && forall x, y :: (x, y) in points <==> r.Contains(x, y)
    ensures points == Pixels(r) && 8 <= |points| <= MAX_CHANGED
  {
    SamePoints(points, Pixels(r));
    PixelCount(r);
    AreaBound(r.Width(), r.Height());
  }

  // The rectangle test, on the bounding rectangle of all changed pixels.
  lemma BoundIsBar(points: set<Point>, b: Rect)
    requires points != {} && Bounds(points, b) && forall x, y | (x, y) in points :: 0 <= x && 0 <= y
    ensures 1 <= b.Width() <= 2 && 8 <= b.Height() <= 24 && |points| == b.Width() * b.Height() ==>
      BarSized(b) && forall x, y :: (x, y) in points <==> b.Contains(x, y)
    ensures forall r :: BarSized(r) && (forall x, y :: (x, y) in points <==> r.Contains(x, y)) ==>
      r == b && |points| == b.Width() * b.Height()
  {
    FullWhenCounted(points, b);
    var p, q :| p in points && p.0 == b.left && q in points && q.1 == b.top;
    assert p == (p.0, p.1) && q == (q.0, q.1) && b.Contains(p.0, p.1);
    forall r | BarSized(r) && forall x, y :: (x, y) in points <==> r.Contains(x, y)
      ensures r == b && |points| == b.Width() * b.Height()
    {
      BarArea(points, r);
      BoundsOfPixels(r, b);
    }
  }

  lemma AreaBound(w: int, h: int)
    requires 1 <= w <= 2 && 8 <= h <= 24
    ensures 8 <= w * h <= MAX_CHANGED
  {
    assert w == 1 || w == 2;
  }

  lemma BarHoldsChanges(frames: seq<Frame>, roi: Rect, changed: set<Point>, r: Rect)
    requires Comparable(frames, roi) && changed == DifferUpTo(frames, roi, |frames|) && IsBar(frames, roi, r)
    ensures BarSized(r) && forall x, y :: (x, y) in changed <==> r.Contains(x, y)
  {
    AllDifferences(frames, roi);
  }

  lemma BarTest(frames: seq<Frame>, roi: Rect, changed: set<Point>, b: Rect)
    requires Comparable(frames, roi) && changed == DifferUpTo(frames, roi, |frames|)
    requires changed != {} && Bounds(changed, b)
    ensures 1 <= b.Width() <= 2 && 8 <= b.Height() <= 24 && |changed| == b.Width() * b.Height() ==> IsBar(frames, roi, b)
    ensures forall r :: IsBar(frames, roi, r) ==> r == b && |changed| == b.Width() * b.Height()
  {
    AllDifferences(frames, roi);
    BoundIsBar(changed, b);
    forall r | IsBar(frames, roi, r) ensures r == b && |changed| == b.Width() * b.Height() {
      BarHoldsChanges(frames, roi, changed, r);
    }
    if 1 <= b.Width() <= 2 && 8 <= b.Height() <= 24 && |changed| == b.Width() * b.Height() {
      assert Changes(frames, roi, b.right - 1, b.bottom - 1);
    }
  }

  lemma NoBarWhenMany(frames: seq<Frame>, roi: Rect, some: set<Point>)
    requires Comparable(frames, roi) && some <= DifferUpTo(frames, roi, |frames|) && |some| > MAX_CHANGED
    ensures forall c :: !IsBar(frames, roi, c)
    ensures exists x, y :: Changes(frames, roi, x, y)
  {
    var all := DifferUpTo(frames, roi, |frames|);
    AllDifferences(frames, roi);
    Smaller(some, all);
    forall c ensures !IsBar(frames, roi, c) {
      if IsBar(frames, roi, c) {
        BarArea(all, c);
      }
    }
    var p :| p in some;
    assert p == (p.0, p.1) && (p.0, p.1) in all;
    assert Changes(frames, roi, p.0, p.1);
  }

  lemma NoBarWithoutChange(frames: seq<Frame>, roi: Rect)
    requires Comparable(frames, roi) && forall x, y :: !Changes(frames, roi, x, y)
    ensures forall c :: !IsBar(frames, roi, c)
  {
    forall c ensures !IsBar(frames, roi, c) {
      assert IsBar(frames, roi, c) ==> c.Contains(c.left, c.top);
    }
  }

  lemma UnstableChanges(frames: seq<Frame>, roi: Rect)
    requires Comparable(frames, roi) && !Stable(frames, roi)
    ensures exists x, y :: Changes(frames, roi, x, y)
  {
    var f :| f in frames && !SteadyIn(frames[0], f, roi);
    var x, y :| roi.Contains(x, y) && !SteadyPixel(frames[0], f, x, y);
    assert Changes(frames, roi, x, y);
  }

  lemma BarIsReadable(frames: seq<Frame>, roi: Rect, r: Rect, coordinates: seq<Point>)
    requires Comparable(frames, roi) && IsBar(frames, roi, r)
    requires forall p :: p in coordinates <==> p in DifferUpTo(frames, roi, |frames|)
    ensures Readable(frames, coordinates, r)
  {
    AllDifferences(frames, roi);
    BarIsInside(frames, roi, r);
    assert (r.left, r.top) in coordinates;
    forall i | 0 <= i < |frames| ensures Reads(frames[i], coordinates) {
      forall p <- coordinates ensures frames[i].Has(p.0, p.1) {
        assert (p.0, p.1) in coordinates;
        assert Changes(frames, roi, p.0, p.1);
        assert r.Contains(p.0, p.1);
      }
    }
  }

  /** `blink_caret` finds exactly the carets: it returns the one there is, and raises when there
      is none. */
  method BlinkCaret(frames: seq<Frame>, roi: Rect) returns (r: Located)
    requires roi.Valid() && forall f <- frames :: f.Valid()
    ensures r == Err(SequenceInvalid) <==> !ValidSequence(frames, roi)
    ensures r.Ok? ==> ValidSequence(frames, roi) && IsCaret(frames, roi, r.caret)
    ensures ValidSequence(frames, roi) && r.Err? ==> forall c :: !IsCaret(frames, roi, c)
    ensures ValidSequence(frames, roi) ==> (r == Err(NotFound) <==> forall x, y :: !Changes(frames, roi, x, y))
  {
    if !ValidSequence(frames, roi) {
      return Err(SequenceInvalid);
    }
    AllDifferences(frames, roi);
    var out, changed := FindChanges(frames, roi);
    if out.Stop? {
      if out.error == Unstable {
        UnstableChanges(frames, roi);
      } else {
        NoBarWhenMany(frames, roi, changed);
      }
      return Err(out.error);
    }
    if changed == {} {
      NoBarWithoutChange(frames, roi);
      return Err(NotFound);
    }
    var caret := Bound(changed);
    BarTest(frames, roi, changed, caret);
    if !(1 <= caret.Width() <= 2 && 8 <= caret.Height() <= 24 && |changed| == caret.Width() * caret.Height()) {
      return Err(ShapeInvalid);
    }
    r := JudgeBar(frames, roi, changed, caret);
  }

  // The part of the detector that looks at the frames again, on the changed pixels only.
  method JudgeBar(frames: seq<Frame>, roi: Rect, changed: set<Point>, caret: Rect) returns (r: Located)
    requires Comparable(frames, roi) && Stable(frames, roi) && IsBar(frames, roi, caret)
    requires changed == DifferUpTo(frames, roi, |frames|)
    ensures r == Ok(caret) <==> IsCaret(frames, roi, caret)
    ensures r.Ok? ==> r.caret == caret
    ensures r.Err? ==> r.error in {Unstable, CyclesInsufficient}
  {
    var coordinates := Listed(changed);
    BarIsInside(frames, roi, caret);
    BarIsReadable(frames, roi, caret, coordinates);
    PatchesDecide(frames, coordinates, caret);
    var verdict := CheckPatches(frames, coordinates);
    r := if verdict == Clean then Ok(caret) else Err(verdict.error);
  }
}
