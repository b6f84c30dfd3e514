/** The input search and the caret detector on captures as the driver takes them: bytes, decoded
    pixel by pixel (integrations/qmt_login_profile.py, integrations/windows_qmt_login.py). */
module CaptureChecks {
  import opened Basics
  import opened ScreenImage
  import opened InputScan
  import opened Caret
  import CaretDetector

  predicate Shows(c: Capture, x: int, y: int) {
    ValidCapture(c) && 0 <= x < c.width && 0 <= y < c.height
  }

  // Blue, green and red are bytes 0, 1 and 2 of a pixel.
  function ByteAt(c: Capture, x: int, y: int, channel: nat): Byte
    requires Shows(c, x, y) && channel < 3
  {
    OffsetInside(c, x, y);
    c.bgra[(y * c.width + x) * 4 + channel]
  }

  predicate WhiteBytes(c: Capture, x: int, y: int) {
    Shows(c, x, y) && ByteAt(c, x, y, 0) == 255 && ByteAt(c, x, y, 1) == 255 && ByteAt(c, x, y, 2) == 255
  }

  predicate SameBytes(a: Capture, b: Capture, x: int, y: int) {
    && Shows(a, x, y) && Shows(b, x, y)
    && ByteAt(a, x, y, 0) == ByteAt(b, x, y, 0) && ByteAt(a, x, y, 1) == ByteAt(b, x, y, 1) && ByteAt(a, x, y, 2) == ByteAt(b, x, y, 2)
  }

  /* ---------- the input search ---------- */

  // Columns 13 to 612 and rows 198 to 431, less the two input boxes and the two buttons.
  predicate Searched(x: int, y: int) {
    && 13 <= x < 612 && 198 <= y < 431
    && !(192 <= x < 432 && (237 <= y < 267 || 272 <= y < 302))
    && !(331 <= y < 362 && (192 <= x < 288 || 337 <= x < 432))
  }

  // A block of 32 by 12 searched pixels, all of whose colour bytes are 255.
  predicate FieldInBytes(c: Capture, x: int, y: int) {
    forall i, j | x <= i < x + 32 && y <= j < y + 12 :: Searched(i, j) && WhiteBytes(c, i, j)
  }

  predicate IsLoginCapture(c: Capture) {
    ValidCapture(c) && c.width == 624 && c.height == 443
  }

  lemma FieldIsInBytes(c: Capture, x: int, y: int)
    requires IsLoginCapture(c)
    ensures FieldAt(Decode(c), x, y) <==> FieldInBytes(c, x, y)
  {
    var f := Decode(c);
    forall i, j ensures Blank(f, i, j) <==> Searched(i, j) && WhiteBytes(c, i, j) {
      if BODY.Contains(i, j) {
        assert f.Has(i, j) && f.At(i, j) == Pixel(c, i, j);
      }
    }
  }

  /** The search on a capture; none if it is not one of the login form. */
  method CheckCapture(c: Capture) returns (found: Option<bool>)
    ensures found.Some? <==> IsLoginCapture(c)
    ensures found.Some? ==> (found.value <==> exists x, y :: FieldInBytes(c, x, y))
  {
    if !ValidCapture(c) || c.width != 624 || c.height != 443 {
      return None;
    }
    var extra := HasExtraInput(Decode(c));
    forall x, y ensures FieldAt(Decode(c), x, y) <==> FieldInBytes(c, x, y) {
      FieldIsInBytes(c, x, y);
    }
    found := Some(extra);
  }

  /* ---------- the caret detector ---------- */

  function Frames(captures: seq<Capture>): (frames: seq<Frame>)
    requires forall c <- captures :: ValidCapture(c)
    ensures |frames| == |captures| && forall i :: 0 <= i < |frames| ==> frames[i] == Decode(captures[i])
    ensures forall f <- frames :: f.Valid()
  {
    seq(|captures|, i requires 0 <= i < |captures| => Decode(captures[i]))
  }

  // Some capture differs from the first one in the colour bytes of this pixel.
  predicate BytesChange(captures: seq<Capture>, x: int, y: int) {
    exists c <- captures :: !SameBytes(c, captures[0], x, y)
  }

  lemma ChangesAreBytes(captures: seq<Capture>, roi: Rect, x: int, y: int)
    requires (forall c <- captures :: ValidCapture(c)) && Comparable(Frames(captures), roi) && roi.Contains(x, y)
    ensures Changes(Frames(captures), roi, x, y) <==> BytesChange(captures, x, y)
  {
    var frames := Frames(captures);
    forall i | 0 <= i < |captures| ensures frames[i].At(x, y) != frames[0].At(x, y) <==> !SameBytes(captures[i], captures[0], x, y) {
      assert frames[i] in frames && frames[0] in frames;
      assert frames[i].Has(x, y) && frames[0].Has(x, y);
      assert frames[i].At(x, y) == Pixel(captures[i], x, y) && frames[0].At(x, y) == Pixel(captures[0], x, y);
    }
    if Changes(frames, roi, x, y) {
      var f :| f in frames && f.At(x, y) != frames[0].At(x, y);
      var i :| 0 <= i < |frames| && frames[i] == f;
      assert captures[i] in captures;
    }
    if BytesChange(captures, x, y) {
      var c :| c in captures && !SameBytes(c, captures[0], x, y);
      var i :| 0 <= i < |captures| && captures[i] == c;
      assert frames[i] in frames;
    }
  }

  // How far the colour of a pixel moves between two captures.
  function Moved(a: Capture, b: Capture, x: int, y: int): int
    requires Shows(a, x, y) && Shows(b, x, y)
  {
    Gap(ByteAt(a, x, y, 0), ByteAt(b, x, y, 0)) + Gap(ByteAt(a, x, y, 1), ByteAt(b, x, y, 1)) + Gap(ByteAt(a, x, y, 2), ByteAt(b, x, y, 2))
  }

  function Gap(a: Byte, b: Byte): int { if a < b then b - a else a - b }

  ghost predicate SameIn(a: Capture, b: Capture, r: Rect) {
    forall x, y | r.Contains(x, y) :: SameBytes(a, b, x, y)
  }

  // Two pixels of a capture show the same bytes.
  predicate SameColor(c: Capture, x: int, y: int, u: int, v: int) {
    && Shows(c, x, y) && Shows(c, u, v)
    && ByteAt(c, x, y, 0) == ByteAt(c, u, v, 0) && ByteAt(c, x, y, 1) == ByteAt(c, u, v, 1) && ByteAt(c, x, y, 2) == ByteAt(c, u, v, 2)
  }

  ghost predicate OneColorIn(c: Capture, r: Rect) {
    forall x, y | r.Contains(x, y) :: SameColor(c, x, y, r.left, r.top)
  }

  ghost predicate DarkIn(c: Capture, r: Rect) {
    && OneColorIn(c, r) && Shows(c, r.left, r.top)
    && ByteAt(c, r.left, r.top, 0) <= 128 && ByteAt(c, r.left, r.top, 1) <= 128 && ByteAt(c, r.left, r.top, 2) <= 128
  }

  // Captures of one size that hold the region: 5 to 64 of them, and no more than four million pixels.
  predicate Comparing(captures: seq<Capture>, roi: Rect) {
    && 5 <= |captures| <= 64 && roi.Valid()
    && (forall c <- captures :: ValidCapture(c) && c.width == captures[0].width && c.height == captures[0].height)
    && roi.right <= captures[0].width && roi.bottom <= captures[0].height
    && (roi.right - roi.left) * (roi.bottom - roi.top) * |captures| <= 4_000_000
  }

  // No pixel of the region is ever less than 90 from what the first capture shows, unless it is the same.
  ghost predicate SteadyBytes(captures: seq<Capture>, roi: Rect) {
    forall c <- captures :: SteadyCapture(captures[0], c, roi)
  }

  ghost predicate SteadyCapture(first: Capture, c: Capture, roi: Rect) {
    forall x, y | roi.Contains(x, y) ::
      Shows(first, x, y) && Shows(c, x, y) && (SameBytes(c, first, x, y) || Moved(first, c, x, y) >= 90)
  }

  // A bar one or two pixels wide and 8 to 24 high, exactly where the region changes.
  ghost predicate BarInBytes(captures: seq<Capture>, roi: Rect, r: Rect) {
    && r.Valid() && r.right <= roi.right && r.bottom <= roi.bottom
    && 1 <= r.right - r.left <= 2 && 8 <= r.bottom - r.top <= 24
    && forall x, y :: roi.Contains(x, y) && BytesChange(captures, x, y) <==> r.Contains(x, y)
  }

  // Every capture shows what the first one shows or what capture `b` shows.
  ghost predicate EitherIn(captures: seq<Capture>, r: Rect, b: nat) {
    b < |captures| && forall i | 0 <= i < |captures| :: SameIn(captures[i], captures[0], r) || SameIn(captures[i], captures[b], r)
  }

  // Captures i, k and m show one patch, j and l another.
  ghost predicate CyclesIn(captures: seq<Capture>, r: Rect, i: nat, j: nat, k: nat, l: nat, m: nat) {
    && i < j < k < l < m < |captures|
    && !SameIn(captures[i], captures[j], r) && SameIn(captures[i], captures[k], r)
    && SameIn(captures[j], captures[l], r) && SameIn(captures[k], captures[m], r)
  }

  ghost predicate BlinksIn(captures: seq<Capture>, r: Rect) {
    (exists b :: EitherIn(captures, r, b)) && exists i, j, k, l, m :: CyclesIn(captures, r, i, j, k, l, m)
  }

  ghost predicate OneColorAt(captures: seq<Capture>, r: Rect, i: nat) {
    i < |captures| && OneColorIn(captures[i], r)
  }

  ghost predicate DarkAt(captures: seq<Capture>, r: Rect, i: nat) {
    i < |captures| && DarkIn(captures[i], r)
  }

  ghost predicate ContrastIn(captures: seq<Capture>, r: Rect) {
    (forall i | 0 <= i < |captures| :: OneColorAt(captures, r, i)) || exists i :: DarkAt(captures, r, i)
  }

  /** A caret, in bytes: a steady bar, alone in changing, that blinks twice between exactly two
      patches, both of one colour each or one of them of one dark colour. */
  ghost predicate CaretInBytes(captures: seq<Capture>, roi: Rect, r: Rect) {
    && Comparing(captures, roi) && SteadyBytes(captures, roi) && BarInBytes(captures, roi, r)
    && BlinksIn(captures, r) && ContrastIn(captures, r)
  }

  lemma PixelsAreBytes(a: Capture, b: Capture, x: int, y: int)
    requires Shows(a, x, y) && Shows(b, x, y)
    ensures Decode(a).At(x, y) == Decode(b).At(x, y) <==> SameBytes(a, b, x, y)
    ensures Distance(Decode(a).At(x, y), Decode(b).At(x, y)) == Moved(a, b, x, y)
  {
    assert Decode(a).Has(x, y) && Decode(a).At(x, y) == Pixel(a, x, y);
    assert Decode(b).Has(x, y) && Decode(b).At(x, y) == Pixel(b, x, y);
  }

  lemma ComparingIs(captures: seq<Capture>, roi: Rect)
    requires forall c <- captures :: ValidCapture(c)
    ensures Comparing(captures, roi) <==> ValidSequence(Frames(captures), roi)
  {
    var frames := Frames(captures);
    if Comparing(captures, roi) {
      forall f <- frames ensures f.Valid() && f.width == frames[0].width && f.height == frames[0].height {
        var i :| 0 <= i < |frames| && frames[i] == f;
        assert captures[i] in captures;
      }
    }
    if ValidSequence(frames, roi) {
      forall c <- captures ensures c.width == captures[0].width && c.height == captures[0].height {
        var i :| 0 <= i < |captures| && captures[i] == c;
        assert frames[i] in frames;
      }
    }
  }

  lemma SteadyIsBytes(captures: seq<Capture>, roi: Rect)
    requires Comparing(captures, roi) && ValidSequence(Frames(captures), roi)
    ensures SteadyBytes(captures, roi) <==> Stable(Frames(captures), roi)
  {
    var frames := Frames(captures);
    forall i | 0 <= i < |captures| ensures SteadyCapture(captures[0], captures[i], roi) <==> SteadyIn(frames[0], frames[i], roi) {
      assert captures[i] in captures;
      forall x, y | roi.Contains(x, y)
        ensures SameBytes(captures[i], captures[0], x, y) || Moved(captures[0], captures[i], x, y) >= 90 <==> SteadyPixel(frames[0], frames[i], x, y)
      {
        PixelsAreBytes(captures[0], captures[i], x, y);
      }
    }
    if SteadyBytes(captures, roi) {
      forall f <- frames ensures SteadyIn(frames[0], f, roi) {
        var i :| 0 <= i < |frames| && frames[i] == f;
        assert captures[i] in captures;
      }
    }
    if Stable(frames, roi) {
      forall c <- captures ensures SteadyCapture(captures[0], c, roi) {
        var i :| 0 <= i < |captures| && captures[i] == c;
        assert frames[i] in frames;
      }
    }
  }

  lemma BarIsBytes(captures: seq<Capture>, roi: Rect, r: Rect)
    requires Comparing(captures, roi) && ValidSequence(Frames(captures), roi)
    ensures BarInBytes(captures, roi, r) <==> IsBar(Frames(captures), roi, r)
  {
    forall x, y ensures Changes(Frames(captures), roi, x, y) <==> roi.Contains(x, y) && BytesChange(captures, x, y) {
      if roi.Contains(x, y) {
        ChangesAreBytes(captures, roi, x, y);
      }
    }
  }

  lemma SameIsBytes(captures: seq<Capture>, r: Rect, i: nat, j: nat)
    requires (forall c <- captures :: ValidCapture(c)) && Inside(Frames(captures), r) && i < |captures| && j < |captures|
    ensures SameIn(captures[i], captures[j], r) <==> Same(Frames(captures)[i], Frames(captures)[j], r)
  {
    assert captures[i] in captures && captures[j] in captures;
    forall x, y | r.Contains(x, y)
      ensures SameBytes(captures[i], captures[j], x, y) <==> Decode(captures[i]).At(x, y) == Decode(captures[j]).At(x, y)
    {
      PixelsAreBytes(captures[i], captures[j], x, y);
    }
  }

  lemma EitherIsBytes(captures: seq<Capture>, r: Rect, b: nat)
    requires (forall c <- captures :: ValidCapture(c)) && Inside(Frames(captures), r)
    ensures EitherIn(captures, r, b) <==> EitherPatch(Frames(captures), r, b)
  {
    if b < |captures| {
      forall i: nat | i < |captures|
        ensures SameIn(captures[i], captures[0], r) <==> Same(Frames(captures)[i], Frames(captures)[0], r)
        ensures SameIn(captures[i], captures[b], r) <==> Same(Frames(captures)[i], Frames(captures)[b], r)
      {
        SameIsBytes(captures, r, i, 0);
        SameIsBytes(captures, r, i, b);
      }
    }
  }

  lemma CyclesIsBytes(captures: seq<Capture>, r: Rect, i: nat, j: nat, k: nat, l: nat, m: nat)
    requires (forall c <- captures :: ValidCapture(c)) && Inside(Frames(captures), r)
    ensures CyclesIn(captures, r, i, j, k, l, m) <==> Cycles(Frames(captures), r, i, j, k, l, m)
  {
    if i < j < k < l < m < |captures| {
      SameIsBytes(captures, r, i, j);
      SameIsBytes(captures, r, i, k);
      SameIsBytes(captures, r, j, l);
      SameIsBytes(captures, r, k, m);
    }
  }

  lemma BlinksIsBytes(captures: seq<Capture>, r: Rect)
    requires (forall c <- captures :: ValidCapture(c)) && Inside(Frames(captures), r)
    ensures BlinksIn(captures, r) <==> TwoPatches(Frames(captures), r) && CyclesTwice(Frames(captures), r)
  {
    forall b ensures EitherIn(captures, r, b) <==> EitherPatch(Frames(captures), r, b) {
      EitherIsBytes(captures, r, b);
    }
    forall i, j, k, l, m ensures CyclesIn(captures, r, i, j, k, l, m) <==> Cycles(Frames(captures), r, i, j, k, l, m) {
      CyclesIsBytes(captures, r, i, j, k, l, m);
    }
  }

  lemma SameColorIs(c: Capture, x: int, y: int, u: int, v: int)
    requires Shows(c, x, y) && Shows(c, u, v)
    ensures SameColor(c, x, y, u, v) <==> Decode(c).At(x, y) == Decode(c).At(u, v)
  {
    assert Decode(c).Has(x, y) && Decode(c).At(x, y) == Pixel(c, x, y);
    assert Decode(c).Has(u, v) && Decode(c).At(u, v) == Pixel(c, u, v);
  }

  lemma ColorIsBytes(c: Capture, r: Rect)
    requires ValidCapture(c) && r.Valid() && r.right <= c.width && r.bottom <= c.height
    ensures var corner := Decode(c).At(r.left, r.top);
      && (OneColorIn(c, r) <==> Solid(Decode(c), r, corner))
      && (DarkIn(c, r) <==> Solid(Decode(c), r, corner) && Dark(corner))
  {
    forall x, y | r.Contains(x, y)
      ensures SameColor(c, x, y, r.left, r.top) <==> Decode(c).At(x, y) == Decode(c).At(r.left, r.top)
    {
      SameColorIs(c, x, y, r.left, r.top);
    }
    assert Decode(c).Has(r.left, r.top) && Decode(c).At(r.left, r.top) == Pixel(c, r.left, r.top);
  }

  lemma SolidIsCorner(f: Frame, r: Rect, color: Rgb)
    requires f.Valid() && r.Valid() && r.right <= f.width && r.bottom <= f.height && Solid(f, r, color)
    ensures color == f.At(r.left, r.top)
  {
    assert r.Contains(r.left, r.top);
  }

  lemma FrameIsBytes(captures: seq<Capture>, r: Rect, i: nat)
    requires (forall c <- captures :: ValidCapture(c)) && Inside(Frames(captures), r) && i < |captures|
    ensures OneColorIn(captures[i], r) <==> SolidFrame(Frames(captures), r, i)
    ensures DarkIn(captures[i], r) <==> DarkFrame(Frames(captures), r, i)
  {
    assert captures[i] in captures;
    var f := Frames(captures)[i];
    ColorIsBytes(captures[i], r);
    forall color | Solid(f, r, color) ensures color == f.At(r.left, r.top) {
      SolidIsCorner(f, r, color);
    }
  }

  lemma ContrastIsBytes(captures: seq<Capture>, r: Rect)
    requires (forall c <- captures :: ValidCapture(c)) && Inside(Frames(captures), r)
    ensures ContrastIn(captures, r) <==> Contrast(Frames(captures), r)
  {
    forall i: nat
      ensures OneColorAt(captures, r, i) <==> SolidFrame(Frames(captures), r, i)
      ensures DarkAt(captures, r, i) <==> DarkFrame(Frames(captures), r, i)
    {
      if i < |captures| {
        FrameIsBytes(captures, r, i);
      }
    }
  }

  lemma CaretIsBytes(captures: seq<Capture>, roi: Rect, r: Rect)
    requires Comparing(captures, roi) && ValidSequence(Frames(captures), roi)
    ensures CaretInBytes(captures, roi, r) <==> IsCaret(Frames(captures), roi, r)
  {
    SteadyIsBytes(captures, roi);
    BarIsBytes(captures, roi, r);
    if IsBar(Frames(captures), roi, r) {
      BarIsInside(Frames(captures), roi, r);
      BlinksIsBytes(captures, r);
      ContrastIsBytes(captures, r);
    }
  }

  /** The detector on captures; none if one of them is malformed. It returns the caret that the bytes
      show, raises that there is nothing to compare exactly when there is not, and raises something
      else exactly when no rectangle is a caret. */
  method LocateCaret(captures: seq<Capture>, roi: Rect) returns (r: Option<Located>)
    requires roi.Valid()
    ensures r.Some? <==> forall c <- captures :: ValidCapture(c)
    ensures r.Some? ==> (r.value == Err(SequenceInvalid) <==> !Comparing(captures, roi))
    ensures r.Some? && r.value.Ok? ==> CaretInBytes(captures, roi, r.value.caret)
    ensures r.Some? && r.value.Err? ==> forall c :: !CaretInBytes(captures, roi, c)
  {
    if exists c <- captures :: !ValidCapture(c) {
      return None;
    }
    var located := CaretDetector.BlinkCaret(Frames(captures), roi);
    ComparingIs(captures, roi);
    if Comparing(captures, roi) {
      forall c ensures CaretInBytes(captures, roi, c) <==> IsCaret(Frames(captures), roi, c) {
        CaretIsBytes(captures, roi, c);
      }
    }
    r := Some(located);
  }
}
