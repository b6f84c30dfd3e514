/** The search for an input field that the known login form does not have
    (integrations/qmt_login_profile.py, `_check_extra_input`). */
module InputScan {
  import opened ScreenImage

  const ACCOUNT := Rect(192, 237, 432, 267)
  const PASSWORD := Rect(192, 272, 432, 302)
  const LOGIN_BUTTON := Rect(192, 331, 288, 362)
  const OFFLINE_BUTTON := Rect(337, 331, 432, 362)

  // The form body: the columns and rows that are searched.
  const BODY := Rect(13, 198, 612, 431)

  const FIELD_WIDTH := 32
  const FIELD_HEIGHT := 12

  predicate IsLoginFrame(f: Frame) {
    f.Valid() && f.width == 624 && f.height == 443
  }

  predicate Masked(x: int, y: int) {
    ACCOUNT.Contains(x, y) || PASSWORD.Contains(x, y) || LOGIN_BUTTON.Contains(x, y) || OFFLINE_BUTTON.Contains(x, y)
  }

  // A white pixel of the body outside the four known controls.
  predicate Blank(f: Frame, x: int, y: int)
    requires IsLoginFrame(f)
  {
    BODY.Contains(x, y) && !Masked(x, y) && f.At(x, y) == WHITE_RGB
  }

  /** An unknown field: a block of that size, all blank, with its corner at (x, y). */
  predicate FieldAt(f: Frame, x: int, y: int)
    requires IsLoginFrame(f)
  {
    forall i, j | x <= i < x + FIELD_WIDTH && y <= j < y + FIELD_HEIGHT :: Blank(f, i, j)
  }

  // Blank pixels directly above and including (x, y).
  function Rise(f: Frame, x: int, y: int): (n: nat)
    requires IsLoginFrame(f)
    decreases y
  {
    if y < BODY.top || !Blank(f, x, y) then 0 else 1 + Rise(f, x, y - 1)
  }

  // Tall columns directly left of and including x, in the row y.
  function Run(f: Frame, x: int, y: int): (n: nat)
    requires IsLoginFrame(f)
    decreases x
  {
    if x < BODY.left || Rise(f, x, y) < FIELD_HEIGHT then 0 else 1 + Run(f, x - 1, y)
  }

  lemma {:induction false} RiseAtLeast(f: Frame, x: int, y: int, n: nat)
    requires IsLoginFrame(f)
    ensures Rise(f, x, y) >= n <==> forall j | y - n < j <= y :: Blank(f, x, j)
    decreases n
  {
    if n > 0 && y >= BODY.top && Blank(f, x, y) {
      RiseAtLeast(f, x, y - 1, n - 1);
    } else if n > 0 {
      assert !Blank(f, x, y) && Rise(f, x, y) == 0;
      assert exists j :: y - n < j <= y && !Blank(f, x, j);
    } else {
      assert Rise(f, x, y) >= 0 && forall j | y - n < j <= y :: Blank(f, x, j);
    }
  }

  lemma {:induction false} RunAtLeast(f: Frame, x: int, y: int, n: nat)
    requires IsLoginFrame(f)
    ensures Run(f, x, y) >= n <==> forall i | x - n < i <= x :: Rise(f, i, y) >= FIELD_HEIGHT
    decreases n
  {
    if n > 0 && x >= BODY.left && Rise(f, x, y) >= FIELD_HEIGHT {
      RunAtLeast(f, x - 1, y, n - 1);
    } else if n > 0 {
      assert Rise(f, x, y) < FIELD_HEIGHT && Run(f, x, y) == 0;
      assert exists i :: x - n < i <= x && Rise(f, i, y) < FIELD_HEIGHT;
    } else {
      assert Run(f, x, y) >= 0 && forall i | x - n < i <= x :: Rise(f, i, y) >= FIELD_HEIGHT;
    }
  }

  /** A run of 32 tall columns is the bottom edge of a field, and the other way round. */
  lemma RunMeansField(f: Frame, x: int, y: int)
    requires IsLoginFrame(f)
    ensures Run(f, x, y) >= FIELD_WIDTH <==> FieldAt(f, x - FIELD_WIDTH + 1, y - FIELD_HEIGHT + 1)
  {
    var left, top := x - FIELD_WIDTH + 1, y - FIELD_HEIGHT + 1;
    RunAtLeast(f, x, y, FIELD_WIDTH);
    forall i ensures Rise(f, i, y) >= FIELD_HEIGHT <==> forall j | y - FIELD_HEIGHT < j <= y :: Blank(f, i, j) {
      RiseAtLeast(f, i, y, FIELD_HEIGHT);
    }
    if FieldAt(f, left, top) {
      assert forall i | x - FIELD_WIDTH < i <= x :: Rise(f, i, y) >= FIELD_HEIGHT;
    }
    if Run(f, x, y) >= FIELD_WIDTH {
      forall i, j | left <= i < left + FIELD_WIDTH && top <= j < top + FIELD_HEIGHT ensures Blank(f, i, j) {
        assert Rise(f, i, y) >= FIELD_HEIGHT;
      }
    }
  }

  // A row whose runs stay short inside the body has no long run at all.
  lemma RunsEndWithBody(f: Frame, y: int)
    requires IsLoginFrame(f)
    requires forall i | i < BODY.right :: Run(f, i, y) < FIELD_WIDTH
    ensures forall i :: Run(f, i, y) < FIELD_WIDTH
  {
    forall i ensures Run(f, i, y) < FIELD_WIDTH {
      if i >= BODY.right {
        assert !Blank(f, i, y);
      }
    }
  }

  lemma NoRunNoField(f: Frame)
    requires IsLoginFrame(f)
    requires forall i, j | j < BODY.bottom :: Run(f, i, j) < FIELD_WIDTH
    ensures forall x, y :: !FieldAt(f, x, y)
  {
    forall x, y ensures !FieldAt(f, x, y) {
      var i, j := x + FIELD_WIDTH - 1, y + FIELD_HEIGHT - 1;
      RunMeansField(f, i, j);
      if j >= BODY.bottom {
        assert !Blank(f, x, j);
      }
    }
  }

  // One row of the sweep: the heights move down a row, and the run starts over.
  method ScanRow(f: Frame, heights: array<int>, y: int) returns (found: bool)
    requires IsLoginFrame(f) && BODY.top <= y < BODY.bottom && heights.Length == 599
    requires forall k | 0 <= k < 599 :: heights[k] == Rise(f, BODY.left + k, y - 1)
    modifies heights
    ensures found ==> exists i :: Run(f, i, y) >= FIELD_WIDTH
    ensures !found ==> forall i | i < BODY.right :: Run(f, i, y) < FIELD_WIDTH
    ensures !found ==> forall k | 0 <= k < 599 :: heights[k] == Rise(f, BODY.left + k, y)
  {
    var run, offset := 0, 0;
    while offset < 599
      invariant 0 <= offset <= 599
      invariant forall k | 0 <= k < offset :: heights[k] == Rise(f, BODY.left + k, y)
      invariant forall k | offset <= k < 599 :: heights[k] == Rise(f, BODY.left + k, y - 1)
      invariant run == Run(f, BODY.left + offset - 1, y)
      invariant forall i | i < BODY.left + offset :: Run(f, i, y) < FIELD_WIDTH
    {
      var x := BODY.left + offset;
      heights[offset] := if !Masked(x, y) && f.At(x, y) == WHITE_RGB then heights[offset] + 1 else 0;
      run := if heights[offset] >= FIELD_HEIGHT then run + 1 else 0;
      assert run == Run(f, x, y);
      if run >= FIELD_WIDTH {
        return true;
      }
      offset := offset + 1;
    }
    found := false;
  }

  /** `_check_extra_input`: one sweep with a height per column raises exactly when some field
      lies in the form body. */
  method HasExtraInput(f: Frame) returns (found: bool)
    requires IsLoginFrame(f)
    ensures found <==> exists x, y :: FieldAt(f, x, y)
  {
    var heights := new int[599](_ => 0);
    var y := BODY.top;
    while y < BODY.bottom
      invariant BODY.top <= y <= BODY.bottom
      invariant forall k | 0 <= k < 599 :: heights[k] == Rise(f, BODY.left + k, y - 1)
      invariant forall i, j | j < y :: Run(f, i, j) < FIELD_WIDTH
    {
      found := ScanRow(f, heights, y);
      if found {
        ghost var i :| Run(f, i, y) >= FIELD_WIDTH;
        RunMeansField(f, i, y);
        return;
      }
      RunsEndWithBody(f, y);
      y := y + 1;
    }
    NoRunNoField(f);
    found := false;
  }
}
