/** Captured frames and pixel rectangles (integrations/qmt_login_profile.py). */
module ScreenImage {
  type Byte = b: int | 0 <= b < 256

  datatype Rgb = Rgb(r: Byte, g: Byte, b: Byte)

  const WHITE_RGB := Rgb(255, 255, 255)

  // What the driver captures: four bytes a pixel, blue first, rows from the top.
  datatype Capture = Capture(width: int, height: int, bgra: seq<Byte>)

  predicate ValidCapture(c: Capture) {
    && 1 <= c.width <= 4096 && 1 <= c.height <= 4096 && c.width * c.height <= 8_388_608
    && |c.bgra| == c.width * c.height * 4
  }

  lemma OffsetInside(c: Capture, x: int, y: int)
    requires ValidCapture(c) && 0 <= x < c.width && 0 <= y < c.height
    ensures 0 <= (y * c.width + x) * 4 && (y * c.width + x) * 4 + 3 < |c.bgra|
  {
    RowsAbove(y, c.height - 1, c.width);
  }

  lemma RowsAbove(y: int, last: int, width: int)
    requires 0 <= y <= last && 0 <= width
    ensures 0 <= y * width <= last * width
    ensures (last + 1) * width == last * width + width && width * (last + 1) == (last + 1) * width
  {
  }

  // `Frame.rgb`: the alpha byte is never looked at.
  function Pixel(c: Capture, x: int, y: int): Rgb
    requires ValidCapture(c) && 0 <= x < c.width && 0 <= y < c.height
  {
    OffsetInside(c, x, y);
    var offset := (y * c.width + x) * 4;
    Rgb(c.bgra[offset + 2], c.bgra[offset + 1], c.bgra[offset])
  }

  /** A capture taken apart into pixels. */
  datatype Frame = Frame(width: int, height: int, rows: seq<seq<Rgb>>) {
    predicate Valid() {
      && 1 <= width <= 4096 && 1 <= height <= 4096
      && |rows| == height && forall y :: 0 <= y < height ==> |rows[y]| == width
    }

    predicate Has(x: int, y: int) {
      0 <= x < width && 0 <= y < height
    }

    function At(x: int, y: int): Rgb
      requires Valid() && Has(x, y)
    {
      rows[y][x]
    }
  }

  function Decode(c: Capture): (f: Frame)
    requires ValidCapture(c)
    ensures f.Valid() && f.width == c.width && f.height == c.height
    ensures forall x, y | f.Has(x, y) :: f.At(x, y) == Pixel(c, x, y)
  {
    Frame(c.width, c.height,
          seq(c.height, y requires 0 <= y < c.height =>
            seq(c.width, x requires 0 <= x < c.width => Pixel(c, x, y))))
  }

  /** Right and bottom are exclusive. */
  datatype Rect = Rect(left: int, top: int, right: int, bottom: int) {
    predicate Valid() {
      0 <= left < right && 0 <= top < bottom
    }

    function Width(): int { right - left }

    function Height(): int { bottom - top }

    predicate Contains(x: int, y: int) {
      left <= x < right && top <= y < bottom
    }
  }
}
