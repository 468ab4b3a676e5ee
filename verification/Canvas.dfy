/**
  The RGBA canvases of tools/boot/make-splash.py: one flat byte buffer per image, four
  bytes per pixel, rows stored one after the other.  Every drawing routine is specified
  pixel by pixel: which pixels change, what they become, and that no other one does.
 */
module Canvas {
  import opened Bytes
  import opened Options

  datatype Rgba = Rgba(r: Byte, g: Byte, b: Byte, a: Byte)
  datatype Rgb = Rgb(r: Byte, g: Byte, b: Byte)

  function Opaque(c: Rgb): Rgba { Rgba(c.r, c.g, c.b, 255) }

  predicate OnCanvas(w: int, h: int, x: int, y: int) { 0 <= x < w && 0 <= y < h }

  function Slot(w: int, x: int, y: int): int { (y * w + x) * 4 }

  lemma SlotInside(w: int, h: int, x: int, y: int)
    requires OnCanvas(w, h, x, y)
    ensures 0 <= Slot(w, x, y) && Slot(w, x, y) + 4 <= 4 * w * h
  {
    Monotone(0, y, w);
    Monotone(y + 1, h, w);
    assert (y + 1) * w == y * w + w;
  }

  /** Two different pixels never share a byte. */
  lemma SlotsApart(w: int, h: int, x: int, y: int, x': int, y': int)
    requires OnCanvas(w, h, x, y) && OnCanvas(w, h, x', y') && (x, y) != (x', y')
    ensures Slot(w, x, y) + 4 <= Slot(w, x', y') || Slot(w, x', y') + 4 <= Slot(w, x, y)
  {
    if y < y' {
      Monotone(y + 1, y', w);
      assert (y + 1) * w == y * w + w;
    } else if y' < y {
      Monotone(y' + 1, y, w);
      assert (y' + 1) * w == y' * w + w;
    }
  }

  /** The pixel at (x, y), read from the flat buffer. */
  ghost function PixelAt(buf: array<Byte>, w: int, h: int, x: int, y: int): Rgba
    requires buf.Length == 4 * w * h && OnCanvas(w, h, x, y)
    reads buf
  {
    SlotInside(w, h, x, y);
    var i := Slot(w, x, y);
    Rgba(buf[i], buf[i + 1], buf[i + 2], buf[i + 3])
  }

  const CLEAR := Rgba(0, 0, 0, 0)

  method NewCanvas(w: nat, h: nat) returns (buf: array<Byte>)
    ensures fresh(buf) && buf.Length == 4 * w * h
    ensures forall x, y :: OnCanvas(w, h, x, y) ==> PixelAt(buf, w, h, x, y) == CLEAR
  {
    assert 0 <= w * h * 4 == 4 * w * h;
    buf := new Byte[w * h * 4](_ => 0);
    forall x, y | OnCanvas(w, h, x, y) ensures PixelAt(buf, w, h, x, y) == CLEAR {
      SlotInside(w, h, x, y);
    }
  }

  /** Outside the canvas the source's slice assignment would hit another row or grow the
      buffer, so staying inside is every caller's obligation. */
  method Put(buf: array<Byte>, w: int, ghost h: int, x: int, y: int, c: Rgba)
    requires buf.Length == 4 * w * h && OnCanvas(w, h, x, y)
    modifies buf
    ensures forall x', y' :: OnCanvas(w, h, x', y') ==>
      PixelAt(buf, w, h, x', y') == if x' == x && y' == y then c else old(PixelAt(buf, w, h, x', y'))
  {
    SlotInside(w, h, x, y);
    var i := (y * w + x) * 4;
    buf[i], buf[i + 1], buf[i + 2], buf[i + 3] := c.r, c.g, c.b, c.a;
    forall x', y' | OnCanvas(w, h, x', y')
      ensures PixelAt(buf, w, h, x', y') == if x' == x && y' == y then c else old(PixelAt(buf, w, h, x', y'))
    {
      SlotInside(w, h, x', y');
      if (x', y') != (x, y) { SlotsApart(w, h, x, y, x', y'); }
    }
  }

  // ---------------------------------------------------------------- rectangles and discs

  predicate InBox(x: int, y: int, x0: int, y0: int, x1: int, y1: int) {
    x0 <= x < x1 && y0 <= y < y1
  }

  predicate OnEdge(x: int, y: int, x0: int, y0: int, x1: int, y1: int) {
    x == x0 || x == x1 - 1 || y == y0 || y == y1 - 1
  }

  function RectColour(x: int, y: int, x0: int, y0: int, x1: int, y1: int, fill: Rgb, border: Option<Rgb>): Rgba {
    Opaque(if OnEdge(x, y, x0, y0, x1, y1) && border.Some? then border.value else fill)
  }

  method DrawRect(
    buf: array<Byte>, w: int, ghost h: int, x0: int, y0: int, x1: int, y1: int, fill: Rgb, border: Option<Rgb>)
    requires buf.Length == 4 * w * h
    requires 0 <= x0 && x1 <= w && 0 <= y0 && y1 <= h
    modifies buf
    ensures forall x, y :: OnCanvas(w, h, x, y) ==>
      PixelAt(buf, w, h, x, y) ==
        if InBox(x, y, x0, y0, x1, y1) then RectColour(x, y, x0, y0, x1, y1, fill, border)
        else old(PixelAt(buf, w, h, x, y))
  {
    var y := y0;
    while y < y1
      invariant y0 <= y && (y == y0 || y <= y1)
      invariant forall x', y' :: OnCanvas(w, h, x', y') ==>
        PixelAt(buf, w, h, x', y') ==
          if InBox(x', y', x0, y0, x1, y) then RectColour(x', y', x0, y0, x1, y1, fill, border)
          else old(PixelAt(buf, w, h, x', y'))
    {
      var x := x0;
      while x < x1
        invariant x0 <= x && (x == x0 || x <= x1)
        invariant forall x', y' :: OnCanvas(w, h, x', y') ==>
          PixelAt(buf, w, h, x', y') ==
            if InBox(x', y', x0, y0, x1, y) || InBox(x', y', x0, y, x, y + 1)
            then RectColour(x', y', x0, y0, x1, y1, fill, border)
            else old(PixelAt(buf, w, h, x', y'))
      {
        var edge := x == x0 || x == x1 - 1 || y == y0 || y == y1 - 1;
        var c := Opaque(if edge && border.Some? then border.value else fill);
        Put(buf, w, h, x, y, c);
        x := x + 1;
      }
      y := y + 1;
    }
  }

  predicate InDisc(x: int, y: int, cx: int, cy: int, radius: int) {
    radius >= 0 && (x - cx) * (x - cx) + (y - cy) * (y - cy) <= radius * radius
  }

  /** The disc lies inside the square the source scans. */
  lemma DiscInsideSquare(x: int, y: int, cx: int, cy: int, radius: int)
    requires InDisc(x, y, cx, cy, radius)
    ensures InBox(x, y, cx - radius, cy - radius, cx + radius + 1, cy + radius + 1)
  {
    SquareBound(x - cx, radius, (y - cy) * (y - cy));
    SquareBound(y - cy, radius, (x - cx) * (x - cx));
  }

  lemma SquareBound(d: int, r: int, other: int)
    requires r >= 0 && other >= 0 && d * d + other <= r * r
    ensures -r <= d <= r
  {
    if d > r { SquareGrows(r, d); }
    if d < -r { SquareGrows(r, -d); }
  }

  lemma SquareGrows(a: int, b: int)
    requires 0 <= a < b
    ensures a * a < b * b
  {
    assert b * b - a * a == (b - a) * (b + a);
  }

  method DrawDisc(buf: array<Byte>, w: int, ghost h: int, cx: int, cy: int, radius: int, rgb: Rgb, alpha: Byte)
    requires buf.Length == 4 * w * h
    requires 0 <= cx - radius && cx + radius < w && 0 <= cy - radius && cy + radius < h
    modifies buf
    ensures forall x, y :: OnCanvas(w, h, x, y) ==>
      PixelAt(buf, w, h, x, y) ==
        if InDisc(x, y, cx, cy, radius) then Rgba(rgb.r, rgb.g, rgb.b, alpha) else old(PixelAt(buf, w, h, x, y))
  {
    var c := Rgba(rgb.r, rgb.g, rgb.b, alpha);
    var rr := radius * radius;
    var left, right, bottom := cx - radius, cx + radius + 1, cy + radius + 1;
    var y := cy - radius;
    while y < bottom
      invariant cy - radius <= y && (radius >= 0 ==> y <= bottom)
      invariant forall x', y' :: OnCanvas(w, h, x', y') ==>
        PixelAt(buf, w, h, x', y') ==
          if InDisc(x', y', cx, cy, radius) && InBox(x', y', left, cy - radius, right, y) then c
          else old(PixelAt(buf, w, h, x', y'))
    {
      var x := left;
      while x < right
        invariant left <= x <= right
        invariant forall x', y' :: OnCanvas(w, h, x', y') ==>
          PixelAt(buf, w, h, x', y') ==
            if InDisc(x', y', cx, cy, radius)
               && (InBox(x', y', left, cy - radius, right, y) || InBox(x', y', left, y, x, y + 1)) then c
            else old(PixelAt(buf, w, h, x', y'))
      {
        if (x - cx) * (x - cx) + (y - cy) * (y - cy) <= rr {
          assert InDisc(x, y, cx, cy, radius);
          Put(buf, w, h, x, y, c);
        } else {
          assert !InDisc(x, y, cx, cy, radius);
        }
        x := x + 1;
      }
      y := y + 1;
    }
    forall x', y' | InDisc(x', y', cx, cy, radius)
      ensures InBox(x', y', left, cy - radius, right, bottom)
    {
      DiscInsideSquare(x', y', cx, cy, radius);
    }
  }

  // ---------------------------------------------------------------- text

  const GLYPH_W := 5
  const GLYPH_H := 7
  const ADVANCE := 6

  /** A font maps a character to seven rows of five bits, written '0' and '1'. */
  type Font = map<char, seq<string>>

  predicate IsGlyph(rows: seq<string>) {
    |rows| == GLYPH_H && forall r :: 0 <= r < GLYPH_H ==> |rows[r]| == GLYPH_W
  }

  predicate IsFont(font: Font) {
    forall c :: c in font ==> IsGlyph(font[c])
  }

  /** Python's `str.upper` on ASCII text. */
  function Upper(text: string): (u: string)
    ensures |u| == |text|
    ensures forall i :: 0 <= i < |u| ==> u[i] == UpperChar(text[i])
  {
    seq(|text|, i requires 0 <= i < |text| => UpperChar(text[i]))
  }

  function UpperChar(c: char): char {
    if 'a' <= c <= 'z' then (c as int - 32) as char else c
  }

  /** Texts that differ in case alone are drawn alike, and in capitals. */
  lemma UpperIs(a: string, b: string)
    requires |a| == |b| && Ascii(a)
    requires forall i :: 0 <= i < |a| ==> a[i] == b[i] || ('A' <= b[i] <= 'Z' && a[i] as int == b[i] as int + 32)
    ensures Upper(a) == Upper(b)
    ensures forall i :: 0 <= i < |a| ==> !('a' <= Upper(a)[i] <= 'z')
    ensures (forall i :: 0 <= i < |a| ==> !('a' <= a[i] <= 'z')) ==> Upper(a) == a
  {
  }

  /** How many leading characters the font can draw; the source gives up at the next one. */
  function Drawable(font: Font, text: string): (k: nat)
    ensures k <= |text|
    ensures forall i :: 0 <= i < k ==> text[i] in font
    ensures k < |text| ==> text[k] !in font
  {
    if text == [] || text[0] !in font then 0 else 1 + Drawable(font, text[1..])
  }

  function TextWidth(text: string, scale: int): int {
    |text| * ADVANCE * scale - scale
  }

  /** Whether the pixel `u` to the right of and `v` below a glyph's corner is inked. */
  predicate GlyphInk(rows: seq<string>, scale: int, u: int, v: int)
    requires IsGlyph(rows)
  {
    && 0 <= v < GLYPH_H * scale && 0 <= u < GLYPH_W * scale
    && (QuotientBelow(v, scale, GLYPH_H); QuotientBelow(u, scale, GLYPH_W);
        rows[v / scale][u / scale] == '1')
  }

  lemma QuotientBelow(n: int, d: int, q: int)
    requires d > 0 && 0 <= n < q * d
    ensures 0 <= n / d < q
  {
    assert n == (n / d) * d + n % d;
    if n / d >= q { Monotone(q, n / d, d); }
    if n / d < 0 { Monotone(n / d, -1, d); }
  }

  /**
    The closed form of drawn text: pixel (u, v) from the text's corner is inked exactly when it
    lies in the block, its column is not in the gap after a glyph, and the bit of its glyph
    that covers it is '1'.
   */
  predicate TextInk(font: Font, text: string, scale: int, u: int, v: int)
    requires IsFont(font) && forall i :: 0 <= i < |text| ==> text[i] in font
  {
    && 0 <= v < GLYPH_H * scale && 0 <= u < |text| * (ADVANCE * scale)
    && (u % (ADVANCE * scale)) / scale < GLYPH_W
    && (QuotientBelow(u, ADVANCE * scale, |text|); QuotientBelow(v, scale, GLYPH_H);
        QuotientBelow(u % (ADVANCE * scale), scale, ADVANCE);
        font[text[u / (ADVANCE * scale)]][v / scale][(u % (ADVANCE * scale)) / scale] == '1')
  }

  /** The two innermost loops: one font bit becomes a scale-by-scale block. */
  method FillBlock(buf: array<Byte>, w: int, ghost h: int, px: int, py: int, scale: int, c: Rgba)
    requires buf.Length == 4 * w * h
    requires scale > 0 ==> 0 <= px && px + scale <= w && 0 <= py && py + scale <= h
    modifies buf
    ensures forall x, y :: OnCanvas(w, h, x, y) ==>
      PixelAt(buf, w, h, x, y) ==
        if InBox(x, y, px, py, px + scale, py + scale) then c else old(PixelAt(buf, w, h, x, y))
  {
    var sy := 0;
    while sy < scale
      invariant 0 <= sy && (scale >= 0 ==> sy <= scale)
      invariant forall x, y :: OnCanvas(w, h, x, y) ==>
        PixelAt(buf, w, h, x, y) ==
          if InBox(x, y, px, py, px + scale, py + sy) then c else old(PixelAt(buf, w, h, x, y))
    {
      var sx := 0;
      while sx < scale
        invariant 0 <= sx <= scale
        invariant forall x, y :: OnCanvas(w, h, x, y) ==>
          PixelAt(buf, w, h, x, y) ==
            if InBox(x, y, px, py, px + scale, py + sy) || InBox(x, y, px, py + sy, px + sx, py + sy + 1) then c
            else old(PixelAt(buf, w, h, x, y))
      {
        Put(buf, w, h, px + sx, py + sy, c);
        sx := sx + 1;
      }
      sy := sy + 1;
    }
  }

  /** Ink laid down once the rows before `ry`, and the bits before `rx` of row `ry`, are done. */
  predicate InkSoFar(rows: seq<string>, scale: int, u: int, v: int, ry: int, rx: int)
    requires IsGlyph(rows)
  {
    GlyphInk(rows, scale, u, v) && (v / scale < ry || (v / scale == ry && u / scale < rx))
  }

  /** Drawing bit (rx, ry) advances the ink by exactly that bit's block. */
  lemma InkStep(rows: seq<string>, scale: int, u: int, v: int, ry: int, rx: int)
    requires IsGlyph(rows) && scale > 0 && 0 <= ry < GLYPH_H && 0 <= rx < GLYPH_W
    ensures InkSoFar(rows, scale, u, v, ry, rx + 1) <==>
      InkSoFar(rows, scale, u, v, ry, rx)
      || (rows[ry][rx] == '1' && InBox(u, v, rx * scale, ry * scale, rx * scale + scale, ry * scale + scale))
  {
    QuotientIs(u, scale, rx);
    QuotientIs(v, scale, ry);
    if InBox(u, v, rx * scale, ry * scale, rx * scale + scale, ry * scale + scale) {
      CellInside(rx, GLYPH_W, scale);
      CellInside(ry, GLYPH_H, scale);
    }
  }

  lemma CellInside(q: int, n: int, d: int)
    requires 0 <= q < n && d >= 0
    ensures 0 <= q * d && q * d + d <= n * d
  {
    Monotone(q + 1, n, d);
    assert (q + 1) * d == q * d + d;
  }

  lemma RowDone(rows: seq<string>, scale: int, u: int, v: int, ry: int)
    requires IsGlyph(rows)
    ensures InkSoFar(rows, scale, u, v, ry, GLYPH_W) <==> InkSoFar(rows, scale, u, v, ry + 1, 0)
  {
    if GlyphInk(rows, scale, u, v) { QuotientBelow(u, scale, GLYPH_W); }
  }

  lemma GlyphDone(rows: seq<string>, scale: int, u: int, v: int)
    requires IsGlyph(rows)
    ensures InkSoFar(rows, scale, u, v, GLYPH_H, 0) <==> GlyphInk(rows, scale, u, v)
  {
    if GlyphInk(rows, scale, u, v) { QuotientBelow(v, scale, GLYPH_H); }
  }

  /** A cell of the glyph lies on the canvas where the whole glyph does. */
  lemma CellFits(w: int, h: int, pen: int, y0: int, scale: int, ry: int, rx: int)
    requires scale > 0 && 0 <= ry < GLYPH_H && 0 <= rx < GLYPH_W
    requires 0 <= pen && pen + GLYPH_W * scale <= w && 0 <= y0 && y0 + GLYPH_H * scale <= h
    ensures 0 <= pen + rx * scale && pen + rx * scale + scale <= w
    ensures 0 <= y0 + ry * scale && y0 + ry * scale + scale <= h
  {
    CellInside(rx, GLYPH_W, scale);
    CellInside(ry, GLYPH_H, scale);
  }

  /** One bit of the font: a block of ink, or nothing. */
  method DrawBit(buf: array<Byte>, w: int, ghost h: int, pen: int, y0: int, rows: seq<string>, scale: int, c: Rgba,
                 ry: int, rx: int)
    requires buf.Length == 4 * w * h && IsGlyph(rows) && 0 <= ry < GLYPH_H && 0 <= rx < GLYPH_W
    requires scale > 0 ==> 0 <= pen && pen + GLYPH_W * scale <= w && 0 <= y0 && y0 + GLYPH_H * scale <= h
    modifies buf
    ensures forall x, y :: OnCanvas(w, h, x, y) ==>
      PixelAt(buf, w, h, x, y) ==
        if BitInk(rows, scale, x - pen, y - y0, ry, rx) then c else old(PixelAt(buf, w, h, x, y))
  {
    if rows[ry][rx] == '1' {
      if scale > 0 { CellFits(w, h, pen, y0, scale, ry, rx); }
      FillBlock(buf, w, h, pen + rx * scale, y0 + ry * scale, scale, c);
    }
  }

  predicate BitInk(rows: seq<string>, scale: int, u: int, v: int, ry: int, rx: int)
    requires IsGlyph(rows) && 0 <= ry < GLYPH_H && 0 <= rx < GLYPH_W
  {
    rows[ry][rx] == '1' && InBox(u, v, rx * scale, ry * scale, rx * scale + scale, ry * scale + scale)
  }

  lemma BitStep(rows: seq<string>, scale: int, u: int, v: int, ry: int, rx: int)
    requires IsGlyph(rows) && 0 <= ry < GLYPH_H && 0 <= rx < GLYPH_W
    ensures InkSoFar(rows, scale, u, v, ry, rx + 1) <==>
      InkSoFar(rows, scale, u, v, ry, rx) || BitInk(rows, scale, u, v, ry, rx)
  {
    if scale > 0 { InkStep(rows, scale, u, v, ry, rx); }
  }

  /** The bit loop for one row of a character. */
  method DrawRow(
    buf: array<Byte>, w: int, ghost h: int, pen: int, y0: int, rows: seq<string>, scale: int, c: Rgba, ry: int)
    requires buf.Length == 4 * w * h && IsGlyph(rows) && 0 <= ry < GLYPH_H
    requires scale > 0 ==> 0 <= pen && pen + GLYPH_W * scale <= w && 0 <= y0 && y0 + GLYPH_H * scale <= h
    modifies buf
    ensures forall x, y :: OnCanvas(w, h, x, y) ==>
      PixelAt(buf, w, h, x, y)
        == if RowInk(rows, scale, x - pen, y - y0, ry, GLYPH_W) then c else old(PixelAt(buf, w, h, x, y))
  {
    for rx := 0 to |rows[ry]|
      invariant forall x, y :: OnCanvas(w, h, x, y) ==>
        PixelAt(buf, w, h, x, y)
          == if RowInk(rows, scale, x - pen, y - y0, ry, rx) then c else old(PixelAt(buf, w, h, x, y))
    {
      DrawBit(buf, w, h, pen, y0, rows, scale, c, ry, rx);
    }
  }

  /** The ink of the first `n` bits of a row. */
  predicate RowInk(rows: seq<string>, scale: int, u: int, v: int, ry: int, n: int)
    requires IsGlyph(rows) && 0 <= ry < GLYPH_H && 0 <= n <= GLYPH_W
    decreases n
  {
    n > 0 && (RowInk(rows, scale, u, v, ry, n - 1) || BitInk(rows, scale, u, v, ry, n - 1))
  }

  lemma {:induction false} RowStep(rows: seq<string>, scale: int, u: int, v: int, ry: int, n: int)
    requires IsGlyph(rows) && 0 <= ry < GLYPH_H && 0 <= n <= GLYPH_W
    ensures InkSoFar(rows, scale, u, v, ry, n)
      <==> InkSoFar(rows, scale, u, v, ry, 0) || RowInk(rows, scale, u, v, ry, n)
    decreases n
  {
    if n > 0 {
      RowStep(rows, scale, u, v, ry, n - 1);
      BitStep(rows, scale, u, v, ry, n - 1);
    }
  }

  /** The ink of the first `n` rows of a glyph. */
  predicate RowsInk(rows: seq<string>, scale: int, u: int, v: int, n: int)
    requires IsGlyph(rows) && 0 <= n <= GLYPH_H
    decreases n
  {
    n > 0 && (RowsInk(rows, scale, u, v, n - 1) || RowInk(rows, scale, u, v, n - 1, GLYPH_W))
  }

  lemma {:induction false} RowsInkIs(rows: seq<string>, scale: int, u: int, v: int, n: int)
    requires IsGlyph(rows) && 0 <= n <= GLYPH_H
    ensures RowsInk(rows, scale, u, v, n) <==> InkSoFar(rows, scale, u, v, n, 0)
    decreases n
  {
    if n > 0 {
      RowsInkIs(rows, scale, u, v, n - 1);
      RowStep(rows, scale, u, v, n - 1, GLYPH_W);
      RowDone(rows, scale, u, v, n - 1);
    } else if GlyphInk(rows, scale, u, v) {
      QuotientBelow(u, scale, GLYPH_W);
      QuotientBelow(v, scale, GLYPH_H);
    }
  }

  lemma AllRowsInk(rows: seq<string>, scale: int, u: int, v: int)
    requires IsGlyph(rows)
    ensures RowsInk(rows, scale, u, v, GLYPH_H) <==> GlyphInk(rows, scale, u, v)
  {
    RowsInkIs(rows, scale, u, v, GLYPH_H);
    GlyphDone(rows, scale, u, v);
  }

  lemma WholeGlyphInk(rows: seq<string>, scale: int)
    requires IsGlyph(rows)
    ensures forall u, v :: RowsInk(rows, scale, u, v, GLYPH_H) <==> GlyphInk(rows, scale, u, v)
  {
    forall u, v ensures RowsInk(rows, scale, u, v, GLYPH_H) <==> GlyphInk(rows, scale, u, v) {
      AllRowsInk(rows, scale, u, v);
    }
  }

  /** The row loop for one character. */
  method DrawGlyph(buf: array<Byte>, w: int, ghost h: int, pen: int, y0: int, rows: seq<string>, scale: int, c: Rgba)
    requires buf.Length == 4 * w * h && IsGlyph(rows)
    requires scale > 0 ==> 0 <= pen && pen + GLYPH_W * scale <= w && 0 <= y0 && y0 + GLYPH_H * scale <= h
    modifies buf
    ensures forall x, y :: OnCanvas(w, h, x, y) ==>
      PixelAt(buf, w, h, x, y) ==
        if GlyphInk(rows, scale, x - pen, y - y0) then c else old(PixelAt(buf, w, h, x, y))
  {
    for ry := 0 to |rows|
      invariant forall x, y :: OnCanvas(w, h, x, y) ==>
        PixelAt(buf, w, h, x, y)
          == if RowsInk(rows, scale, x - pen, y - y0, ry) then c else old(PixelAt(buf, w, h, x, y))
    {
      DrawRow(buf, w, h, pen, y0, rows, scale, c, ry);
    }
    WholeGlyphInk(rows, scale);
  }

  /** Appending a character adds its glyph, shifted by the advance of the characters before it. */
  lemma TextStep(font: Font, text: string, k: nat, scale: int, u: int, v: int)
    requires IsFont(font) && k < |text| && forall i :: 0 <= i <= k ==> text[i] in font
    requires scale > 0
    ensures TextInk(font, text[..k + 1], scale, u, v) <==>
      TextInk(font, text[..k], scale, u, v)
      || GlyphInk(font[text[k]], scale, u - k * (ADVANCE * scale), v)
  {
    var a := ADVANCE * scale;
    assert (k + 1) * a == k * a + a;
    QuotientIs(u, a, k);
    if 0 <= u < k * a {
      QuotientBelow(u, a, k);
    } else if k * a <= u < k * a + a {
      var d := u - k * a;
      assert 0 <= k * a by { Monotone(0, k, a); }
      assert u / a == k && u % a == d;
      QuotientBelow(d, scale, ADVANCE);
      if d < GLYPH_W * scale { QuotientBelow(d, scale, GLYPH_W); } else { QuotientIs(d, scale, GLYPH_W); }
    }
  }

  lemma PenFits(i: nat, text: string, scale: int)
    requires i < |text| && scale > 0
    ensures 0 <= i * (ADVANCE * scale) && i * (ADVANCE * scale) + GLYPH_W * scale <= TextWidth(text, scale)
  {
    CellInside(i, |text|, ADVANCE * scale);
    assert |text| * ADVANCE * scale == |text| * (ADVANCE * scale);
  }

  /**
    `draw_text`: upper-cases, draws character after character, and gives up (the source exits)
    at the first one the font lacks.  Whatever was drawn by then is pixel-exact.
   */
  method DrawText(
    buf: array<Byte>, w: int, ghost h: int, font: Font, x0: int, y0: int, text: string, scale: int, rgb: Rgb)
    returns (drawn: Option<int>)
    requires buf.Length == 4 * w * h && IsFont(font) && Ascii(text)
    requires scale > 0 && text != [] ==>
      0 <= x0 && x0 + TextWidth(text, scale) <= w && 0 <= y0 && y0 + GLYPH_H * scale <= h
    modifies buf
    ensures drawn.Some? <==> forall i :: 0 <= i < |text| ==> UpperChar(text[i]) in font
    ensures drawn.Some? ==> drawn.value == |text| * (ADVANCE * scale)
    ensures var k := Drawable(font, Upper(text));
      forall x, y :: OnCanvas(w, h, x, y) ==>
        PixelAt(buf, w, h, x, y) ==
          if TextInk(font, Upper(text)[..k], scale, x - x0, y - y0) then Opaque(rgb) else old(PixelAt(buf, w, h, x, y))
  {
    var upper := Upper(text);
    ghost var k := Drawable(font, upper);
    var pen := x0;
    for i := 0 to |upper|
      invariant i <= k && pen == x0 + i * (ADVANCE * scale)
      invariant forall x, y :: OnCanvas(w, h, x, y) ==>
        PixelAt(buf, w, h, x, y) ==
          if TextInk(font, upper[..i], scale, x - x0, y - y0) then Opaque(rgb) else old(PixelAt(buf, w, h, x, y))
    {
      if upper[i] !in font {
        assert i == k;
        return None;
      }
      if scale > 0 {
        PenFits(i, text, scale);
        forall x, y | OnCanvas(w, h, x, y)
          ensures TextInk(font, upper[..i + 1], scale, x - x0, y - y0) <==>
            TextInk(font, upper[..i], scale, x - x0, y - y0) || GlyphInk(font[upper[i]], scale, x - pen, y - y0)
        {
          TextStep(font, upper, i, scale, x - x0, y - y0);
        }
      }
      DrawGlyph(buf, w, h, pen, y0, font[upper[i]], scale, Opaque(rgb));
      pen := pen + ADVANCE * scale;
    }
    assert upper[..|upper|] == upper[..k];
    return Some(pen - x0);
  }
}
