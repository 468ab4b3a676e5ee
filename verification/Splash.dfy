/**
  `build_images` of tools/boot/make-splash.py: the layout of every picture of the boot theme.
  Each drawing routine requires its target to lie on the canvas, so verifying these methods is
  the proof that nothing is ever painted out of bounds; their contracts say what was painted.
 */
module Splash {
  import opened Bytes
  import opened Options
  import opened Canvas
  import opened Decimal

  /** A finished image: what the source hands to the PNG writer. */
  datatype Picture = Picture(name: string, w: nat, h: nat, pixels: seq<Byte>)

  ghost function PixelOf(pixels: seq<Byte>, w: int, h: int, x: int, y: int): Rgba
    requires |pixels| == 4 * w * h && OnCanvas(w, h, x, y)
  {
    SlotInside(w, h, x, y);
    var i := Slot(w, x, y);
    Rgba(pixels[i], pixels[i + 1], pixels[i + 2], pixels[i + 3])
  }

  /** The picture has the given name and size, a buffer of exactly that size, and that colour at each pixel. */
  ghost predicate Shows(p: Picture, name: string, w: int, h: int, colour: (int, int) -> Rgba) {
    && p.name == name && p.w == w && p.h == h && |p.pixels| == 4 * w * h
    && forall x, y :: OnCanvas(w, h, x, y) ==> PixelOf(p.pixels, w, h, x, y) == colour(x, y)
  }

  method Snapshot(name: string, w: nat, h: nat, buf: array<Byte>, ghost colour: (int, int) -> Rgba) returns (p: Picture)
    requires buf.Length == 4 * w * h
    requires forall x, y :: OnCanvas(w, h, x, y) ==> PixelAt(buf, w, h, x, y) == colour(x, y)
    ensures Shows(p, name, w, h, colour)
  {
    p := Picture(name, w, h, buf[..]);
    forall x, y | OnCanvas(w, h, x, y) ensures PixelOf(p.pixels, w, h, x, y) == colour(x, y) {
      SlotInside(w, h, x, y);
      assert PixelAt(buf, w, h, x, y) == colour(x, y);
    }
  }

  // ---------------------------------------------------------------- the wordmark

  predicate AllDrawable(font: Font, text: string) {
    forall i :: 0 <= i < |text| ==> UpperChar(text[i]) in font
  }

  function Max(a: int, b: int): int { if a >= b then a else b }

  const GAP := 16
  const WORDMARK := Rgba(0xF2, 0xF6, 0xFB, 255)
  const SUBTITLE := Rgba(0x7E, 0x96, 0xB8, 255)

  function SubtitleWidth(subtitle: string): int { if subtitle != "" then TextWidth(subtitle, 3) else 0 }

  function WatermarkWidth(wordmark: string, subtitle: string): int {
    Max(TextWidth(wordmark, 6), SubtitleWidth(subtitle)) + 8
  }

  function WatermarkHeight(subtitle: string): int {
    GLYPH_H * 6 + (if subtitle != "" then GAP + GLYPH_H * 3 else 0) + 8
  }

  predicate WordmarkInk(font: Font, wordmark: string, w: int, x: int, y: int)
    requires IsFont(font) && AllDrawable(font, wordmark)
  {
    TextInk(font, Upper(wordmark), 6, x - (w - TextWidth(wordmark, 6)) / 2, y - 4)
  }

  predicate SubtitleInk(font: Font, subtitle: string, w: int, x: int, y: int)
    requires IsFont(font) && AllDrawable(font, subtitle)
  {
    TextInk(font, Upper(subtitle), 3, x - (w - SubtitleWidth(subtitle)) / 2, y - 62)
  }

  function WatermarkPixel(font: Font, wordmark: string, subtitle: string, x: int, y: int): Rgba
    requires IsFont(font) && AllDrawable(font, wordmark) && AllDrawable(font, subtitle)
  {
    var w := WatermarkWidth(wordmark, subtitle);
    if WordmarkInk(font, wordmark, w, x, y) then WORDMARK
    else if SubtitleInk(font, subtitle, w, x, y) then SUBTITLE
    else CLEAR
  }

  function WatermarkColour(font: Font, wordmark: string, subtitle: string): (int, int) -> Rgba
    requires IsFont(font) && AllDrawable(font, wordmark) && AllDrawable(font, subtitle)
  {
    (x, y) => WatermarkPixel(font, wordmark, subtitle, x, y)
  }

  /** The two lines of text never overlap: the second starts below the first. */
  lemma LinesApart(font: Font, wordmark: string, subtitle: string, w: int, x: int, y: int)
    requires IsFont(font) && AllDrawable(font, wordmark) && AllDrawable(font, subtitle)
    requires WordmarkInk(font, wordmark, w, x, y)
    ensures !SubtitleInk(font, subtitle, w, x, y)
  {
  }

  lemma WholeTextDrawable(font: Font, text: string)
    requires AllDrawable(font, text)
    ensures Upper(text)[..Drawable(font, Upper(text))] == Upper(text)
  {
  }

  lemma Centred(width: int, w: int)
    requires 0 <= w <= width
    ensures 0 <= (width - w) / 2 && (width - w) / 2 + w <= width
  {
  }

  lemma NothingToDraw(font: Font, scale: int)
    requires IsFont(font)
    ensures forall u, v :: !TextInk(font, Upper(""), scale, u, v)
  {
  }

  method DrawWordmark(font: Font, buf: array<Byte>, width: int, ghost height: int, wordmark: string) returns (ok: bool)
    requires buf.Length == 4 * width * height && IsFont(font) && Ascii(wordmark)
    requires TextWidth(wordmark, 6) <= width && 4 + GLYPH_H * 6 <= height
    modifies buf
    ensures ok <==> AllDrawable(font, wordmark)
    ensures ok ==> forall x, y :: OnCanvas(width, height, x, y) ==>
      PixelAt(buf, width, height, x, y) ==
        if WordmarkInk(font, wordmark, width, x, y) then WORDMARK else old(PixelAt(buf, width, height, x, y))
  {
    var w1 := TextWidth(wordmark, 6);
    if wordmark != "" { Centred(width, w1); }
    var drawn := DrawText(buf, width, height, font, (width - w1) / 2, 4, wordmark, 6, Rgb(0xF2, 0xF6, 0xFB));
    ok := drawn.Some?;
    if ok { WholeTextDrawable(font, wordmark); }
  }

  method DrawSubtitle(font: Font, buf: array<Byte>, width: int, ghost height: int, subtitle: string) returns (ok: bool)
    requires buf.Length == 4 * width * height && IsFont(font) && Ascii(subtitle)
    requires subtitle != "" ==> TextWidth(subtitle, 3) <= width && 62 + GLYPH_H * 3 <= height
    modifies buf
    ensures ok <==> AllDrawable(font, subtitle)
    ensures ok ==> forall x, y :: OnCanvas(width, height, x, y) ==>
      PixelAt(buf, width, height, x, y) ==
        if SubtitleInk(font, subtitle, width, x, y) then SUBTITLE else old(PixelAt(buf, width, height, x, y))
  {
    if subtitle == "" {
      NothingToDraw(font, 3);
      return true;
    }
    var w2 := TextWidth(subtitle, 3);
    Centred(width, w2);
    var drawn := DrawText(buf, width, height, font, (width - w2) / 2, 4 + GLYPH_H * 6 + GAP, subtitle, 3,
      Rgb(0x7E, 0x96, 0xB8));
    ok := drawn.Some?;
    if ok { WholeTextDrawable(font, subtitle); }
  }

  method BuildWatermark(font: Font, wordmark: string, subtitle: string) returns (r: Option<Picture>)
    requires IsFont(font) && Ascii(wordmark) && Ascii(subtitle)
    ensures r.Some? <==> AllDrawable(font, wordmark) && AllDrawable(font, subtitle)
    ensures r.Some? ==>
      Shows(r.value, "watermark.png", WatermarkWidth(wordmark, subtitle), WatermarkHeight(subtitle),
            WatermarkColour(font, wordmark, subtitle))
  {
    var s1, s2 := 6, 3;
    var w1 := TextWidth(wordmark, s1);
    var w2 := if subtitle != "" then TextWidth(subtitle, s2) else 0;
    var width := Max(w1, w2) + 8;
    var height := GLYPH_H * s1 + (if subtitle != "" then GAP + GLYPH_H * s2 else 0) + 8;
    var buf := NewCanvas(width, height);
    var ok := DrawWordmark(font, buf, width, height, wordmark);
    if !ok { return None; }
    ok := DrawSubtitle(font, buf, width, height, subtitle);
    if !ok { return None; }
    forall x, y | WordmarkInk(font, wordmark, width, x, y) ensures !SubtitleInk(font, subtitle, width, x, y) {
      LinesApart(font, wordmark, subtitle, width, x, y);
    }
    var p := Snapshot("watermark.png", width, height, buf, WatermarkColour(font, wordmark, subtitle));
    return Some(p);
  }

  // ---------------------------------------------------------------- the chasing dots

  const DOTS := 12
  const DOTS_W := 301
  const DOTS_H := 14

  /** Dot `f` is opaque in frame `f`; each one to its right is fainter, down to a minimum. */
  function DotAlpha(i: int, f: int): Byte {
    Max(40, 255 - ((i - f) % DOTS) * 40)
  }

  /**
    From one frame to the next every pixel of the first eleven dots moves one dot to the right, and
    those of the last come round to the first.
   */
  lemma DotsChase(f: int, x: int, y: int)
    requires 8 <= x < 308
    ensures x < 283 ==> FrameColour(f + 1)(x + 25, y) == FrameColour(f)(x, y)
    ensures x >= 283 ==> FrameColour(f + 1)(x - 275, y) == FrameColour(f)(x, y)
  {
    var i := (x - 8) / 25;
    if x < 283 {
      assert (x + 25 - 8) / 25 == i + 1 && i + 1 - (f + 1) == i - f;
      DiscMoves(x, y, 13 + i * 25, 25);
    } else {
      assert i == 11 && (x - 275 - 8) / 25 == 0;
      assert (0 - (f + 1)) % 12 == (11 - f) % 12;
      DiscMoves(x, y, 13 + i * 25, -275);
    }
  }

  lemma DiscMoves(x: int, y: int, cx: int, shift: int)
    ensures InDisc(x + shift, y, cx + shift, 7, 5) <==> InDisc(x, y, cx, 7, 5)
  {
    assert x + shift - (cx + shift) == x - cx;
  }

  /** In each frame one dot is opaque; the next to the right is fainter by 40, and so on down to 40. */
  lemma DotsFade(i: int, f: int)
    ensures DotAlpha(i, f) == 255 <==> i % 12 == f % 12
    ensures (i - f) % 12 < 5 ==> DotAlpha(i + 1, f) == DotAlpha(i, f) - 40
    ensures (i - f) % 12 >= 6 ==> DotAlpha(i, f) == 40
  {
    SameRest(i, f);
    NextRest(i - f);
    assert i + 1 - f == i - f + 1;
  }

  lemma SameRest(i: int, f: int)
    ensures (i - f) % 12 == 0 <==> i % 12 == f % 12
  {
  }

  lemma NextRest(n: int)
    ensures n % 12 < 11 ==> (n + 1) % 12 == n % 12 + 1
  {
  }

  /** Column `x` can only belong to dot `(x - 8) / 25`. */
  function FrameColour(f: int): (int, int) -> Rgba {
    (x: int, y: int) =>
      var i := (x - 8) / 25;
      if 0 <= i < DOTS && InDisc(x, y, 13 + i * 25, 7, 5) then Rgba(0x4D, 0xA3, 0xFF, DotAlpha(i, f)) else CLEAR
  }

  lemma DotColumn(x: int, y: int, i: int)
    requires InDisc(x, y, 13 + i * 25, 7, 5)
    ensures (x - 8) / 25 == i
  {
    DiscInsideSquare(x, y, 13 + i * 25, 7, 5);
  }

  method BuildFrame(f: int, name: string, name': string) returns (p: Picture, p': Picture)
    ensures Shows(p, name, DOTS_W, DOTS_H, FrameColour(f))
    ensures Shows(p', name', DOTS_W, DOTS_H, FrameColour(f))
  {
    var dots, radius, pitch, pad := 12, 5, 25, 8;
    var w := pad * 2 + (dots - 1) * pitch + radius * 2;
    var h := radius * 2 + 4;
    var cy := h / 2;
    var buf := NewCanvas(w, h);
    ghost var colour := FrameColour(f);
    for i := 0 to dots
      invariant forall x, y :: OnCanvas(w, h, x, y) ==>
        PixelAt(buf, w, h, x, y) == if (x - 8) / 25 < i then colour(x, y) else CLEAR
    {
      var d := (i - f) % dots;
      var alpha := Max(40, 255 - d * 40);
      label before:
      DrawDisc(buf, w, h, pad + radius + i * pitch, cy, radius, Rgb(0x4D, 0xA3, 0xFF), alpha);
      forall x, y | OnCanvas(w, h, x, y)
        ensures PixelAt(buf, w, h, x, y) == if (x - 8) / 25 < i + 1 then colour(x, y) else CLEAR
      {
        if InDisc(x, y, 13 + i * 25, 7, 5) { DotColumn(x, y, i); }
      }
    }
    p := Snapshot(name, w, h, buf, colour);
    p' := Snapshot(name', w, h, buf, colour);
  }

  // ---------------------------------------------------------------- the prompt images

  const FIELD := Rgb(0x13, 0x20, 0x3A)
  const EDGE := Rgb(0x1F, 0x33, 0x50)
  const INK := Rgb(0x7E, 0x96, 0xB8)
  const DARK := Rgb(0x0B, 0x12, 0x20)

  function PanelColour(w: int, h: int, border: Rgb): (int, int) -> Rgba {
    (x, y) => RectColour(x, y, 0, 0, w, h, FIELD, Some(border))
  }

  method BuildPanel(name: string, w: nat, h: nat, border: Rgb) returns (p: Picture)
    ensures Shows(p, name, w, h, PanelColour(w, h, border))
  {
    var buf := NewCanvas(w, h);
    DrawRect(buf, w, h, 0, 0, w, h, FIELD, Some(border));
    p := Snapshot(name, w, h, buf, PanelColour(w, h, border));
  }

  function BulletColour(): (int, int) -> Rgba {
    (x, y) => if InDisc(x, y, 5, 5, 4) then Rgba(0xF2, 0xF6, 0xFB, 255) else CLEAR
  }

  method BuildBullet() returns (p: Picture)
    ensures Shows(p, "bullet.png", 10, 10, BulletColour())
  {
    var buf := NewCanvas(10, 10);
    DrawDisc(buf, 10, 10, 5, 5, 4, Rgb(0xF2, 0xF6, 0xFB), 255);
    p := Snapshot("bullet.png", 10, 10, buf, BulletColour());
  }

  /** The ring test of the padlock's shackle, at the middle of the pixel. */
  predicate OnShackle(x: int, y: int) {
    var dx, dy := x as real + 0.5 - 10.0, y as real + 0.5 - 10.0;
    16.0 <= dx * dx + dy * dy <= 49.0
  }

  /** Shackle, body, keyhole: the later layer covers the earlier. */
  function LockColour(): (int, int) -> Rgba {
    (x, y) =>
      if InBox(x, y, 9, 18, 11, 22) || InDisc(x, y, 10, 17, 2) then Opaque(DARK)
      else if InBox(x, y, 1, 11, 19, 26) || (y < 12 && OnShackle(x, y)) then Opaque(INK)
      else CLEAR
  }

  method BuildLock() returns (p: Picture)
    ensures Shows(p, "lock.png", 20, 26, LockColour())
  {
    var lw, lh := 20, 26;
    var buf := NewCanvas(lw, lh);
    for y := 0 to 12
      invariant forall x', y' :: OnCanvas(lw, lh, x', y') ==>
        PixelAt(buf, lw, lh, x', y') == if y' < y && OnShackle(x', y') then Opaque(INK) else CLEAR
    {
      for x := 0 to lw
        invariant forall x', y' :: OnCanvas(lw, lh, x', y') ==>
          PixelAt(buf, lw, lh, x', y') ==
            if (y' < y || (y' == y && x' < x)) && OnShackle(x', y') then Opaque(INK) else CLEAR
      {
        var on := OnShackle(x, y);
        if on { Put(buf, lw, lh, x, y, Opaque(INK)); }
      }
    }
    DrawRect(buf, lw, lh, 1, 11, 19, lh, INK, None);
    DrawDisc(buf, lw, lh, 10, 17, 2, DARK, 255);
    DrawRect(buf, lw, lh, 9, 18, 11, 22, DARK, None);
    p := Snapshot("lock.png", lw, lh, buf, LockColour());
  }

  // ---------------------------------------------------------------- the whole theme

  function FrameName(prefix: string, f: nat): string {
    prefix + Padded(f + 1, 4) + ".png"
  }

  predicate IsNumbered(digits: string, n: nat) { |digits| >= 4 && AllDigits(digits) && Value(digits) == n }

  /** `'%s%04d.png' % (prefix, f + 1)`: frames are numbered from 1, with four digits or more. */
  lemma FrameNameIs(prefix: string, f: nat)
    ensures exists digits :: FrameName(prefix, f) == prefix + digits + ".png" && IsNumbered(digits, f + 1)
  {
    PaddedValue(f + 1, 4);
    assert FrameName(prefix, f) == prefix + Padded(f + 1, 4) + ".png";
  }

  /** Everything `build_images` makes, in the order it makes it. */
  ghost predicate IsTheme(made: seq<Picture>, font: Font, wordmark: string, subtitle: string, frames: nat)
    requires IsFont(font) && AllDrawable(font, wordmark) && AllDrawable(font, subtitle)
  {
    && |made| == 2 * frames + 5
    && Shows(made[0], "watermark.png", WatermarkWidth(wordmark, subtitle), WatermarkHeight(subtitle),
             WatermarkColour(font, wordmark, subtitle))
    && FramesDone(made, frames)
    && Shows(made[2 * frames + 1], "box.png", 420, 160, PanelColour(420, 160, EDGE))
    && Shows(made[2 * frames + 2], "entry.png", 300, 34, PanelColour(300, 34, Rgb(0x4D, 0xA3, 0xFF)))
    && Shows(made[2 * frames + 3], "bullet.png", 10, 10, BulletColour())
    && Shows(made[2 * frames + 4], "lock.png", 20, 26, LockColour())
  }

  ghost predicate FramesDone(made: seq<Picture>, n: nat) {
    && |made| >= 2 * n + 1
    && forall f :: 0 <= f < n ==>
         && Shows(made[2 * f + 1], FrameName("throbber-", f), DOTS_W, DOTS_H, FrameColour(f))
         && Shows(made[2 * f + 2], FrameName("animation-", f), DOTS_W, DOTS_H, FrameColour(f))
  }

  lemma OneMoreFrame(made: seq<Picture>, f: nat, p: Picture, p': Picture)
    requires |made| == 2 * f + 1 && FramesDone(made, f)
    requires Shows(p, FrameName("throbber-", f), DOTS_W, DOTS_H, FrameColour(f))
    requires Shows(p', FrameName("animation-", f), DOTS_W, DOTS_H, FrameColour(f))
    ensures FramesDone(made + [p, p'], f + 1)
  {
    var more := made + [p, p'];
    assert more[2 * f + 1] == p && more[2 * f + 2] == p';
    assert forall k :: 0 <= k < f ==> more[2 * k + 1] == made[2 * k + 1] && more[2 * k + 2] == made[2 * k + 2];
  }

  /** The frame loop: each frame is made once and written under both names. */
  method BuildFrames(first: Picture, frames: int) returns (made: seq<Picture>)
    ensures |made| == 2 * Max(frames, 0) + 1 && made[0] == first && FramesDone(made, Max(frames, 0))
  {
    made := [first];
    var f := 0;
    while f < frames
      invariant 0 <= f <= Max(frames, 0) && |made| == 2 * f + 1
      invariant made[0] == first && FramesDone(made, f)
    {
      var p, p' := BuildFrame(f, FrameName("throbber-", f), FrameName("animation-", f));
      OneMoreFrame(made, f, p, p');
      made := made + [p, p'];
      f := f + 1;
    }
  }

  method BuildImages(font: Font, wordmark: string, subtitle: string, frames: int) returns (r: Option<seq<Picture>>)
    requires IsFont(font) && Ascii(wordmark) && Ascii(subtitle)
    ensures r.Some? <==> AllDrawable(font, wordmark) && AllDrawable(font, subtitle)
    ensures r.Some? ==> IsTheme(r.value, font, wordmark, subtitle, Max(frames, 0))
  {
    var watermark := BuildWatermark(font, wordmark, subtitle);
    if watermark.None? { return None; }
    var made := BuildFrames(watermark.value, frames);
    var box := BuildPanel("box.png", 420, 160, EDGE);
    var entry := BuildPanel("entry.png", 300, 34, Rgb(0x4D, 0xA3, 0xFF));
    var bullet := BuildBullet();
    var lock := BuildLock();
    made := made + [box, entry, bullet, lock];
    return Some(made);
  }
}
