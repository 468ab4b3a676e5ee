/** The built-in 5x7 bitmap font of tools/boot/make-splash.py. */
module SplashFont {
  import opened Canvas

  const A_TO_I: Font := map[
    'A' := ["01110", "10001", "10001", "11111", "10001", "10001", "10001"],
    'B' := ["11110", "10001", "11110", "10001", "10001", "10001", "11110"],
    'C' := ["01110", "10001", "10000", "10000", "10000", "10001", "01110"],
    'D' := ["11110", "10001", "10001", "10001", "10001", "10001", "11110"],
    'E' := ["11111", "10000", "11110", "10000", "10000", "10000", "11111"],
    'F' := ["11111", "10000", "11110", "10000", "10000", "10000", "10000"],
    'G' := ["01110", "10001", "10000", "10111", "10001", "10001", "01111"],
    'H' := ["10001", "10001", "10001", "11111", "10001", "10001", "10001"],
    'I' := ["11111", "00100", "00100", "00100", "00100", "00100", "11111"]
  ]

  const J_TO_R: Font := map[
    'J' := ["00111", "00010", "00010", "00010", "00010", "10010", "01100"],
    'K' := ["10001", "10010", "10100", "11000", "10100", "10010", "10001"],
    'L' := ["10000", "10000", "10000", "10000", "10000", "10000", "11111"],
    'M' := ["10001", "11011", "10101", "10101", "10001", "10001", "10001"],
    'N' := ["10001", "11001", "10101", "10011", "10001", "10001", "10001"],
    'O' := ["01110", "10001", "10001", "10001", "10001", "10001", "01110"],
    'P' := ["11110", "10001", "10001", "11110", "10000", "10000", "10000"],
    'Q' := ["01110", "10001", "10001", "10001", "10101", "10010", "01101"],
    'R' := ["11110", "10001", "10001", "11110", "10100", "10010", "10001"]
  ]

  const S_TO_Z: Font := map[
    'S' := ["01111", "10000", "10000", "01110", "00001", "00001", "11110"],
    'T' := ["11111", "00100", "00100", "00100", "00100", "00100", "00100"],
    'U' := ["10001", "10001", "10001", "10001", "10001", "10001", "01110"],
    'V' := ["10001", "10001", "10001", "10001", "10001", "01010", "00100"],
    'W' := ["10001", "10001", "10001", "10101", "10101", "11011", "10001"],
    'X' := ["10001", "10001", "01010", "00100", "01010", "10001", "10001"],
    'Y' := ["10001", "10001", "01010", "00100", "00100", "00100", "00100"],
    'Z' := ["11111", "00001", "00010", "00100", "01000", "10000", "11111"]
  ]

  const DIGITS: Font := map[
    '0' := ["01110", "10001", "10011", "10101", "11001", "10001", "01110"],
    '1' := ["00100", "01100", "00100", "00100", "00100", "00100", "01110"],
    '2' := ["01110", "10001", "00001", "00010", "00100", "01000", "11111"],
    '3' := ["11111", "00010", "00100", "00010", "00001", "10001", "01110"],
    '4' := ["00010", "00110", "01010", "10010", "11111", "00010", "00010"],
    '5' := ["11111", "10000", "11110", "00001", "00001", "10001", "01110"],
    '6' := ["00110", "01000", "10000", "11110", "10001", "10001", "01110"],
    '7' := ["11111", "00001", "00010", "00100", "01000", "01000", "01000"],
    '8' := ["01110", "10001", "10001", "01110", "10001", "10001", "01110"],
    '9' := ["01110", "10001", "10001", "01111", "00001", "00010", "01100"]
  ]

  const MARKS: Font := map[
    ' ' := ["00000", "00000", "00000", "00000", "00000", "00000", "00000"],
    '.' := ["00000", "00000", "00000", "00000", "00000", "01100", "01100"],
    '-' := ["00000", "00000", "00000", "01110", "00000", "00000", "00000"],
    ':' := ["00000", "01100", "01100", "00000", "01100", "01100", "00000"],
    '/' := ["00001", "00010", "00010", "00100", "01000", "01000", "10000"]
  ]

  const FONT: Font := A_TO_I + J_TO_R + S_TO_Z + DIGITS + MARKS

  /** Every glyph is seven rows of five bits. */
  lemma FontIsWellFormed()
    ensures IsFont(FONT)
  {
    AToIGlyphs();
    JToRGlyphs();
    SToZGlyphs();
    DigitsGlyphs();
    MarksGlyphs();
  }

  lemma AToIGlyphs()
    ensures IsFont(A_TO_I)
  {
  }

  lemma JToRGlyphs()
    ensures IsFont(J_TO_R)
  {
  }

  lemma SToZGlyphs()
    ensures IsFont(S_TO_Z)
  {
  }

  lemma DigitsGlyphs()
    ensures IsFont(DIGITS)
  {
  }

  lemma MarksGlyphs()
    ensures IsFont(MARKS)
  {
  }
}
