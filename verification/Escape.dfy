/** `_esc` of tools/md-to-pdf.py: three global replacements against one character-by-character form. */
module Escape {
  import opened Text

  function Esc(t: string): string {
    Replace(Replace(Replace(t, "&", "&amp;"), "<", "&lt;"), ">", "&gt;")
  }

  function EscChar(c: char): string {
    if c == '&' then "&amp;" else if c == '<' then "&lt;" else if c == '>' then "&gt;" else [c]
  }

  function EscEach(t: string): string {
    if t == "" then "" else EscChar(t[0]) + EscEach(t[1..])
  }

  /** Replacing a single character, one character at a time. */
  function Map(t: string, c: char, new_: string): string {
    if t == "" then "" else MapChar(t[0], c, new_) + Map(t[1..], c, new_)
  }

  function MapChar(x: char, c: char, new_: string): string { if x == c then new_ else [x] }

  lemma {:induction false} ReplaceIsMap(t: string, c: char, new_: string)
    ensures Replace(t, [c], new_) == Map(t, c, new_)
  {
    if t != "" {
      ReplaceIsMap(t[1..], c, new_);
      assert [c] <= t <==> t[0] == c;
    }
  }

  lemma {:induction false} MapAppend(a: string, b: string, c: char, new_: string)
    ensures Map(a + b, c, new_) == Map(a, c, new_) + Map(b, c, new_)
  {
    if a == "" {
      assert a + b == b;
    } else {
      assert (a + b)[1..] == a[1..] + b;
      MapAppend(a[1..], b, c, new_);
      Concat(MapChar(a[0], c, new_), Map(a[1..], c, new_), Map(b, c, new_));
    }
  }

  lemma {:induction false} MapUntouched(t: string, c: char, new_: string)
    requires c !in t
    ensures Map(t, c, new_) == t
  {
    if t != "" {
      MapUntouched(t[1..], c, new_);
      assert t == [t[0]] + t[1..];
    }
  }

  lemma MapOne(x: char, c: char, new_: string)
    ensures Map([x], c, new_) == MapChar(x, c, new_)
  {
    assert [x][1..] == "";
  }

  lemma EscapeOne(x: char)
    ensures Map(Map(MapChar(x, '&', "&amp;"), '<', "&lt;"), '>', "&gt;") == EscChar(x)
  {
    if x == '&' {
      MapUntouched("&amp;", '<', "&lt;");
      MapUntouched("&amp;", '>', "&gt;");
    } else if x == '<' {
      MapOne(x, '<', "&lt;");
      MapUntouched("&lt;", '>', "&gt;");
    } else {
      MapOne(x, '<', "&lt;");
      MapOne(x, '>', "&gt;");
    }
  }

  /** The three passes never disturb each other: they amount to escaping each character once. */
  lemma {:induction false} EscIsEscEach(t: string)
    ensures Esc(t) == EscEach(t)
  {
    ReplaceIsMap(t, '&', "&amp;");
    ReplaceIsMap(Map(t, '&', "&amp;"), '<', "&lt;");
    ReplaceIsMap(Map(Map(t, '&', "&amp;"), '<', "&lt;"), '>', "&gt;");
    MapsAreEach(t);
  }

  lemma {:induction false} MapsAreEach(t: string)
    ensures Map(Map(Map(t, '&', "&amp;"), '<', "&lt;"), '>', "&gt;") == EscEach(t)
  {
    if t != "" {
      var first, rest := MapChar(t[0], '&', "&amp;"), Map(t[1..], '&', "&amp;");
      MapAppend(first, rest, '<', "&lt;");
      MapAppend(Map(first, '<', "&lt;"), Map(rest, '<', "&lt;"), '>', "&gt;");
      EscapeOne(t[0]);
      MapsAreEach(t[1..]);
    }
  }

  /** No tag delimiter survives. */
  lemma {:induction false} EscHasNoAngles(t: string)
    ensures '<' !in Esc(t) && '>' !in Esc(t)
  {
    EscIsEscEach(t);
    EachHasNoAngles(t);
  }

  lemma {:induction false} EachHasNoAngles(t: string)
    ensures '<' !in EscEach(t) && '>' !in EscEach(t)
  {
    if t != "" { EachHasNoAngles(t[1..]); }
  }

  /** What the reader of the markup makes of it. */
  function Unescape(s: string): string
    decreases |s|
  {
    if s == "" then ""
    else if "&amp;" <= s then "&" + Unescape(s[5..])
    else if "&lt;" <= s then "<" + Unescape(s[4..])
    else if "&gt;" <= s then ">" + Unescape(s[4..])
    else [s[0]] + Unescape(s[1..])
  }

  lemma UnescapeOne(x: char, rest: string)
    ensures Unescape(EscChar(x) + rest) == [x] + Unescape(rest)
  {
    var s := EscChar(x) + rest;
    if x == '&' {
      assert s[5..] == rest;
    } else if x == '<' {
      assert s[1] == 'l' && s[4..] == rest;
    } else if x == '>' {
      assert s[1] == 'g' && s[4..] == rest;
    } else {
      assert s[0] == x && s[1..] == rest;
    }
  }

  /** Escaping loses nothing: the reader gets the text back, so different texts stay different. */
  lemma {:induction false} UnescapeEsc(t: string)
    ensures Unescape(Esc(t)) == t
  {
    EscIsEscEach(t);
    UnescapeEach(t);
  }

  lemma {:induction false} UnescapeEach(t: string)
    ensures Unescape(EscEach(t)) == t
  {
    if t != "" {
      UnescapeEach(t[1..]);
      UnescapeOne(t[0], EscEach(t[1..]));
      assert t == [t[0]] + t[1..];
    }
  }
}
