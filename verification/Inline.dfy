/**
  `inline` of tools/md-to-pdf.py: code spans are set aside, the rest is escaped, links and
  emphasis become tags, double hyphens a dash.  An independent reader checks the tags.
 */
module Inline {
  import opened Options
  import opened Text
  import opened Escape
  import opened Emphasis

  // ---------------------------------------------------------------- code spans

  datatype Part = Prose(text: string) | Code(text: string)

  /** Where the code span that starts at `i` ends, if one does. */
  function SpanEnd(s: string, i: nat): Option<nat>
    requires i < |s|
  {
    var j := IndexOf(s[i + 1..], '`');
    if s[i] == '`' && 0 < j && i + 1 + j < |s| then Some(i + 1 + j) else None
  }

  /** The first code span at or after `i`. */
  function FirstSpan(s: string, i: nat): (r: Option<(nat, nat)>)
    requires i <= |s|
    ensures r.Some? ==> i <= r.value.0 < r.value.1 < |s| && s[r.value.0] == s[r.value.1] == '`'
    decreases |s| - i
  {
    if i == |s| then None
    else
      var end := SpanEnd(s, i);
      if end.Some? then Some((i, end.value)) else FirstSpan(s, i + 1)
  }

  /** The first code span, what comes before it, and what comes after. */
  datatype Piece = Piece(before: string, code: string, rest: string)

  function FirstPiece(s: string): (r: Option<Piece>)
    ensures r.Some? ==> s == r.value.before + (SourceOne(Code(r.value.code)) + r.value.rest) && |r.value.rest| < |s|
  {
    var span := FirstSpan(s, 0);
    if span.None? then None else Some(PieceOf(s, span.value.0, span.value.1))
  }

  function PieceOf(s: string, i: nat, j: nat): (p: Piece)
    requires i < j < |s| && s[i] == s[j] == '`'
    ensures s == p.before + (SourceOne(Code(p.code)) + p.rest) && |p.rest| < |s|
  {
    Spanned(s, i, j, "`");
    Piece(s[..i], s[i + 1..j], s[j + 1..])
  }

  /** `re.split` on code spans. */
  function Parts(s: string): seq<Part>
    decreases |s|
  {
    var p := FirstPiece(s);
    if p.None? then [Prose(s)]
    else [Prose(p.value.before), Code(p.value.code)] + Parts(p.value.rest)
  }

  function Source(parts: seq<Part>): string {
    if parts == [] then ""
    else SourceOne(parts[0]) + Source(parts[1..])
  }

  function SourceOne(part: Part): string {
    if part.Prose? then part.text else "`" + part.text + "`"
  }

  /** Putting the backticks back gives the text. */
  lemma {:induction false} PartsKeepText(s: string)
    ensures Source(Parts(s)) == s
    decreases |s|
  {
    var p := FirstPiece(s);
    if p.None? {
      SourceSingle(Prose(s));
    } else {
      PartsKeepText(p.value.rest);
      SourceTwo(Prose(p.value.before), Code(p.value.code), Parts(p.value.rest));
    }
  }

  lemma SourceSingle(a: Part)
    ensures Source([a]) == SourceOne(a)
  {
    assert [a][1..] == [] && SourceOne(a) + "" == SourceOne(a);
  }

  lemma SourceTwo(a: Part, b: Part, rest: seq<Part>)
    ensures Source([a, b] + rest) == SourceOne(a) + (SourceOne(b) + Source(rest))
  {
    var parts := [a, b] + rest;
    assert parts[1..] == [b] + rest;
    assert parts[1..][1..] == rest;
  }

  lemma Spanned(s: string, i: nat, j: nat, tick: string)
    requires i < j < |s| && tick == [s[i]] == [s[j]]
    ensures s == s[..i] + ((tick + s[i + 1..j] + tick) + s[j + 1..])
  {
  }

  /** A code span: two backticks, and something but no backtick between them. */
  predicate IsSpan(s: string, i: nat, j: nat) {
    i + 1 < j < |s| && s[i] == '`' && s[j] == '`' && '`' !in s[i + 1..j]
  }

  ghost predicate HasNoSpan(s: string) { forall i: nat, j: nat :: j < |s| ==> !IsSpan(s, i, j) }

  lemma SpanEndIs(s: string, i: nat, j: nat)
    requires i < |s|
    ensures SpanEnd(s, i) == Some(j) <==> IsSpan(s, i, j)
  {
    var rest := s[i + 1..];
    if IsSpan(s, i, j) {
      assert rest[..j - i - 1] == s[i + 1..j];
      IndexIs(rest, '`', j - i - 1);
    }
    if SpanEnd(s, i) == Some(j) { assert rest[..j - i - 1] == s[i + 1..j]; }
  }

  /** The leftmost span, if there is one. */
  lemma {:induction false} FirstSpanIs(s: string, i: nat)
    requires i <= |s|
    ensures var r := FirstSpan(s, i);
      && (r.Some? ==> IsSpan(s, r.value.0, r.value.1))
      && forall a: nat, b: nat :: i <= a && (r.Some? ==> a < r.value.0) ==> !IsSpan(s, a, b)
    decreases |s| - i
  {
    if i < |s| {
      SpanHere(s, i);
      if SpanEnd(s, i).None? { FirstSpanIs(s, i + 1); }
    }
  }

  lemma SpanHere(s: string, i: nat)
    requires i < |s|
    ensures SpanEnd(s, i).Some? ==> IsSpan(s, i, SpanEnd(s, i).value)
    ensures SpanEnd(s, i).None? ==> forall b: nat :: !IsSpan(s, i, b)
  {
    forall b: nat ensures SpanEnd(s, i) == Some(b) <==> IsSpan(s, i, b) { SpanEndIs(s, i, b); }
  }

  lemma SpanOfPrefix(s: string, n: nat, a: nat, b: nat)
    requires n <= |s| && IsSpan(s[..n], a, b)
    ensures IsSpan(s, a, b) && b < n
  {
    assert s[..n][a + 1..b] == s[a + 1..b];
  }

  /** What a part of the split is: prose without a span, or what was between the backticks of one. */
  ghost predicate IsPart(part: Part) {
    match part
    case Prose(text) => HasNoSpan(text)
    case Code(text) => text != "" && '`' !in text
  }

  lemma PieceIsParts(s: string)
    ensures FirstPiece(s).None? ==> HasNoSpan(s)
    ensures FirstPiece(s).Some? ==> IsPart(Prose(FirstPiece(s).value.before)) && IsPart(Code(FirstPiece(s).value.code))
  {
    FirstSpanIs(s, 0);
    if FirstPiece(s).Some? {
      var i := FirstSpan(s, 0).value.0;
      forall a: nat, b: nat | b < i ensures !IsSpan(s[..i], a, b) {
        if IsSpan(s[..i], a, b) { SpanOfPrefix(s, i, a, b); }
      }
    }
  }

  /** Every part of the split is one: all spans are found, and nothing else is taken for one. */
  lemma {:induction false} PartsAreParts(s: string)
    ensures forall k :: 0 <= k < |Parts(s)| ==> IsPart(Parts(s)[k])
    decreases |s|
  {
    PieceIsParts(s);
    var p := FirstPiece(s);
    if p.Some? { PartsAreParts(p.value.rest); }
  }

  // ---------------------------------------------------------------- links

  datatype Link = Link(words: string, target: string, length: nat)

  predicate IsWeb(target: string) {
    ("http://" <= target && |target| > 7) || ("https://" <= target && |target| > 8)
  }

  /** The link `[words](target)` that `s` starts with. */
  function BracketsAt(s: string): (r: Option<Link>)
    ensures r.Some? ==> 0 < r.value.length <= |s|
  {
    if s == "" || s[0] != '[' then None
    else
      var close := 1 + IndexOf(s[1..], ']');
      if close == 1 || close + 1 >= |s| || s[close + 1] != '(' then None
      else TargetIn(s[close + 2..], s[1..close], close + 2)
  }

  /** The target that `inside` starts with, up to the first closing parenthesis; `lead` characters came before. */
  function TargetIn(inside: string, words: string, lead: nat): (r: Option<Link>)
    ensures r.Some? ==> 0 < r.value.length <= lead + |inside|
  {
    var end := IndexOf(inside, ')');
    if end == |inside| || end == 0 then None else Some(Link(words, inside[..end], lead + end + 1))
  }

  /** The same, but only a link to the web if `web`. */
  function LinkAt(s: string, web: bool): (r: Option<Link>)
    ensures r.Some? ==> 0 < r.value.length <= |s|
  {
    var l := BracketsAt(s);
    if l.Some? && web && !IsWeb(l.value.target) then None else l
  }

  const HREF := "<link href=\""
  const HREF_END := "\" color=\"#2563eb\">"

  function LinkOpen(target: string): string {
    HREF + target + HREF_END
  }

  function LinkMarkup(l: Link, web: bool): string {
    if web then LinkOpen(l.target) + l.words + "</link>" else l.words
  }

  /** `re.sub` over all links of one kind, leftmost first. */
  function SubLinks(s: string, web: bool): string
    decreases |s|
  {
    if s == "" then ""
    else
      var l := LinkAt(s, web);
      if l.Some? then LinkMarkup(l.value, web) + SubLinks(s[l.value.length..], web)
      else [s[0]] + SubLinks(s[1..], web)
  }

  // ---------------------------------------------------------------- the whole

  function TagText(token: Token): string {
    match token
    case Char(c) => [c]
    case Open(k) => if k == Bold then "<b>" else "<i>"
    case Close(k) => if k == Bold then "</b>" else "</i>"
  }

  /** The tokens as the string the source builds. */
  function Render(tokens: seq<Token>): string {
    if tokens == [] then "" else TagText(tokens[0]) + Render(tokens[1..])
  }

  function ProseMarkup(text: string): string {
    var linked := SubLinks(SubLinks(Esc(text), true), false);
    Replace(Render(Emphasised(linked, [])), "--", "&#8211;")
  }

  const FONT_OPEN := "<font face=\"Courier\">"
  const FONT_CLOSE := "</font>"

  function CodeMarkup(text: string): string {
    FONT_OPEN + Esc(text) + FONT_CLOSE
  }

  function PartMarkup(part: Part): string {
    match part
    case Prose(t) => ProseMarkup(t)
    case Code(t) => CodeMarkup(t)
  }

  function AllMarkup(parts: seq<Part>): string {
    if parts == [] then "" else PartMarkup(parts[0]) + AllMarkup(parts[1..])
  }

  method Inline(text: string) returns (out: string)
    ensures out == AllMarkup(Parts(text))
  {
    out := "";
    var parts := Parts(text);
    for i := 0 to |parts|
      invariant out + AllMarkup(parts[i..]) == AllMarkup(parts)
    {
      Concat(out, PartMarkup(parts[i]), AllMarkup(parts[i + 1..]));
      if parts[i].Code? {
        out := out + CodeMarkup(parts[i].text);
      } else {
        var p := SubLinks(Esc(parts[i].text), true);
        p := SubLinks(p, false);
        var tokens := Emphasise(p);
        out := out + Replace(Render(tokens), "--", "&#8211;");
      }
    }
  }

  // ---------------------------------------------------------------- the reader of the markup

  datatype Tag = B | I | Font | Anchor

  datatype Seen = Seen(tag: Tag, opening: bool, length: nat)

  /** The tag that `s` starts with: one of the six, or a link whose address holds no quote or angle. */
  function TagAt(s: string): (r: Option<Seen>)
    ensures r.Some? ==> 0 < r.value.length <= |s|
  {
    if "</" <= s then ClosingAt(s) else if HREF <= s then AnchorAt(s) else OpeningAt(s)
  }

  function ClosingAt(s: string): (r: Option<Seen>)
    ensures r.Some? ==> 0 < r.value.length <= |s|
  {
    if "</b>" <= s then Some(Seen(B, false, 4))
    else if "</i>" <= s then Some(Seen(I, false, 4))
    else if FONT_CLOSE <= s then Some(Seen(Font, false, |FONT_CLOSE|))
    else if "</link>" <= s then Some(Seen(Anchor, false, 7))
    else None
  }

  function OpeningAt(s: string): (r: Option<Seen>)
    ensures r.Some? ==> 0 < r.value.length <= |s|
  {
    if "<b>" <= s then Some(Seen(B, true, 3))
    else if "<i>" <= s then Some(Seen(I, true, 3))
    else if FONT_OPEN <= s then Some(Seen(Font, true, |FONT_OPEN|))
    else None
  }

  /**
    An opening link tag.  Its address ends at the next quote and, as section 3.1 of XML 1.0 has it
    for attribute values, holds no `<`: a tag written into an address breaks the link's own tag.
   */
  function AnchorAt(s: string): (r: Option<Seen>)
    requires HREF <= s
    ensures r.Some? ==> 0 < r.value.length <= |s|
  {
    var rest := s[|HREF|..];
    var q := IndexOf(rest, '"');
    if '<' !in rest[..q] && HREF_END <= rest[q..] then Some(Seen(Anchor, true, |HREF| + q + |HREF_END|)) else None
  }

  /**
    Reads markup with `open` still open: every `<` must begin a tag, a closing tag must close the
    latest open one.  Returns whether that went well, and what is open at the end.
   */
  function Walk(s: string, open: seq<Tag>): (bool, seq<Tag>)
    decreases |s|
  {
    if s == "" then (true, open)
    else if s[0] != '<' then Walk(s[1..], open)
    else
      var t := TagAt(s);
      if t.None? then (false, open)
      else if t.value.opening then Walk(s[t.value.length..], open + [t.value.tag])
      else if open == [] || open[|open| - 1] != t.value.tag then (false, open)
      else Walk(s[t.value.length..], open[..|open| - 1])
  }

  predicate WellNested(s: string) {
    Walk(s, []) == (true, [])
  }
}
