/** What text `inline` of tools/md-to-pdf.py puts out: the markup of sound prose with its tags taken out again. */
module InlineText {
  import opened Options
  import opened Text
  import opened Escape
  import opened Emphasis
  import opened Inline
  import opened LinkMarks
  import opened LinkCuts
  import opened MarkupReader
  import opened InlineNesting

  /** Markup without its tags. */
  function Shown(s: string): string
    decreases |s|
  {
    if s == "" then ""
    else if s[0] == '<' && TagAt(s).Some? then Shown(s[TagAt(s).value.length..])
    else [s[0]] + Shown(s[1..])
  }

  /**
    The text that marks stand for: all but tags and addresses, each run of asterisks shortened by
    three.  A tag ends a run.
   */
  function TextOfMarks(ms: seq<Mark>): string
    decreases |ms|
  {
    if ms == [] then ""
    else if CharIs(ms[0], '*') then Asterisks(Drop(StarRun(ms))) + TextOfMarks(ms[StarRun(ms)..])
    else
      match ms[0]
      case Plain(c) => [c] + TextOfMarks(ms[1..])
      case Word(c) => [c] + TextOfMarks(ms[1..])
      case _ => TextOfMarks(ms[1..])
  }

  function Asterisks(n: nat): string { seq(n, _ => '*') }

  // ---------------------------------------------------------------- taking tags out

  lemma {:induction false} ShownText(text: string, rest: string)
    requires '<' !in text
    ensures Shown(text + rest) == text + Shown(rest)
  {
    if text == "" {
      assert text + rest == rest;
    } else {
      assert (text + rest)[0] == text[0] && (text + rest)[1..] == text[1..] + rest;
      ShownText(text[1..], rest);
      Concat([text[0]], text[1..], Shown(rest));
      assert [text[0]] + text[1..] == text;
    }
  }

  lemma ShownTag(tag: Tag, opening: bool, s: string, rest: string)
    requires s + rest != "" && (s + rest)[0] == '<' && TagAt(s + rest) == Some(Seen(tag, opening, |s|))
    ensures Shown(s + rest) == Shown(rest)
  {
    Cut(s, rest);
  }

  lemma ShownToken(token: Token, rest: string)
    requires token != Char('<')
    ensures Shown(TagText(token) + rest) == PlainOne(token) + Shown(rest)
  {
    match token
    case Char(c) => ShownText([c], rest);
    case Open(k) =>
      OpeningTag(k, rest);
      ShownTag(TagOf(k), true, TagText(token), rest);
    case Close(k) =>
      ClosingTag(k, rest);
      ShownTag(TagOf(k), false, TagText(token), rest);
  }

  lemma {:induction false} ShownTokens(tokens: seq<Token>, rest: string)
    requires NoAngles(tokens)
    ensures Shown(Render(tokens) + rest) == Emphasis.Plain(tokens) + Shown(rest)
  {
    if tokens == [] {
      assert "" + rest == rest;
    } else {
      Concat(TagText(tokens[0]), Render(tokens[1..]), rest);
      ShownToken(tokens[0], Render(tokens[1..]) + rest);
      ShownTokens(tokens[1..], rest);
      Concat(PlainOne(tokens[0]), Emphasis.Plain(tokens[1..]), Shown(rest));
    }
  }

  lemma ShownEnd(rest: string)
    ensures Shown("</link>" + rest) == Shown(rest)
  {
    var s := "</link>" + rest;
    assert s[0] == '<' && s[1] == '/' && s[2] == 'l';
    assert "</link>" <= s;
    ShownTag(Anchor, false, "</link>", rest);
  }

  /** An opening link tag with a clean address. */
  lemma ShownHead(a: string, b: string, e: string)
    requires e == HREF_END && '"' !in a && '<' !in a
    ensures Shown(HREF + (a + (e + b))) == Shown(b)
  {
    var r := a + (e + b);
    EndHasOneAngle(e);
    Cut(a, e + b);
    Cut(e, b);
    assert r[|a|] == e[0];
    IndexIs(r, '"', |a|);
    AnchorShape(r, e);
    HeadTag(r);
    TagPieces(HREF, a, e, b);
    ShownTag(Anchor, true, HREF + (a + e), b);
  }

  // ---------------------------------------------------------------- what marks show

  /** The markup of the marks shows their text. */
  predicate Shows(ms: seq<Mark>, stack: seq<Kind>, rest: string) {
    Shown(MarkupOf(ms, stack) + rest) == TextOfMarks(ms) + Shown(rest)
  }

  lemma ShowNothing(stack: seq<Kind>, rest: string)
    ensures Shows([], stack, rest)
  {
    CloseAllTags(stack);
    TagsArePlainNothing(CloseAll(stack));
    ShownTokens(CloseAll(stack), rest);
  }

  lemma ShowChar(ms: seq<Mark>, stack: seq<Kind>, rest: string)
    requires ms != [] && (ms[0].Plain? || ms[0].Word?) && !CharIs(ms[0], '*') && Fine(ms[0])
    requires Shows(ms[1..], stack, rest)
    ensures Shows(ms, stack, rest)
  {
    var text := [CharOf(ms[0])];
    assert Flat(ms) == text + Flat(ms[1..]);
    MarkupSkips(ms, text, ms[1..], stack);
    Concat(text, MarkupOf(ms[1..], stack), rest);
    ShownText(text, MarkupOf(ms[1..], stack) + rest);
    Concat(text, TextOfMarks(ms[1..]), Shown(rest));
  }

  lemma {:induction false} RenderStars(n: nat)
    ensures Render(Stars(n)) == Asterisks(n)
  {
    if n > 0 {
      assert Stars(n)[1..] == Stars(n - 1);
      RenderStars(n - 1);
      assert Asterisks(n) == ['*'] + Asterisks(n - 1);
    }
  }

  lemma ShownTurn(stack: seq<Kind>, run: nat, more: string)
    ensures Shown(Render(Turn(stack, run).0) + more) == Shown(more)
  {
    PopToTags(stack, if run == 2 then Bold else Italic);
    TagsArePlainNothing(Turn(stack, run).0);
    ShownTokens(Turn(stack, run).0, more);
  }

  lemma ShowStars(ms: seq<Mark>, stack: seq<Kind>, rest: string)
    requires ms != [] && CharIs(ms[0], '*') && Shows(ms[StarRun(ms)..], Turn(stack, StarRun(ms)).1, rest)
    ensures Shows(ms, stack, rest)
  {
    var n := StarRun(ms);
    var r := Turn(stack, n);
    var more, stars := MarkupOf(ms[n..], r.1) + rest, Render(Stars(Drop(n)));
    MarkupStars(ms, stack, rest);
    ShownTurn(stack, n, stars + more);
    RenderStars(Drop(n));
    ShownText(stars, more);
    Concat(stars, TextOfMarks(ms[n..]), Shown(rest));
  }

  lemma ShowEnd(ms: seq<Mark>, stack: seq<Kind>, rest: string)
    requires ms != [] && ms[0].End? && Shows(ms[1..], stack, rest)
    ensures Shows(ms, stack, rest)
  {
    EndSaysNothing(ms);
    MarkupSkips(ms, "</link>", ms[1..], stack);
    Concat("</link>", MarkupOf(ms[1..], stack), rest);
    ShownEnd(MarkupOf(ms[1..], stack) + rest);
  }

  lemma EndSaysNothing(ms: seq<Mark>)
    requires ms != [] && ms[0].End?
    ensures TextOfMarks(ms) == TextOfMarks(ms[1..]) && Flat(ms) == "</link>" + Flat(ms[1..])
  {
  }

  lemma {:induction false} AddrsShowNothing(a: string, after: seq<Mark>)
    requires '*' !in a
    ensures TextOfMarks(Addrs(a) + after) == TextOfMarks(after)
  {
    if a == "" {
      assert Addrs(a) + after == after;
    } else {
      var ms := Addrs(a) + after;
      assert ms[0] == Addr(a[0]) && ms[1..] == Addrs(a[1..]) + after;
      AddrsShowNothing(a[1..], after);
    }
  }

  lemma ShowHead(ms: seq<Mark>, a: string, after: seq<Mark>, stack: seq<Kind>, rest: string)
    requires ms == [Head] + (Addrs(a) + after) && after != [] && after[0].Tail?
    requires '"' !in a && '*' !in a && '<' !in a && Shows(after[1..], stack, rest)
    ensures Shows(ms, stack, rest)
  {
    MarkupHead(ms, a, after, stack, rest, HREF_END);
    ShownHead(a, MarkupOf(after[1..], stack) + rest, HREF_END);
    assert ms[1..] == Addrs(a) + after;
    AddrsShowNothing(a, after);
  }

  lemma {:induction false} MarksShow(ms: seq<Mark>, p: Place, stack: seq<Kind>, rest: string)
    requires AllFine(ms) && Whole(ms, p) && CleanAddrs(ms) && (p.Out? || p.InWords?)
    ensures Shows(ms, stack, rest)
    decreases |ms|
  {
    if ms == [] {
      ShowNothing(stack, rest);
    } else if CharIs(ms[0], '*') {
      var n := StarRun(ms);
      var q := StarsWhole(ms, p, n);
      MarksShow(ms[n..], q, Turn(stack, n).1, rest);
      ShowStars(ms, stack, rest);
    } else if ms[0].End? {
      CleanRest(ms);
      MarksShow(ms[1..], Out, stack, rest);
      ShowEnd(ms, stack, rest);
    } else if ms[0].Head? {
      var a, after := HeadParts(ms);
      FineAfter(ms, a, after);
      WholeHead(ms, a, after);
      CleanHead(ms, a, after);
      MarksShow(after[1..], InWords, stack, rest);
      ShowHead(ms, a, after, stack, rest);
    } else {
      CleanRest(ms);
      MarksShow(ms[1..], p, stack, rest);
      ShowChar(ms, stack, rest);
    }
  }

  lemma {:induction false} StarsWhole(ms: seq<Mark>, p: Place, n: nat) returns (q: Place)
    requires n <= |ms| && (forall i :: 0 <= i < n ==> CharIs(ms[i], '*')) && Whole(ms, p) && (p.Out? || p.InWords?)
    ensures q == p && Whole(ms[n..], q) && (CleanAddrs(ms) ==> CleanAddrs(ms[n..]))
    decreases n
  {
    q := p;
    if n == 0 {
      assert ms[0..] == ms;
    } else {
      CleanRest(ms);
      q := StarsWhole(ms[1..], p, n - 1);
      assert ms[1..][n - 1..] == ms[n..];
    }
  }

  lemma CleanHead(ms: seq<Mark>, a: string, after: seq<Mark>)
    requires ms == [Head] + (Addrs(a) + after) && CleanAddrs(ms) && (after != [] ==> !after[0].Addr?)
    ensures '"' !in a && '*' !in a && (after != [] ==> CleanAddrs(after[1..]))
  {
    AddrsAre(a);
    CleanSplit([Head], Addrs(a) + after);
    CleanSplit(Addrs(a), after);
    if after != [] { CleanRest(after); }
  }

  // ---------------------------------------------------------------- the theorem

  /** The prose with its links and emphasis as tags; double hyphens are still to become dashes. */
  function TaggedProse(text: string): string {
    Render(Emphasised(SubLinks(SubLinks(Esc(text), true), false), []))
  }

  /** Without its tags, the markup of sound prose is the text of the marks left by the two substitutions. */
  lemma SoundShows(text: string)
    requires Sound(text)
    ensures ProseMarkup(text) == Dashed(TaggedProse(text))
    ensures Shown(TaggedProse(text)) == TextOfMarks(SubMarks(Marked(Esc(text))))
  {
    var ms := SubMarks(Marked(Esc(text)));
    ProseMarks(text);
    MarkedIsLinked(Esc(text));
    SubMarksAreLinks(Marked(Esc(text)));
    MarksShow(ms, Out, [], "");
    assert MarkupOf(ms, []) + "" == TaggedProse(text);
    assert TextOfMarks(ms) + Shown("") == TextOfMarks(ms);
  }

  // ---------------------------------------------------------------- text without web links

  lemma {:induction false} PlainText(s: string)
    ensures TextOfMarks(Plains(s)) == Thinned(s)
    decreases |s|
  {
    if s != "" {
      assert Plains(s)[1..] == Plains(s[1..]);
      if s[0] == '*' {
        PlainRun(s);
        assert Plains(s)[Run(s)..] == Plains(s[Run(s)..]);
        PlainText(s[Run(s)..]);
      } else {
        PlainText(s[1..]);
      }
    }
  }

  lemma {:induction false} PlainRun(s: string)
    ensures StarRun(Plains(s)) == Run(s)
  {
    if s != "" {
      assert Plains(s)[1..] == Plains(s[1..]);
      PlainRun(s[1..]);
    }
  }

  lemma {:induction false} AllPlainIs(ms: seq<Mark>)
    requires AllPlain(ms)
    ensures ms == Plains(Flat(ms))
  {
    if ms != [] {
      AllPlainIs(ms[1..]);
      assert Flat(ms) == [ms[0].c] + Flat(ms[1..]);
      assert Plains(Flat(ms)) == [ms[0]] + Plains(Flat(ms[1..]));
    }
  }

  /** Without web links: the text with other links replaced by their words, runs of asterisks shortened by three. */
  lemma NoWebLinkShows(text: string)
    requires NoWebLink(Esc(text))
    ensures Shown(TaggedProse(text)) == Thinned(SubLinks(Esc(text), false))
  {
    var marked := Marked(Esc(text));
    NoWebLinkIsSound(text);
    SoundShows(text);
    NothingMarked(Esc(text));
    PlainStays(marked);
    AllPlainIs(SubMarks(marked));
    SubMarksAreLinks(marked);
    MarkedIsLinked(Esc(text));
    NothingLinked(Esc(text));
    PlainText(Flat(SubMarks(marked)));
  }

  lemma {:induction false} NothingLinked(s: string)
    requires NoWebLink(s)
    ensures SubLinks(s, true) == s
  {
    if s != "" {
      NoWebLinkTail(s);
      NothingLinked(s[1..]);
      assert s == [s[0]] + s[1..];
    }
  }

  lemma NoWebLinkTail(s: string)
    requires NoWebLink(s) && s != ""
    ensures LinkAt(s, true).None? && NoWebLink(s[1..])
  {
    assert s[0..] == s;
    forall i | 0 <= i < |s[1..]| ensures LinkAt(s[1..][i..], true).None? { assert s[1..][i..] == s[i + 1..]; }
  }

  lemma {:induction false} ThinnedEsc(t: string)
    ensures Thinned(EscEach(t)) == EscEach(Thinned(t))
    decreases |t|
  {
    if t != "" {
      if t[0] == '*' {
        var n := Run(t);
        EscRun(t, n);
        ThinnedEsc(t[n..]);
        EscAsterisks(Drop(n), Thinned(t[n..]));
      } else {
        ThinnedEsc(t[1..]);
        ThinnedPasses(EscChar(t[0]), EscEach(t[1..]));
        assert ([t[0]] + Thinned(t[1..]))[1..] == Thinned(t[1..]);
      }
    }
  }

  lemma {:induction false} ThinnedPasses(a: string, rest: string)
    requires '*' !in a
    ensures Thinned(a + rest) == a + Thinned(rest)
  {
    if a == "" {
      assert a + rest == rest;
    } else {
      assert (a + rest)[0] == a[0] && (a + rest)[1..] == a[1..] + rest;
      ThinnedPasses(a[1..], rest);
      Concat([a[0]], a[1..], Thinned(rest));
      assert [a[0]] + a[1..] == a;
    }
  }

  /** Escaping keeps a run of asterisks. */
  lemma {:induction false} EscRun(t: string, n: nat)
    requires n == Run(t)
    ensures Run(EscEach(t)) == n && n <= |EscEach(t)| && EscEach(t)[n..] == EscEach(t[n..])
    ensures n > 0 ==> EscEach(t) != "" && EscEach(t)[0] == '*'
  {
    if n > 0 {
      EscRun(t[1..], n - 1);
      RunSteps(EscEach(t), EscEach(t[1..]), n);
      assert t[n..] == t[1..][n - 1..];
    } else {
      EscStarts(t);
    }
  }

  lemma RunSteps(s: string, rest: string, n: nat)
    requires s == ['*'] + rest && n > 0 && n == 1 + Run(rest)
    ensures Run(s) == n && n <= |s| && s[n..] == rest[n - 1..] && s != "" && s[0] == '*'
  {
    assert s[1..] == rest;
  }

  lemma EscStarts(t: string)
    requires t == "" || t[0] != '*'
    ensures Run(EscEach(t)) == 0
  {
    if t != "" { assert EscEach(t)[0] == EscChar(t[0])[0] != '*'; }
  }

  lemma {:induction false} EscAsterisks(n: nat, rest: string)
    ensures EscEach(Asterisks(n) + rest) == Asterisks(n) + EscEach(rest)
  {
    if n == 0 {
      assert Asterisks(0) + rest == rest;
    } else {
      var s := Asterisks(n) + rest;
      assert s[0] == '*' && s[1..] == Asterisks(n - 1) + rest;
      EscAsterisks(n - 1, rest);
      assert Asterisks(n) == ['*'] + Asterisks(n - 1);
    }
  }

  lemma {:induction false} NoBracketNoLink(s: string, web: bool)
    requires '[' !in s
    ensures SubLinks(s, web) == s && NoWebLink(s)
  {
    SubLinksSkips(s, "", web);
    assert s + "" == s;
    forall i | 0 <= i < |s| ensures LinkAt(s[i..], true).None? { assert s[i..][0] == s[i]; }
  }

  lemma {:induction false} EscHasNoBracket(t: string)
    requires '[' !in t
    ensures '[' !in EscEach(t)
  {
    if t != "" { EscHasNoBracket(t[1..]); }
  }

  /** Prose without brackets comes out as it was, but for the asterisks: tags taken out and entities resolved. */
  lemma PlainProseShows(text: string)
    requires '[' !in text
    ensures Unescape(Shown(TaggedProse(text))) == Thinned(text)
  {
    EscIsEscEach(text);
    EscHasNoBracket(text);
    NoBracketNoLink(Esc(text), false);
    NoWebLinkShows(text);
    ThinnedEsc(text);
    UnescapeEach(Thinned(text));
  }
}
