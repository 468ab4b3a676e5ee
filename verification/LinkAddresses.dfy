/**
  Where the links in the output of `inline` in tools/md-to-pdf.py lead: the addresses a reader of
  the markup collects from its opening link tags.
 */
module LinkAddresses {
  import opened Options
  import opened Text
  import opened Escape
  import opened Emphasis
  import opened Inline
  import opened LinkMarks
  import opened LinkCuts
  import opened MarkupReader
  import opened InlineNesting
  import opened InlineText

  /** The addresses in the opening link tags of markup, in order. */
  function Hrefs(s: string): seq<string>
    decreases |s|
  {
    if s == "" then []
    else if s[0] == '<' && TagAt(s).Some? then
      (if HREF <= s then [AddressAt(s[|HREF|..])] else []) + Hrefs(s[TagAt(s).value.length..])
    else Hrefs(s[1..])
  }

  /** Up to the next quote. */
  function AddressAt(r: string): string { r[..IndexOf(r, '"')] }

  /** The addresses of links kept as marks. */
  function Addresses(ms: seq<Mark>): seq<string> {
    if ms == [] then []
    else if ms[0].Head? then [AddrOf(ms[1..][..AddrRun(ms[1..])])] + Addresses(ms[1..])
    else Addresses(ms[1..])
  }

  // ---------------------------------------------------------------- reading addresses

  lemma {:induction false} HrefsText(text: string, rest: string)
    requires '<' !in text
    ensures Hrefs(text + rest) == Hrefs(rest)
  {
    if text == "" {
      assert text + rest == rest;
    } else {
      assert (text + rest)[0] == text[0] && (text + rest)[1..] == text[1..] + rest;
      HrefsText(text[1..], rest);
    }
  }

  /** A tag that opens no link. */
  lemma HrefsTag(tag: Tag, opening: bool, s: string, rest: string)
    requires s + rest != "" && (s + rest)[0] == '<' && TagAt(s + rest) == Some(Seen(tag, opening, |s|))
    requires !(HREF <= s + rest)
    ensures Hrefs(s + rest) == Hrefs(rest)
  {
    Cut(s, rest);
    assert [] + Hrefs(rest) == Hrefs(rest);
  }

  /** What does not go on like a link's opening tag is none. */
  lemma NoLinkTag(s: string, k: nat)
    requires k < |s| && k < 3 && s[k] != "<li"[k]
    ensures !(HREF <= s)
  {
    assert HREF[0] == '<' && HREF[1] == 'l' && HREF[2] == 'i';
  }

  lemma HrefsToken(token: Token, rest: string)
    requires token != Char('<')
    ensures Hrefs(TagText(token) + rest) == Hrefs(rest)
  {
    match token
    case Char(c) => HrefsText([c], rest);
    case Open(k) =>
      OpeningTag(k, rest);
      Cut(TagText(token), rest);
      NoLinkTag(TagText(token) + rest, if k == Bold then 1 else 2);
      HrefsTag(TagOf(k), true, TagText(token), rest);
    case Close(k) =>
      ClosingTag(k, rest);
      Cut(TagText(token), rest);
      NoLinkTag(TagText(token) + rest, 1);
      HrefsTag(TagOf(k), false, TagText(token), rest);
  }

  lemma {:induction false} HrefsTokens(tokens: seq<Token>, rest: string)
    requires NoAngles(tokens)
    ensures Hrefs(Render(tokens) + rest) == Hrefs(rest)
  {
    if tokens == [] {
      assert "" + rest == rest;
    } else {
      Concat(TagText(tokens[0]), Render(tokens[1..]), rest);
      HrefsToken(tokens[0], Render(tokens[1..]) + rest);
      HrefsTokens(tokens[1..], rest);
    }
  }

  lemma HrefsEnd(rest: string)
    ensures Hrefs("</link>" + rest) == Hrefs(rest)
  {
    var s := "</link>" + rest;
    assert s[0] == '<' && s[1] == '/' && s[2] == 'l';
    assert "</link>" <= s;
    NoLinkTag(s, 1);
    HrefsTag(Anchor, false, "</link>", rest);
  }

  lemma HeadSeen(a: string, b: string, e: string, r: string)
    requires e == HREF_END && '"' !in a && '<' !in a && r == a + (e + b)
    ensures IndexOf(r, '"') == |a| && HREF + r != "" && (HREF + r)[0] == '<'
    ensures TagAt(HREF + r) == Some(Seen(Anchor, true, |HREF| + |a| + |e|))
  {
    EndHasOneAngle(e);
    Cut(a, e + b);
    Cut(e, b);
    assert r[|a|] == e[0];
    IndexIs(r, '"', |a|);
    AnchorShape(r, e);
    HeadTag(r);
  }

  /** An opening link tag with a clean address. */
  lemma HrefsHead(a: string, b: string, e: string)
    requires e == HREF_END && '"' !in a && '<' !in a
    ensures Hrefs(HREF + (a + (e + b))) == [a] + Hrefs(b)
  {
    HeadSeen(a, b, e, a + (e + b));
    HeadRest(HREF, a, e, b, a + (e + b));
  }

  lemma HeadRest(h: string, a: string, e: string, b: string, r: string)
    requires r == a + (e + b) && h == HREF && HREF + r != "" && (HREF + r)[0] == '<' && IndexOf(r, '"') == |a|
    requires TagAt(HREF + r) == Some(Seen(Anchor, true, |h| + |a| + |e|))
    ensures Hrefs(HREF + r) == [a] + Hrefs(b)
  {
    Cut(h, r);
    Cut(a, e + b);
    TagPieces(h, a, e, b);
    Cut(h + (a + e), b);
  }

  // ---------------------------------------------------------------- dashes

  /** Whether a hyphen stands before it makes no difference. */
  lemma {:induction false} HyphenHoldsNothing(t: string, rest: string)
    ensures Hrefs(Dashed("-" + t) + rest) == Hrefs(Dashed(t) + rest)
    decreases |t|
  {
    var s := "-" + t;
    DashedStep(s);
    if t != "" && t[0] == '-' {
      assert s[2..] == t[1..] && "--" <= s && t == "-" + t[1..];
      Concat(DASH, Dashed(t[1..]), rest);
      HrefsText(DASH, Dashed(t[1..]) + rest);
      HyphenHoldsNothing(t[1..], rest);
    } else {
      assert s[1..] == t && !("--" <= s);
      Concat("-", Dashed(t), rest);
      HrefsText("-", Dashed(t) + rest);
    }
  }

  lemma CharHoldsNothing(c: char, t: string, rest: string)
    requires c != '<'
    ensures Hrefs(Dashed([c] + t) + rest) == Hrefs(Dashed(t) + rest)
  {
    if c == '-' {
      HyphenHoldsNothing(t, rest);
    } else {
      DashedPasses([c], t);
      Concat([c], Dashed(t), rest);
      HrefsText([c], Dashed(t) + rest);
    }
  }

  lemma DashedPasses(a: string, b: string)
    requires '-' !in a
    ensures Dashed(a + b) == a + Dashed(b)
  {
    ReplacePasses(a, b, "--", DASH);
  }

  lemma {:induction false} TagsHoldNoHyphen(tokens: seq<Token>)
    requires forall i :: 0 <= i < |tokens| ==> tokens[i] != Char('-')
    ensures '-' !in Render(tokens)
  {
    if tokens != [] {
      OneHoldsNoHyphen(tokens[0]);
      TagsHoldNoHyphen(tokens[1..]);
    }
  }

  lemma OneHoldsNoHyphen(token: Token)
    requires token != Char('-')
    ensures '-' !in TagText(token)
  {
  }

  // ---------------------------------------------------------------- the addresses of marks

  /** A reader of the markup, its dashes set, collects the addresses of the marks, their dashes set. */
  predicate Collects(ms: seq<Mark>, stack: seq<Kind>, rest: string) {
    Hrefs(Dashed(MarkupOf(ms, stack)) + rest) == Mapped(Dashed, Addresses(ms)) + Hrefs(rest)
  }

  lemma CollectNothing(stack: seq<Kind>, rest: string)
    ensures Collects([], stack, rest)
  {
    var tags := CloseAll(stack);
    CloseAllTags(stack);
    TagsHoldNoHyphen(tags);
    NothingDashed(Render(tags));
    HrefsTokens(tags, rest);
    assert Mapped(Dashed, Addresses([])) + Hrefs(rest) == Hrefs(rest);
  }

  lemma NothingDashed(s: string)
    requires '-' !in s
    ensures Dashed(s) == s
  {
    DashedPasses(s, "");
    assert s + "" == s;
  }

  lemma CollectChar(ms: seq<Mark>, stack: seq<Kind>, rest: string)
    requires ms != [] && (ms[0].Plain? || ms[0].Word?) && !CharIs(ms[0], '*') && Fine(ms[0])
    requires Collects(ms[1..], stack, rest)
    ensures Collects(ms, stack, rest)
  {
    var text := [CharOf(ms[0])];
    assert Flat(ms) == text + Flat(ms[1..]);
    MarkupSkips(ms, text, ms[1..], stack);
    CharHoldsNothing(text[0], MarkupOf(ms[1..], stack), rest);
  }

  lemma {:induction false} AddressesPast(ms: seq<Mark>, n: nat)
    requires n <= |ms| && forall i :: 0 <= i < n ==> !ms[i].Head?
    ensures Addresses(ms) == Addresses(ms[n..])
    decreases n
  {
    if n == 0 {
      assert ms[0..] == ms;
    } else {
      AddressesPast(ms[1..], n - 1);
      assert ms[1..][n - 1..] == ms[n..];
    }
  }

  lemma CollectStars(ms: seq<Mark>, stack: seq<Kind>, rest: string)
    requires ms != [] && CharIs(ms[0], '*') && Collects(ms[StarRun(ms)..], Turn(stack, StarRun(ms)).1, rest)
    ensures Collects(ms, stack, rest)
  {
    var n := StarRun(ms);
    var r := Turn(stack, n);
    var tags, stars, more := Render(r.0), Render(Stars(Drop(n))), MarkupOf(ms[n..], r.1);
    MarkupStars(ms, stack, "");
    TurnTags(stack, n);
    TagsHoldNoHyphen(r.0);
    TagsHoldNoHyphen(Stars(Drop(n)));
    NothingAfter(MarkupOf(ms, stack), tags, stars, more);
    DashedPasses(tags, stars + more);
    DashedPasses(stars, more);
    Regrouped(tags, stars, Dashed(more), rest);
    HrefsTokens(r.0, stars + (Dashed(more) + rest));
    HrefsTokens(Stars(Drop(n)), Dashed(more) + rest);
    AddressesPast(ms, n);
  }

  lemma NothingAfter(whole: string, a: string, b: string, c: string)
    requires whole + "" == a + (b + (c + ""))
    ensures whole == a + (b + c)
  {
    assert whole + "" == whole && c + "" == c;
  }

  lemma TurnTags(stack: seq<Kind>, run: nat)
    ensures OnlyTags(Turn(stack, run).0)
  {
    PopToTags(stack, if run == 2 then Bold else Italic);
  }

  lemma CollectEnd(ms: seq<Mark>, stack: seq<Kind>, rest: string)
    requires ms != [] && ms[0].End? && Collects(ms[1..], stack, rest)
    ensures Collects(ms, stack, rest)
  {
    EndSaysNothing(ms);
    MarkupSkips(ms, "</link>", ms[1..], stack);
    DashedPasses("</link>", MarkupOf(ms[1..], stack));
    Concat("</link>", Dashed(MarkupOf(ms[1..], stack)), rest);
    HrefsEnd(Dashed(MarkupOf(ms[1..], stack)) + rest);
  }

  lemma AddressesHead(ms: seq<Mark>, a: string, after: seq<Mark>)
    requires ms == [Head] + (Addrs(a) + after) && after != [] && after[0].Tail?
    ensures Addresses(ms) == [a] + Addresses(after[1..])
  {
    var t := Addrs(a) + after;
    assert ms[1..] == t;
    AddrRunIs(t, |a|);
    assert t[..|a|] == Addrs(a) && AddrOf(Addrs(a)) == a;
    AddressesPast(t, |a| + 1);
    assert t[|a| + 1..] == after[1..];
  }

  lemma {:induction false} AddrRunIs(t: seq<Mark>, n: nat)
    requires n < |t| && !t[n].Addr? && forall i :: 0 <= i < n ==> t[i].Addr?
    ensures AddrRun(t) == n
  {
    if n > 0 { AddrRunIs(t[1..], n - 1); }
  }

  lemma DashedHead(h: string, a: string, e: string, b: string)
    requires h == HREF && e == HREF_END
    ensures Dashed(h + (a + (e + b))) == h + (Dashed(a) + (e + Dashed(b)))
  {
    EndHasOneAngle(e);
    HeadHolds(h);
    EndHolds(e);
    DashedPasses(h, a + (e + b));
    assert (e + b)[0] == '"';
    DashedAppend(a, e + b);
    DashedPasses(e, b);
  }

  lemma CollectHead(ms: seq<Mark>, a: string, after: seq<Mark>, stack: seq<Kind>, rest: string, e: string)
    requires ms == [Head] + (Addrs(a) + after) && after != [] && after[0].Tail? && e == HREF_END
    requires '"' !in a && '*' !in a && '<' !in a && Collects(after[1..], stack, rest)
    ensures Collects(ms, stack, rest)
  {
    var more := MarkupOf(after[1..], stack);
    MarkupHead(ms, a, after, stack, "", e);
    HeadNothing(MarkupOf(ms, stack), HREF, a, e, more);
    DashedHead(HREF, a, e, more);
    DashedHolds(a, '"');
    DashedHolds(a, '<');
    HeadPieces(HREF, Dashed(a), e, Dashed(more), rest);
    HrefsHead(Dashed(a), Dashed(more) + rest, e);
    AddressesHead(ms, a, after);
    OneMore(Addresses(ms), a, Addresses(after[1..]), Hrefs(rest));
  }

  lemma HeadNothing(whole: string, h: string, a: string, e: string, b: string)
    requires whole + "" == h + (a + (e + (b + "")))
    ensures whole == h + (a + (e + b))
  {
    assert whole + "" == whole && b + "" == b;
  }

  lemma OneMore(all: seq<string>, a: string, more: seq<string>, hrefs: seq<string>)
    requires all == [a] + more
    ensures Mapped(Dashed, all) + hrefs == [Dashed(a)] + (Mapped(Dashed, more) + hrefs)
  {
  }

  lemma {:induction false} MarksCollect(ms: seq<Mark>, p: Place, stack: seq<Kind>, rest: string)
    requires AllFine(ms) && Whole(ms, p) && CleanAddrs(ms) && (p.Out? || p.InWords?)
    ensures Collects(ms, stack, rest)
    decreases |ms|
  {
    if ms == [] {
      CollectNothing(stack, rest);
    } else if CharIs(ms[0], '*') {
      var n := StarRun(ms);
      var q := StarsWhole(ms, p, n);
      MarksCollect(ms[n..], q, Turn(stack, n).1, rest);
      CollectStars(ms, stack, rest);
    } else if ms[0].End? {
      CleanRest(ms);
      MarksCollect(ms[1..], Out, stack, rest);
      CollectEnd(ms, stack, rest);
    } else if ms[0].Head? {
      var a, after := HeadParts(ms);
      FineAfter(ms, a, after);
      WholeHead(ms, a, after);
      CleanHead(ms, a, after);
      MarksCollect(after[1..], InWords, stack, rest);
      CollectHead(ms, a, after, stack, rest, HREF_END);
    } else {
      CleanRest(ms);
      MarksCollect(ms[1..], p, stack, rest);
      CollectChar(ms, stack, rest);
    }
  }

  // ---------------------------------------------------------------- schemes

  predicate IsScheme(a: string) { a == "http://" || a == "https://" }

  /** After every link's beginning the address starts with a scheme. */
  ghost predicate Schemed(ms: seq<Mark>) { forall i :: 0 <= i < |ms| && ms[i].Head? ==> SchemeAt(ms[i + 1..]) }

  ghost predicate SchemeAt(ms: seq<Mark>) { exists a :: IsScheme(a) && Addrs(a) <= ms }

  lemma SchemeWeb(target: string, rest: seq<Mark>)
    requires IsWeb(target)
    ensures SchemeAt(Addrs(target) + rest)
  {
    SchemeHere(if "http://" <= target then "http://" else "https://", target, rest);
  }

  lemma SchemeHere(scheme: string, target: string, rest: seq<Mark>)
    requires IsScheme(scheme) && scheme <= target
    ensures SchemeAt(Addrs(target) + rest)
  {
    var ms := Addrs(target) + rest;
    forall i | 0 <= i < |scheme| ensures ms[i] == Addrs(scheme)[i] { assert ms[i] == Addrs(target)[i]; }
    assert ms[..|scheme|] == Addrs(scheme);
  }

  lemma SchemedAppend(a: seq<Mark>, b: seq<Mark>)
    requires Schemed(a) && Schemed(b)
    ensures Schemed(a + b)
  {
    forall i | 0 <= i < |a + b| && (a + b)[i].Head? ensures SchemeAt((a + b)[i + 1..]) {
      if i < |a| {
        var scheme :| IsScheme(scheme) && Addrs(scheme) <= a[i + 1..];
        assert (a + b)[i + 1..] == a[i + 1..] + b;
        assert Addrs(scheme) <= (a + b)[i + 1..];
      } else {
        assert (a + b)[i + 1..] == b[i - |a| + 1..];
      }
    }
  }

  lemma LinkSchemed(l: Link)
    requires IsWeb(l.target)
    ensures Schemed(LinkOf(l))
  {
    var ms, more := LinkOf(l), [Tail] + Words(l.words) + [End];
    assert ms == [Head] + (Addrs(l.target) + more);
    assert ms[1..] == Addrs(l.target) + more;
    SchemeWeb(l.target, more);
    OnlyFirst(ms, l);
  }

  lemma OnlyFirst(ms: seq<Mark>, l: Link)
    requires ms == LinkOf(l)
    ensures forall i :: 0 < i < |ms| ==> !ms[i].Head?
  {
    forall i | 0 < i < |ms| ensures !ms[i].Head? {
      if i <= |l.target| { assert ms[i] == Addrs(l.target)[i - 1]; }
      if |l.target| + 1 < i < |ms| - 1 { assert ms[i] == Words(l.words)[i - |l.target| - 2]; }
    }
  }

  lemma {:induction false} MarkedSchemed(s: string)
    ensures Schemed(Marked(s))
    decreases |s|
  {
    if s != "" {
      var l := LinkAt(s, true);
      if l.Some? {
        MarkedSchemed(s[l.value.length..]);
        LinkSchemed(l.value);
        SchemedAppend(LinkOf(l.value), Marked(s[l.value.length..]));
      } else {
        MarkedSchemed(s[1..]);
        SchemedAppend([Plain(s[0])], Marked(s[1..]));
      }
    }
  }

  /** What has no bracket is not touched by the second substitution. */
  lemma {:induction false} PrefixStays(a: string, t: seq<Mark>)
    requires '[' !in a && Addrs(a) <= t
    ensures Addrs(a) <= SubMarks(t)
    decreases |a|
  {
    if a != "" {
      assert t[0] == Addr(a[0]) && Addrs(a)[1..] == Addrs(a[1..]);
      assert Addrs(a[1..]) <= t[1..];
      PrefixStays(a[1..], t[1..]);
      assert SubMarks(t) == [t[0]] + SubMarks(t[1..]);
      assert Addrs(a) == [t[0]] + Addrs(a[1..]);
    }
  }

  lemma SchemedSuffix(ms: seq<Mark>, n: nat)
    requires n <= |ms| && Schemed(ms)
    ensures Schemed(ms[n..])
  {
    forall i | 0 <= i < |ms[n..]| && ms[n..][i].Head? ensures SchemeAt(ms[n..][i + 1..]) {
      assert ms[n..][i + 1..] == ms[n + i + 1..] && ms[n + i].Head?;
    }
  }

  /** A bracket ends no scheme, so what stands before one keeps its schemes. */
  lemma SchemedInside(ms: seq<Mark>, close: nat)
    requires 0 < close < |ms| && Schemed(ms) && CharIs(ms[close], ']')
    ensures Schemed(ms[1..close])
  {
    var inside := ms[1..close];
    forall i | 0 <= i < |inside| && inside[i].Head? ensures SchemeAt(inside[i + 1..]) {
      assert ms[i + 1].Head?;
      var scheme :| IsScheme(scheme) && Addrs(scheme) <= ms[i + 2..];
      SchemeBefore(ms, i + 2, close, scheme);
      assert inside[i + 1..] == ms[i + 2..close];
    }
  }

  lemma SchemeBefore(ms: seq<Mark>, from: nat, close: nat, scheme: string)
    requires from <= close < |ms| && IsScheme(scheme) && Addrs(scheme) <= ms[from..] && CharIs(ms[close], ']')
    ensures Addrs(scheme) <= ms[from..close]
  {
    var n := |scheme|;
    assert ']' !in scheme;
    forall i | from <= i < from + n ensures !CharIs(ms[i], ']') {
      assert ms[i] == ms[from..][i - from] == Addrs(scheme)[i - from] == Addr(scheme[i - from]);
    }
    assert ms[from..][..n] == Addrs(scheme);
    assert ms[from..close][..n] == ms[from..][..n];
  }

  lemma {:induction false} SubSchemed(ms: seq<Mark>)
    requires Schemed(ms)
    ensures Schemed(SubMarks(ms))
    decreases |ms|
  {
    if ms != [] {
      var x := MatchAt(ms);
      if x.Some? {
        SchemedInside(ms, x.value.close);
        SchemedSuffix(ms, x.value.length);
        SubSchemed(ms[x.value.length..]);
        SchemedAppend(ms[1..x.value.close], SubMarks(ms[x.value.length..]));
      } else {
        SchemedSuffix(ms, 1);
        SubSchemed(ms[1..]);
        FirstSchemed(ms, SubMarks(ms[1..]));
      }
    }
  }

  lemma FirstSchemed(ms: seq<Mark>, sub: seq<Mark>)
    requires ms != [] && Schemed(ms) && sub == SubMarks(ms[1..]) && Schemed(sub)
    ensures Schemed([ms[0]] + sub)
  {
    if ms[0].Head? {
      HeadKeepsScheme(ms[1..], sub);
      OneSchemed(ms[0], sub);
    } else {
      assert Schemed([ms[0]]);
      SchemedAppend([ms[0]], sub);
    }
  }

  lemma HeadKeepsScheme(t: seq<Mark>, sub: seq<Mark>)
    requires SchemeAt(t) && sub == SubMarks(t)
    ensures SchemeAt(sub)
  {
    var scheme :| IsScheme(scheme) && Addrs(scheme) <= t;
    SchemeHasNoBracket(scheme);
    PrefixStays(scheme, t);
  }

  lemma SchemeHasNoBracket(scheme: string)
    requires IsScheme(scheme)
    ensures '[' !in scheme && ']' !in scheme
  {
  }

  lemma OneSchemed(m: Mark, sub: seq<Mark>)
    requires Schemed(sub) && SchemeAt(sub)
    ensures Schemed([m] + sub)
  {
    var ms := [m] + sub;
    forall i | 0 <= i < |ms| && ms[i].Head? ensures SchemeAt(ms[i + 1..]) {
      if i > 0 { assert ms[i] == sub[i - 1] && ms[i + 1..] == sub[i..]; } else { assert ms[1..] == sub; }
    }
  }

  predicate HasScheme(address: string) { "http://" <= address || "https://" <= address }

  lemma {:induction false} AddressesHaveSchemes(ms: seq<Mark>)
    requires Schemed(ms)
    ensures forall k :: 0 <= k < |Addresses(ms)| ==> HasScheme(Addresses(ms)[k])
  {
    if ms != [] {
      SchemedSuffix(ms, 1);
      AddressesHaveSchemes(ms[1..]);
      if ms[0].Head? {
        var run := AddrRun(ms[1..]);
        var scheme :| IsScheme(scheme) && Addrs(scheme) <= ms[1..];
        RunHolds(ms[1..], scheme);
      }
    }
  }

  lemma RunHolds(ms: seq<Mark>, scheme: string)
    requires IsScheme(scheme) && Addrs(scheme) <= ms
    ensures scheme <= AddrOf(ms[..AddrRun(ms)])
  {
    var n, run := |scheme|, AddrRun(ms);
    forall i | 0 <= i < n ensures ms[i].Addr? { assert ms[i] == Addrs(scheme)[i]; }
    var a := AddrOf(ms[..run]);
    forall i | 0 <= i < n ensures a[i] == scheme[i] { assert ms[i] == Addrs(scheme)[i] == Addr(scheme[i]); }
    assert a[..n] == scheme;
  }

  // ---------------------------------------------------------------- the theorem

  /** The addresses that the substitutions leave in a stretch of prose. */
  function ProseAddresses(text: string): seq<string> { Addresses(SubMarks(Marked(Esc(text)))) }

  lemma ProseCollects(text: string, rest: string)
    requires Sound(text)
    ensures Hrefs(ProseMarkup(text) + rest) == Mapped(Dashed, ProseAddresses(text)) + Hrefs(rest)
  {
    ProseMarks(text);
    MarksCollect(SubMarks(Marked(Esc(text))), Out, [], rest);
  }

  lemma ProseSchemes(text: string)
    ensures forall k :: 0 <= k < |ProseAddresses(text)| ==> HasScheme(Dashed(ProseAddresses(text)[k]))
  {
    MarkedSchemed(Esc(text));
    SubSchemed(Marked(Esc(text)));
    AddressesHaveSchemes(SubMarks(Marked(Esc(text))));
    forall k | 0 <= k < |ProseAddresses(text)| ensures HasScheme(Dashed(ProseAddresses(text)[k])) {
      SchemeKept(ProseAddresses(text)[k]);
    }
  }

  lemma SchemeKept(a: string)
    requires HasScheme(a)
    ensures HasScheme(Dashed(a))
  {
    var scheme := if "http://" <= a then "http://" else "https://";
    assert a == scheme + a[|scheme|..];
    DashedPasses(scheme, a[|scheme|..]);
  }

  lemma CodeCollects(text: string, rest: string)
    ensures Hrefs(CodeMarkup(text) + rest) == Hrefs(rest)
  {
    EscHasNoAngles(text);
    var tail := FONT_CLOSE + rest;
    assert CodeMarkup(text) + rest == FONT_OPEN + (Esc(text) + tail);
    FontTags(Esc(text) + tail);
    Cut(FONT_OPEN, Esc(text) + tail);
    FontIsNoLink(FONT_OPEN + (Esc(text) + tail));
    HrefsTag(Font, true, FONT_OPEN, Esc(text) + tail);
    HrefsText(Esc(text), tail);
    FontTags(rest);
    Cut(FONT_CLOSE, rest);
    NoLinkTag(tail, 1);
    HrefsTag(Font, false, FONT_CLOSE, rest);
  }

  lemma FontIsNoLink(s: string)
    requires FONT_OPEN <= s
    ensures !(HREF <= s)
  {
    assert s[1] == FONT_OPEN[1] == 'f';
    NoLinkTag(s, 1);
  }

  /** The addresses of all prose, in order. */
  function PartsAddresses(parts: seq<Part>): seq<string> {
    if parts == [] then []
    else (if parts[0].Prose? then ProseAddresses(parts[0].text) else []) + PartsAddresses(parts[1..])
  }

  lemma MappedAppend(a: seq<string>, b: seq<string>)
    ensures Mapped(Dashed, a + b) == Mapped(Dashed, a) + Mapped(Dashed, b)
  {
  }

  lemma {:induction false} PartsCollect(parts: seq<Part>)
    requires AllSound(parts)
    ensures Hrefs(AllMarkup(parts)) == Mapped(Dashed, PartsAddresses(parts))
    ensures forall k :: 0 <= k < |Hrefs(AllMarkup(parts))| ==> HasScheme(Hrefs(AllMarkup(parts))[k])
  {
    if parts != [] {
      SoundStep(parts);
      PartsCollect(parts[1..]);
      var rest := AllMarkup(parts[1..]);
      match parts[0]
      case Prose(text) =>
        ProseCollects(text, rest);
        ProseSchemes(text);
        MappedAppend(ProseAddresses(text), PartsAddresses(parts[1..]));
      case Code(text) =>
        CodeCollects(text, rest);
        assert [] + PartsAddresses(parts[1..]) == PartsAddresses(parts[1..]);
    }
  }

  /**
    For every text whose markup nests: a reader collects from the opening link tags just the
    addresses that the substitutions leave, in order, double hyphens made dashes in them too, and
    each starts with one of the two schemes.
   */
  lemma LinksLead(text: string)
    requires WellNested(AllMarkup(Parts(text)))
    ensures Hrefs(AllMarkup(Parts(text))) == Mapped(Dashed, PartsAddresses(Parts(text)))
    ensures forall k :: 0 <= k < |Hrefs(AllMarkup(Parts(text)))| ==> HasScheme(Hrefs(AllMarkup(Parts(text)))[k])
  {
    NestsIffSound(text);
    PartsCollect(Parts(text));
  }
}
