/**
  Which links `inline` of tools/md-to-pdf.py makes clickable, and what it writes for them and for code.
 */
module InlineLinks {
  import opened Options
  import opened Text
  import opened Escape
  import opened Emphasis
  import opened Inline
  import opened LinkMarks
  import opened MarkupReader
  import opened BrokenLinks
  import opened LinkAddresses

  // ---------------------------------------------------------------- what a link looks like

  /** An address of the web: one of the two schemes and something after it. */
  ghost predicate IsWebAddress(target: string) {
    exists rest :: rest != "" && (target == "http://" + rest || target == "https://" + rest)
  }

  /** `[words](target)` and what follows. */
  predicate IsLinkWith(s: string, words: string, target: string, rest: string) {
    && s == WebLink(words, target, rest)
    && words != "" && ']' !in words && target != "" && ')' !in target
  }

  lemma IsWebIff(target: string)
    ensures IsWeb(target) <==> IsWebAddress(target)
  {
    if "http://" <= target { assert target == "http://" + target[7..]; }
    if "https://" <= target { assert target == "https://" + target[8..]; }
  }

  lemma LinkLooks(s: string, l: Link)
    requires BracketsAt(s) == Some(l)
    ensures IsLinkWith(s, l.words, l.target, s[l.length..]) && l.length == |l.words| + |l.target| + 4
  {
    var close := BracketParts(s, l);
    TargetParts(s[close + 2..], l, close);
    LinkCut(s, close, l.words, l.target, l.length);
  }

  lemma BracketParts(s: string, l: Link) returns (close: nat)
    requires BracketsAt(s) == Some(l)
    ensures 1 < close && close + 2 <= |s| && s[0] == '[' && s[close] == ']' && s[close + 1] == '('
    ensures TargetIn(s[close + 2..], s[1..close], close + 2) == Some(l) && ']' !in s[1..close]
  {
    close := 1 + IndexOf(s[1..], ']');
    assert s[1..close] == s[1..][..close - 1];
  }

  lemma TargetParts(inside: string, l: Link, close: nat)
    requires 1 < close && TargetIn(inside, l.words, close + 2) == Some(l)
    ensures var n := |l.target|;
      0 < n < |inside| && inside[n] == ')' && inside[..n] == l.target && ')' !in l.target && l.length == close + 3 + n
  {
  }

  lemma LinkCut(s: string, close: nat, words: string, target: string, n: nat)
    requires 1 < close && n == close + 3 + |target| <= |s| && s[0] == '[' && s[close] == ']' && s[close + 1] == '('
    requires words == s[1..close] && target == s[close + 2..][..|target|] && s[n - 1] == ')'
    ensures s == WebLink(words, target, s[n..])
  {
    assert target == s[close + 2..n - 1];
    PiecesOf(s, 1, close, n - 1);
    WebPieces(words, target, s[n..]);
  }

  lemma PiecesOf(s: string, a: nat, b: nat, c: nat)
    requires a == 1 && a <= b && b + 2 <= c < |s|
    ensures s == [s[0]] + s[1..b] + [s[b], s[b + 1]] + s[b + 2..c] + [s[c]] + s[c + 1..]
  {
  }

  lemma WebPieces(words: string, target: string, rest: string)
    ensures WebLink(words, target, rest) == "[" + words + "](" + target + ")" + rest
  {
  }

  ghost predicate LinksAs(s: string, words: string, target: string) {
    exists rest :: IsLinkWith(s, words, target, rest)
  }

  lemma LinkReads(s: string, words: string, target: string, rest: string)
    requires IsLinkWith(s, words, target, rest)
    ensures BracketsAt(s) == Some(Link(words, target, |words| + 3 + |target| + 1))
  {
    var inside := target + (")" + rest);
    LinkHere(s, words, target, rest, "(" + inside, inside);
  }

  lemma BracketsIff(s: string, words: string, target: string, n: nat)
    ensures BracketsAt(s) == Some(Link(words, target, n)) <==>
      LinksAs(s, words, target) && n == |words| + |target| + 4
  {
    if BracketsAt(s) == Some(Link(words, target, n)) { LooksAs(s, Link(words, target, n)); }
    if LinksAs(s, words, target) { ReadsAs(s, words, target); }
  }

  lemma LooksAs(s: string, l: Link)
    requires BracketsAt(s) == Some(l)
    ensures LinksAs(s, l.words, l.target) && l.length == |l.words| + |l.target| + 4
  {
    LinkLooks(s, l);
  }

  lemma ReadsAs(s: string, words: string, target: string)
    requires LinksAs(s, words, target)
    ensures BracketsAt(s) == Some(Link(words, target, |words| + |target| + 4))
  {
    var rest :| IsLinkWith(s, words, target, rest);
    LinkReads(s, words, target, rest);
  }

  /** `\[([^\]]+)\]\((https?://[^)]+)\)`, and the same for any target. */
  lemma LinkIff(s: string, web: bool, words: string, target: string, n: nat)
    ensures LinkAt(s, web) == Some(Link(words, target, n)) <==>
      LinksAs(s, words, target) && n == |words| + |target| + 4 && (web ==> IsWebAddress(target))
  {
    IsWebIff(target);
    BracketsIff(s, words, target, n);
  }

  // ---------------------------------------------------------------- what is written

  /** No two hyphens side by side. */
  predicate NoDash(s: string) { forall i :: 0 <= i < |s| - 1 ==> !(s[i] == '-' && s[i + 1] == '-') }

  /** Something to write that nothing in it changes. */
  predicate Tame(s: string) { s != "" && Simple(s) && '*' !in s && '"' !in s && NoDash(s) }

  lemma NoDashFirst(s: string)
    requires NoDash(s)
    ensures !("--" <= s)
  {
    if |s| >= 2 { assert !(s[0] == '-' && s[0 + 1] == '-'); }
  }

  lemma {:induction false} NoDashStays(s: string)
    requires NoDash(s)
    ensures Dashed(s) == s
  {
    if s != "" {
      DashedStep(s);
      NoDashFirst(s);
      assert NoDash(s[1..]) by { assert forall i :: 0 <= i < |s[1..]| ==> s[1..][i] == s[i + 1]; }
      NoDashStays(s[1..]);
      assert s == [s[0]] + s[1..];
    }
  }

  lemma NoDashJoin(a: string, b: string)
    requires NoDash(a) && NoDash(b) && (a == "" || a[|a| - 1] != '-' || b == "" || b[0] != '-')
    ensures NoDash(a + b)
  {
  }

  /** Text without asterisks and double hyphens is written as it is. */
  lemma TextIsWritten(s: string)
    requires '*' !in s && NoDash(s)
    ensures Replace(Render(Emphasised(s, [])), "--", "&#8211;") == s
  {
    assert s + "" == s;
    EmphasisPasses(s, "", []);
    assert Render(Emphasised("", [])) == "";
    NoDashStays(s);
  }

  lemma OneProse(s: string)
    requires Unescaped(s)
    ensures AllMarkup(Parts(s)) == ProseMarkup(s) && Esc(s) == s
  {
    NoSpan(s, 0);
    EscUntouched(s);
    assert FirstPiece(s) == None && Parts(s) == [Prose(s)];
    assert [Prose(s)][1..] == [] && ProseMarkup(s) + "" == ProseMarkup(s);
  }

  /** The first substitution on one link and nothing else. */
  lemma LinkReplaced(s: string, words: string, target: string, web: bool)
    requires IsLinkWith(s, words, target, "") && (web ==> IsWebAddress(target))
    ensures SubLinks(s, web) == LinkMarkup(Link(words, target, |s|), web)
  {
    var l := Link(words, target, |words| + |target| + 4);
    LinkIff(s, web, words, target, l.length);
    WholeLink(s, words, target);
    LinkTaken(s, web, l);
  }

  lemma WholeLink(s: string, words: string, target: string)
    requires s == WebLink(words, target, "")
    ensures |s| == |words| + |target| + 4
  {
    WebPieces(words, target, "");
  }

  lemma LinkTaken(s: string, web: bool, l: Link)
    requires LinkAt(s, web) == Some(l) && l.length == |s|
    ensures SubLinks(s, web) == LinkMarkup(l, web)
  {
    assert s[|s|..] == "" && SubLinks("", web) == "";
    assert LinkMarkup(l, web) + "" == LinkMarkup(l, web);
  }

  lemma LinkTextFree(h: string, target: string, e: string, words: string, t: string)
    requires h == HREF && e == HREF_END && t == "</link>" && Tame(words) && Tame(target)
    ensures var m := h + target + e + words + t; '[' !in m && '*' !in m && NoDash(m)
  {
    HrefFree(h);
    EndFree(e);
    assert '[' !in t && '*' !in t && NoDash(t) && t[0] == '<';
    NoDashJoin(h, target);
    NoDashJoin(h + target, e);
    NoDashJoin(h + target + e, words);
    NoDashJoin(h + target + e + words, t);
  }

  lemma HrefFree(h: string)
    requires h == HREF
    ensures '[' !in h && '*' !in h && NoDash(h) && h[|h| - 1] == '"'
  {
  }

  lemma EndFree(e: string)
    requires e == HREF_END
    ensures '[' !in e && '*' !in e && NoDash(e) && e[0] == '"' && e[|e| - 1] == '>'
  {
  }

  lemma NothingReplaced(m: string, web: bool)
    requires '[' !in m
    ensures SubLinks(m, web) == m
  {
    SubLinksSkips(m, "", web);
    assert m + "" == m && SubLinks("", web) == "";
  }

  lemma WebLinkWritten(words: string, target: string)
    requires Tame(words) && Tame(target) && IsWebAddress(target)
    ensures AllMarkup(Parts(WebLink(words, target, ""))) == HREF + target + HREF_END + words + "</link>"
  {
    var s := WebLink(words, target, "");
    WebLinkUnescaped(words, target, "");
    OneProse(s);
    LinkReplaced(s, words, target, true);
    var m := SubLinks(s, true);
    LinkTextFree(HREF, target, HREF_END, words, "</link>");
    assert m == HREF + target + HREF_END + words + "</link>";
    NothingReplaced(m, false);
    TextIsWritten(m);
  }

  lemma OtherLinkWritten(words: string, target: string)
    requires Tame(words) && Tame(target) && !IsWebAddress(target)
    ensures AllMarkup(Parts(WebLink(words, target, ""))) == words
  {
    var s := WebLink(words, target, "");
    WebLinkUnescaped(words, target, "");
    OneProse(s);
    NoWebReplaced(s, words, target);
    LinkReplaced(s, words, target, false);
    TextIsWritten(words);
  }

  /** The first substitution leaves any other link alone. */
  lemma NoWebReplaced(s: string, words: string, target: string)
    requires s == WebLink(words, target, "") && Tame(words) && Tame(target) && !IsWebAddress(target)
    ensures SubLinks(s, true) == s
  {
    var rest := words + ("]" + ("(" + (target + (")" + ""))));
    IsWebIff(target);
    LinkReads(s, words, target, "");
    assert s[0] == '[' && s[1..] == rest && LinkAt(s, true) == None;
    NoBracket(words, target, rest);
    NothingReplaced(rest, true);
  }

  lemma NoBracket(words: string, target: string, rest: string)
    requires Simple(words) && Simple(target) && rest == words + ("]" + ("(" + (target + (")" + ""))))
    ensures '[' !in rest
  {
  }

  lemma TameJoin(scheme: string, rest: string)
    requires (scheme == "http://" || scheme == "https://") && Tame(rest)
    ensures Tame(scheme + rest)
  {
    SchemeFree(scheme);
    NoDashJoin(scheme, rest);
  }

  lemma SchemeFree(scheme: string)
    requires scheme == "http://" || scheme == "https://"
    ensures Tame(scheme) && scheme[|scheme| - 1] == '/'
  {
  }

  /** A link to the web is written as a link tag with exactly its address around exactly its words. */
  lemma WebLinkIs(words: string, scheme: string, rest: string)
    requires Tame(words) && Tame(rest) && (scheme == "http://" || scheme == "https://")
    ensures AllMarkup(Parts("[" + words + "](" + scheme + rest + ")"))
      == "<link href=\"" + scheme + rest + "\" color=\"#2563eb\">" + words + "</link>"
  {
    TameJoin(scheme, rest);
    WebLinkWritten(words, scheme + rest);
    WebPieces(words, scheme + rest, "");
    Regroups("[" + words + "](", scheme, rest, ")");
    assert "[" + words + "](" + scheme + rest + ")" + "" == "[" + words + "](" + scheme + rest + ")";
    Concat(HREF, scheme, rest);
  }

  lemma Regroups(a: string, b: string, c: string, d: string)
    ensures a + (b + c) + d == a + b + c + d
  {
  }

  /** Any other link is written as its words alone. */
  lemma OtherLinkIs(words: string, target: string)
    requires Tame(words) && Tame(target)
    requires forall rest :: target == "http://" + rest || target == "https://" + rest ==> rest == ""
    ensures AllMarkup(Parts("[" + words + "](" + target + ")")) == words
  {
    OtherLinkWritten(words, target);
    WebPieces(words, target, "");
    assert "[" + words + "](" + target + ")" + "" == "[" + words + "](" + target + ")";
  }

  // ---------------------------------------------------------------- code spans

  /** Text between backticks is written as code, escaped and otherwise as it is. */
  lemma CodeSpanIs(text: string)
    requires text != "" && '`' !in text
    ensures AllMarkup(Parts("`" + text + "`")) == "<font face=\"Courier\">" + EscEach(text) + "</font>"
  {
    CodeParts("`" + text + "`", text);
    EscIsEscEach(text);
    EmptyProse();
    ThreeMarkups(Prose(""), Code(text), Prose(""));
    Surrounded(CodeMarkup(text));
  }

  lemma CodeParts(s: string, text: string)
    requires s == "`" + text + "`" && text != "" && '`' !in text
    ensures Parts(s) == [Prose(""), Code(text), Prose("")]
  {
    OneSpan(s, text);
    NoSpan("", 0);
    assert Parts("") == [Prose("")];
    assert [Prose(""), Code(text)] + [Prose("")] == [Prose(""), Code(text), Prose("")];
  }

  lemma ThreeMarkups(a: Part, b: Part, c: Part)
    ensures AllMarkup([a, b, c]) == PartMarkup(a) + (PartMarkup(b) + (PartMarkup(c) + ""))
  {
    FirstMarkup(a, [b, c]);
    FirstMarkup(b, [c]);
    FirstMarkup(c, []);
    assert [a] + [b, c] == [a, b, c] && [b] + [c] == [b, c] && [c] + [] == [c];
  }

  lemma FirstMarkup(a: Part, rest: seq<Part>)
    ensures AllMarkup([a] + rest) == PartMarkup(a) + AllMarkup(rest)
  {
    assert ([a] + rest)[1..] == rest;
  }

  lemma OneSpan(s: string, text: string)
    requires s == "`" + text + "`" && text != "" && '`' !in text
    ensures FirstPiece(s) == Some(Piece("", text, ""))
  {
    var n := |text| + 1;
    assert s[1..n] == text && s[n] == '`' && s[n + 1..] == "" && s[..0] == "";
    SpanEndIs(s, 0, n);
  }

  lemma EmptyProse()
    ensures ProseMarkup("") == ""
  {
    assert Unescaped("");
    EscUntouched("");
    assert SubLinks("", true) == "" && SubLinks("", false) == "";
    TextIsWritten("");
  }

  lemma Surrounded(s: string)
    ensures "" + (s + ("" + "")) == s
  {
  }

  // ---------------------------------------------------------------- dashes in addresses

  /** An address may hold double hyphens, and nothing else that is changed. */
  predicate IsAddress(s: string) { s != "" && Simple(s) && '*' !in s && '"' !in s }

  /** The dashes are set in addresses, too. */
  lemma DashedLink(words: string, target: string)
    requires Tame(words) && IsAddress(target) && IsWebAddress(target)
    ensures AllMarkup(Parts(WebLink(words, target, ""))) == HREF + (Dashed(target) + (HREF_END + (words + "</link>")))
  {
    var s, more := WebLink(words, target, ""), words + "</link>";
    var m := HREF + (target + (HREF_END + more));
    WebLinkUnescaped(words, target, "");
    OneProse(s);
    LinkReplaced(s, words, target, true);
    LinkMarkupIs(HREF, target, HREF_END, words, "</link>");
    NoSpecials(HREF, target, HREF_END, words, "</link>");
    ProseIsDashed(s, m);
    DashedHead(HREF, target, HREF_END, more);
    TailKept(words, "</link>");
  }

  lemma ProseIsDashed(s: string, m: string)
    requires Esc(s) == s && SubLinks(s, true) == m && '[' !in m && '*' !in m
    ensures ProseMarkup(s) == Dashed(m)
  {
    NothingReplaced(m, false);
    assert m + "" == m && Render(Emphasised("", [])) == "";
    EmphasisPasses(m, "", []);
  }

  lemma TailKept(words: string, t: string)
    requires Tame(words) && t == "</link>"
    ensures Dashed(words + t) == words + t
  {
    assert NoDash(t) && t[0] == '<';
    NoDashJoin(words, t);
    NoDashStays(words + t);
  }

  lemma LinkMarkupIs(h: string, a: string, e: string, w: string, t: string)
    ensures h + a + e + w + t == h + (a + (e + (w + t)))
  {
  }

  lemma NoSpecials(h: string, target: string, e: string, words: string, t: string)
    requires h == HREF && e == HREF_END && t == "</link>" && Tame(words) && IsAddress(target)
    ensures var m := h + (target + (e + (words + t))); '[' !in m && '*' !in m
  {
    HrefFree(h);
    EndFree(e);
  }

  /** An address is left as it was written if and only if it has no double hyphen. */
  lemma {:induction false} AddressKeptIff(a: string)
    ensures Dashed(a) == a <==> NoDash(a)
  {
    if NoDash(a) { NoDashStays(a); } else { DashedIsLonger(a); }
  }

  lemma {:induction false} DashedIsLonger(a: string)
    ensures |Dashed(a)| >= |a| && (!NoDash(a) ==> |Dashed(a)| > |a|)
    decreases |a|
  {
    if a != "" {
      DashedStep(a);
      if "--" <= a {
        DashedIsLonger(a[2..]);
      } else {
        DashedIsLonger(a[1..]);
        if !NoDash(a) { LaterDash(a); }
      }
    }
  }

  lemma LaterDash(a: string)
    requires a != "" && !("--" <= a) && !NoDash(a)
    ensures !NoDash(a[1..])
  {
    var i :| 0 <= i < |a| - 1 && a[i] == '-' && a[i + 1] == '-';
    StartsIff(a);
    assert a[1..][i - 1] == '-' && a[1..][i] == '-';
  }

  lemma StartsIff(a: string)
    ensures "--" <= a <==> |a| >= 2 && a[0] == '-' && a[1] == '-'
  {
    if |a| >= 2 { assert a[..2] == [a[0], a[1]]; }
  }

  /** With an address in which they meet, the tag leads elsewhere. */
  lemma DashExample()
    ensures AllMarkup(Parts("[a](http://x--y)"))
      == "<link href=\"" + "http://x&#8211;y" + "\" color=\"#2563eb\">" + "a" + "</link>"
  {
    var target, dashed := "http://x--y", "http://x&#8211;y";
    ShortTexts();
    ShortAddress(target, dashed);
    DashedLink("a", target);
    ShortLink("a", target, "");
    LinkMarkupIs(HREF, dashed, HREF_END, "a", "</link>");
  }

  lemma ShortLink(words: string, target: string, rest: string)
    requires words == "a" && target == "http://x--y" && rest == ""
    ensures WebLink(words, target, rest) == "[a](http://x--y)"
  {
    assert target + (")" + rest) == "http://x--y)";
    assert "(" + "http://x--y)" == "(http://x--y)";
    assert "]" + "(http://x--y)" == "](http://x--y)";
    assert words + "](http://x--y)" == "a](http://x--y)";
  }

  lemma ShortAddress(a: string, dashed: string)
    requires a == "http://x--y" && dashed == "http://x&#8211;y"
    ensures IsWebAddress(a) && Dashed(a) == dashed
  {
    assert a == "http://" + "x--y";
    DashInside("http://x", "y");
    assert a == "http://x" + ("--" + "y") && dashed == "http://x" + (DASH + "y");
  }

  lemma DashInside(a: string, b: string)
    requires NoDash(a) && '-' !in a && b != "" && b[0] != '-' && NoDash(b)
    ensures Dashed(a + ("--" + b)) == a + (DASH + b)
  {
    DashedPasses(a, "--" + b);
    DashedStep("--" + b);
    NoDashStays(b);
  }

  lemma ShortTexts()
    ensures Tame("a") && IsAddress("http://x--y")
  {
  }
}
