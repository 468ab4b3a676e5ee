/**
  Links to the web with which `inline` of tools/md-to-pdf.py does not nest, one family for each way
  to fail, and one short text in each family.
 */
module BrokenLinks {
  import opened Options
  import opened Text
  import opened Escape
  import opened Emphasis
  import opened Inline
  import opened LinkMarks
  import opened LinkCuts
  import opened MarkupReader
  import opened InlineNesting

  // ---------------------------------------------------------------- texts with few special characters

  predicate Free(s: string, c: char) { c !in s }

  /** No bracket, and nothing that code spans or escaping would touch. */
  predicate Simple(s: string) {
    Free(s, '[') && Free(s, ']') && Free(s, '(') && Free(s, ')') && Unescaped(s)
  }

  predicate Unescaped(s: string) { Free(s, '`') && Free(s, '&') && Free(s, '<') && Free(s, '>') }

  lemma UnescapedJoin(a: string, b: string)
    requires Unescaped(a) && Unescaped(b)
    ensures Unescaped(a + b)
  {
  }

  function WebLink(words: string, target: string, rest: string): string {
    "[" + (words + ("]" + ("(" + (target + (")" + rest)))))
  }

  lemma WebLinkUnescaped(words: string, target: string, rest: string)
    requires Unescaped(words) && Unescaped(target) && Unescaped(rest)
    ensures Unescaped(WebLink(words, target, rest))
  {
    UnescapedJoin(")", rest);
    UnescapedJoin(target, ")" + rest);
    UnescapedJoin("(", target + (")" + rest));
    UnescapedJoin("]", "(" + (target + (")" + rest)));
    UnescapedJoin(words, "]" + ("(" + (target + (")" + rest))));
    UnescapedJoin("[", words + ("]" + ("(" + (target + (")" + rest)))));
  }

  lemma {:induction false} NoSpan(s: string, i: nat)
    requires i <= |s| && '`' !in s
    ensures FirstSpan(s, i) == None
    decreases |s| - i
  {
    if i < |s| { NoSpan(s, i + 1); }
  }

  lemma EscUntouched(t: string)
    requires Unescaped(t)
    ensures Esc(t) == t
  {
    ReplaceIsMap(t, '&', "&amp;");
    MapUntouched(t, '&', "&amp;");
    ReplaceIsMap(t, '<', "&lt;");
    MapUntouched(t, '<', "&lt;");
    ReplaceIsMap(t, '>', "&gt;");
    MapUntouched(t, '>', "&gt;");
  }

  /** Such a text is one stretch of prose, and nothing in it is escaped. */
  lemma SimpleNests(text: string)
    requires Unescaped(text)
    ensures var ms := Marked(text);
      WellNested(AllMarkup(Parts(text))) <==> CutFree(ms) && CleanAddrs(SubMarks(ms)) && Level(SubMarks(ms), [], None)
  {
    NoSpan(text, 0);
    EscUntouched(text);
    NestsIffSound(text);
    assert FirstPiece(text) == None && Parts(text) == [Prose(text)];
    assert AllSound([Prose(text)]) <==> Sound(text) by { assert [Prose(text)][0] == Prose(text); }
  }

  // ---------------------------------------------------------------- the first substitution

  lemma MarkedStep(s: string)
    requires s != "" && LinkAt(s, true).None?
    ensures Marked(s) == [Plain(s[0])] + Marked(s[1..])
  {
  }

  lemma MarkedChar(s: string)
    requires s != "" && s[0] != '['
    ensures Marked(s) == [Plain(s[0])] + Marked(s[1..])
  {
    assert LinkAt(s, true).None?;
    MarkedStep(s);
  }

  lemma MarkedTakes(s: string, l: Link)
    requires LinkAt(s, true) == Some(l)
    ensures l.length <= |s| && Marked(s) == LinkOf(l) + Marked(s[l.length..])
  {
  }

  predicate PassesChar(marked: string -> seq<Mark>, s: string) {
    s != "" && s[0] != '[' ==> marked(s) == [Plain(s[0])] + marked(s[1..])
  }

  lemma {:induction false} TextPasses(marked: string -> seq<Mark>, a: string, rest: string)
    requires '[' !in a && forall s: string :: PassesChar(marked, s)
    ensures marked(a + rest) == Plains(a) + marked(rest)
  {
    if a == "" {
      assert a + rest == rest && Plains(a) + marked(rest) == marked(rest);
    } else {
      assert (a + rest)[0] == a[0] && (a + rest)[1..] == a[1..] + rest;
      assert PassesChar(marked, a + rest);
      TextPasses(marked, a[1..], rest);
      assert Plains(a) == [Plain(a[0])] + Plains(a[1..]);
    }
  }

  /** `Marked`, as a value. */
  function Marking(s: string): seq<Mark> { Marked(s) }

  /** Text without an opening bracket is passed on. */
  lemma MarkedPasses(a: string, rest: string)
    requires '[' !in a
    ensures Marked(a + rest) == Plains(a) + Marked(rest)
  {
    forall s: string ensures PassesChar(Marking, s) {
      if s != "" && s[0] != '[' { MarkedChar(s); }
    }
    TextPasses(Marking, a, rest);
  }

  lemma MarkedNothing(a: string)
    requires '[' !in a
    ensures Marked(a) == Plains(a)
  {
    MarkedPasses(a, "");
    assert a + "" == a;
  }

  lemma TargetHere(words: string, target: string, rest: string, lead: nat)
    requires target != "" && ')' !in target
    ensures TargetIn(target + (")" + rest), words, lead) == Some(Link(words, target, lead + |target| + 1))
  {
    FirstThere(target, ")" + rest, ')');
    Cut(target, ")" + rest);
  }

  /** A link, as the substitutions see it. */
  lemma LinkHere(s: string, words: string, target: string, rest: string, b: string, inside: string)
    requires words != "" && ']' !in words && target != "" && ')' !in target && inside == target + (")" + rest)
    requires b == "(" + inside && s == "[" + (words + ("]" + b))
    ensures BracketsAt(s) == Some(Link(words, target, |words| + 3 + |target| + 1))
  {
    assert TargetIn(inside, words, |words| + 3) == Some(Link(words, target, |words| + 3 + |target| + 1)) by {
      TargetHere(words, target, rest, |words| + 3);
    }
    assert BracketsAt(s) == TargetIn(inside, words, |words| + 3) by {
      FirstThere(words, "]" + b, ']');
      BracketsAre(s, words, b, inside);
    }
  }

  lemma BracketsAre(s: string, words: string, b: string, inside: string)
    requires s == "[" + (words + ("]" + b)) && IndexOf(words + ("]" + b), ']') == |words| && words != ""
    requires b == "(" + inside
    ensures BracketsAt(s) == TargetIn(inside, words, |words| + 3)
  {
    Cut("(", inside);
    OpensAt(s, words, b);
  }

  lemma WebFound(s: string, l: Link)
    requires BracketsAt(s) == Some(l)
    ensures LinkAt(s, true) == if IsWeb(l.target) then Some(l) else None
  {
  }

  lemma MarkedLink(words: string, target: string, rest: string)
    requires words != "" && ']' !in words && target != "" && ')' !in target && IsWeb(target)
    ensures Marked(WebLink(words, target, rest))
      == LinkOf(Link(words, target, |words| + 3 + |target| + 1)) + Marked(rest)
  {
    var s, l := WebLink(words, target, rest), Link(words, target, |words| + 3 + |target| + 1);
    WebTaken(s, words, target, rest, l);
    MarkedTakes(s, l);
  }

  lemma WebTaken(s: string, words: string, target: string, rest: string, l: Link)
    requires words != "" && ']' !in words && target != "" && ')' !in target && IsWeb(target)
    requires s == WebLink(words, target, rest) && l == Link(words, target, |words| + 3 + |target| + 1)
    ensures LinkAt(s, true) == Some(l) && l.length <= |s| && s[l.length..] == rest
  {
    WebHere(s, words, target, rest, l);
    TargetEnds(words, target, rest, s);
  }

  lemma WebHere(s: string, words: string, target: string, rest: string, l: Link)
    requires words != "" && ']' !in words && target != "" && ')' !in target && IsWeb(target)
    requires s == WebLink(words, target, rest) && l == Link(words, target, |words| + 3 + |target| + 1)
    ensures LinkAt(s, true) == Some(l)
  {
    var inside := target + (")" + rest);
    LinkHere(s, words, target, rest, "(" + inside, inside);
    WebFound(s, l);
  }

  lemma MarkedNoLink(words: string, target: string, rest: string)
    requires words != "" && ']' !in words && target != "" && ')' !in target && !IsWeb(target)
    ensures Marked(WebLink(words, target, rest))
      == [Plain('[')] + Marked(words + ("]" + ("(" + (target + (")" + rest)))))
  {
    var s := WebLink(words, target, rest);
    var inside := target + (")" + rest);
    LinkHere(s, words, target, rest, "(" + inside, inside);
    WebFound(s, Link(words, target, |words| + 3 + |target| + 1));
    MarkedStep(s);
    Cut("[", words + ("]" + ("(" + (target + (")" + rest)))));
  }

  // ---------------------------------------------------------------- one link

  predicate Without(ms: seq<Mark>, c: char) { forall i :: 0 <= i < |ms| ==> !CharIs(ms[i], c) }

  lemma {:induction false} NothingToCut(ms: seq<Mark>)
    requires Without(ms, '[')
    ensures CutFree(ms) && SubMarks(ms) == ms
  {
    if ms != [] {
      NothingToCut(ms[1..]);
      assert ms == [ms[0]] + ms[1..];
    }
  }

  function OneLink(before: string, l: Link, after: string): seq<Mark> {
    Plains(before) + (LinkOf(l) + Plains(after))
  }

  lemma WithoutJoin(a: seq<Mark>, b: seq<Mark>, c: char)
    requires Without(a, c) && Without(b, c)
    ensures Without(a + b, c)
  {
  }

  lemma WithoutChars(s: string, c: char)
    requires c !in s
    ensures Without(Plains(s), c) && Without(Addrs(s), c) && Without(Words(s), c)
  {
  }

  lemma LinkIsWithout(l: Link, c: char)
    requires c !in l.words && c !in l.target
    ensures Without(LinkOf(l), c)
  {
    WithoutChars(l.target, c);
    WithoutChars(l.words, c);
    WithoutJoin([Head], Addrs(l.target), c);
    WithoutJoin([Tail], Words(l.words), c);
    WithoutJoin([Tail] + Words(l.words), [End], c);
    WithoutJoin([Head] + Addrs(l.target), [Tail] + Words(l.words) + [End], c);
  }

  /** Prose with one link and no other bracket: nothing can be cut. */
  lemma OneLinkNests(before: string, words: string, target: string, after: string)
    requires Simple(before) && Simple(words) && Simple(target) && Simple(after) && words != "" && IsWeb(target)
    ensures var ms := OneLink(before, Link(words, target, |words| + 3 + |target| + 1), after);
      WellNested(AllMarkup(Parts(before + WebLink(words, target, after)))) <==> CleanAddrs(ms) && Level(ms, [], None)
  {
    var l := Link(words, target, |words| + 3 + |target| + 1);
    var ms := OneLink(before, l, after);
    WebLinkUnescaped(words, target, after);
    UnescapedJoin(before, WebLink(words, target, after));
    SimpleNests(before + WebLink(words, target, after));
    MarkedPasses(before, WebLink(words, target, after));
    MarkedLink(words, target, after);
    MarkedNothing(after);
    LinkIsWithout(l, '[');
    WithoutChars(before, '[');
    WithoutChars(after, '[');
    WithoutJoin(LinkOf(l), Plains(after), '[');
    WithoutJoin(Plains(before), LinkOf(l) + Plains(after), '[');
    NothingToCut(ms);
  }

  lemma LinkIsClean(before: string, l: Link, after: string)
    ensures CleanAddrs(OneLink(before, l, after)) <==> '"' !in l.target && '*' !in l.target
  {
    AddrsAre(l.target);
    CleanSplit([Head], Addrs(l.target));
    CleanSplit([Head] + Addrs(l.target), [Tail] + Words(l.words) + [End]);
    CleanSplit(LinkOf(l), Plains(after));
    CleanSplit(Plains(before), LinkOf(l) + Plains(after));
    assert CleanAddrs(Plains(before)) && CleanAddrs(Plains(after)) && CleanAddrs([Head]);
    assert CleanAddrs([Tail] + Words(l.words) + [End]);
  }

  /**
    A quote or an asterisk in the target always breaks the tag: the quote ends the address early,
    the asterisk puts a `<` into it, which `AnchorAt` refuses even where the emphasis is closed again
    before the address ends.
   */
  lemma TargetBreaksNesting(before: string, words: string, target: string, after: string)
    requires Simple(before) && Simple(words) && Simple(target) && Simple(after) && words != "" && IsWeb(target)
    requires '"' in target || '*' in target
    ensures !WellNested(AllMarkup(Parts(before + WebLink(words, target, after))))
  {
    OneLinkNests(before, words, target, after);
    LinkIsClean(before, Link(words, target, |words| + 3 + |target| + 1), after);
  }

  lemma {:induction false} LevelPassesWords(w: string, after: seq<Mark>, stack: seq<Kind>, floor: Option<nat>)
    requires '*' !in w
    ensures Level(Words(w) + after, stack, floor) <==> Level(after, stack, floor)
  {
    if w == "" {
      assert Words(w) + after == after;
    } else {
      var ms := Words(w) + after;
      assert ms[0] == Word(w[0]) && ms[1..] == Words(w[1..]) + after;
      LevelPassesWords(w[1..], after, stack, floor);
    }
  }

  lemma LevelStar(ms: seq<Mark>, r: (seq<Token>, seq<Kind>), stack: seq<Kind>, floor: Option<nat>)
    requires ms != [] && CharIs(ms[0], '*') && StarRun(ms) == 1 && Turn(stack, 1) == r
    ensures Level(ms, stack, floor) <==> StaysAbove(r.0, stack, floor) && Level(ms[1..], r.1, floor)
  {
  }

  lemma StaysOne(token: Token, stack: seq<Kind>, floor: Option<nat>)
    ensures StaysAbove([token], stack, floor) <==> Rooted(NestOne(token, stack).1, floor)
  {
    assert [token][1..] == [];
  }

  lemma OneTurn(stack: seq<Kind>)
    requires stack == [] || stack == [Italic]
    ensures Turn(stack, 1) == if stack == [] then ([Open(Italic)], [Italic]) else ([Close(Italic)], [])
    ensures NestOne(Open(Italic), []).1 == [Italic] && NestOne(Close(Italic), [Italic]).1 == []
  {
    assert [] + [Italic] == [Italic];
    assert [Italic][..0] == [];
    if stack == [Italic] { PopToIs(stack, Italic); } else { assert stack + [Italic] == [Italic]; }
  }

  /** One asterisk, and then none: it opens an italic stretch, or closes the one that is open. */
  lemma LevelOneStar(m: Mark, after: seq<Mark>, stack: seq<Kind>, floor: Option<nat>)
    requires CharIs(m, '*') && (after != [] ==> !CharIs(after[0], '*'))
    requires stack == [] || stack == [Italic]
    ensures var now := if stack == [] then [Italic] else [];
      Level([m] + after, stack, floor) <==> Rooted(now, floor) && Level(after, now, floor)
  {
    var ms := [m] + after;
    assert ms[0] == m && ms[1..] == after;
    OneTurn(stack);
    LevelStar(ms, Turn(stack, 1), stack, floor);
    StaysOne(if stack == [] then Open(Italic) else Close(Italic), stack, floor);
  }

  /** An italic stretch that begins before the link and ends at the end of its words crosses the link. */
  lemma CrossingIsNotLevel(words: string, target: string, n: nat)
    requires '*' !in words && '*' !in target
    ensures !Level(OneLink("*", Link(words + "*", target, n), ""), [], None)
  {
    var l := Link(words + "*", target, n);
    var rest := Addrs(target) + ([Tail] + (Words(words) + ([Word('*')] + [End])));
    assert OneLink("*", l, "") == [Plain('*')] + ([Head] + rest) by {
      assert Words(words + "*") == Words(words) + [Word('*')];
      assert Plains("*") == [Plain('*')] && Plains("") == [];
      Crossed([Plain('*')], Addrs(target), Words(words), [Word('*')]);
    }
    var end := [Word('*')] + [End];
    LevelOneStar(Plain('*'), [Head] + rest, [], None);
    assert ([Head] + rest)[1..] == rest;
    LevelPasses(target, [Tail] + (Words(words) + end), [Italic], None);
    assert ([Tail] + (Words(words) + end))[1..] == Words(words) + end;
    LevelPassesWords(words, end, [Italic], Some(1));
    LevelOneStar(Word('*'), [End], [Italic], Some(1));
  }

  lemma Crossed(a: seq<Mark>, b: seq<Mark>, c: seq<Mark>, d: seq<Mark>)
    ensures a + ([Head] + b + ([Tail] + (c + d) + [End]) + []) == a + ([Head] + (b + ([Tail] + (c + (d + [End])))))
  {
  }

  lemma CrossingBreaksNesting(words: string, target: string)
    requires Simple(words) && Simple(target) && '*' !in words && '*' !in target && IsWeb(target)
    ensures !WellNested(AllMarkup(Parts("*" + WebLink(words + "*", target, ""))))
  {
    var starred := words + "*";
    assert Simple(starred);
    OneLinkNests("*", starred, target, "");
    CrossingIsNotLevel(words, target, |starred| + 3 + |target| + 1);
  }

  // ---------------------------------------------------------------- cuts

  function WholeLink(words: string, target: string): Link {
    Link(words, target, |words| + 3 + |target| + 1)
  }

  lemma MatchSteps(ms: seq<Mark>, w: nat, k: nat)
    requires w + k + 3 < |ms| && w > 0 && k > 0
    requires CharIs(ms[0], '[') && MarkIndex(ms[1..], ']') == w
      && CharIs(ms[w + 2], '(') && MarkIndex(ms[w + 3..], ')') == k
    ensures MatchAt(ms) == Some(Match(w + 1, w + k + 4))
  {
  }

  lemma AtPieces(words: seq<Mark>, a: Mark, b: Mark, c: Mark, tail: seq<Mark>)
    ensures var ms := [a] + (words + ([b] + ([c] + tail)));
      && |ms| == |words| + 3 + |tail| && ms[0] == a && ms[1..] == words + ([b] + ([c] + tail))
      && ms[|words| + 1] == b && ms[|words| + 2] == c && ms[|words| + 3..] == tail
  {
  }

  lemma MatchInside(ms: seq<Mark>, w: nat, k: nat, tail: seq<Mark>)
    requires w > 0 && |ms| == w + 3 + |tail| && ms[w + 3..] == tail && 0 < k < |tail|
    requires CharIs(ms[0], '[') && MarkIndex(ms[1..], ']') == w && CharIs(ms[w + 2], '(') && MarkIndex(tail, ')') == k
    ensures MatchAt(ms) == Some(Match(w + 1, w + k + 4)) && ms[w + k + 3] == tail[k]
  {
    MatchSteps(ms, w, k);
  }

  /** A match of the second substitution, from its pieces. */
  lemma MatchHere(ms: seq<Mark>, words: seq<Mark>, inside: seq<Mark>, tail: seq<Mark>, a: Mark, b: Mark, c: Mark)
    requires CharIs(a, '[') && CharIs(b, ']') && CharIs(c, '(') && words != [] && inside != []
    requires Without(words, ']') && Without(inside, ')') && tail != [] && CharIs(tail[0], ')')
    requires ms == [a] + (words + ([b] + ([c] + (inside + tail))))
    ensures MatchAt(ms) == Some(Match(|words| + 1, |words| + |inside| + 4))
    ensures ms[|words| + 1] == b && ms[|words| + |inside| + 3] == tail[0]
  {
    var rest := inside + tail;
    AtPieces(words, a, b, c, rest);
    MarkIndexIs(words, [b] + ([c] + rest), ']');
    MarkIndexIs(inside, tail, ')');
    assert rest[|inside|] == tail[0];
    MatchInside(ms, |words|, |inside|, rest);
  }

  lemma {:induction false} MarkIndexIs(a: seq<Mark>, b: seq<Mark>, c: char)
    requires Without(a, c)
    requires b != [] && CharIs(b[0], c)
    ensures MarkIndex(a + b, c) == |a|
  {
    if a == [] {
      assert a + b == b;
    } else {
      assert (a + b)[0] == a[0] && (a + b)[1..] == a[1..] + b;
      MarkIndexIs(a[1..], b, c);
    }
  }

  /** Unless its bracket and its parenthesis close in plain text, such a match cuts a tag. */
  lemma CutsHere(words: seq<Mark>, inside: seq<Mark>, rest: seq<Mark>, a: Mark, b: Mark, c: Mark, d: Mark)
    requires CharIs(a, '[') && CharIs(b, ']') && CharIs(c, '(') && CharIs(d, ')') && words != [] && inside != []
    requires Without(words, ']') && Without(inside, ')') && !(b.Plain? && d.Plain?)
    ensures !CutFree([a] + (words + ([b] + ([c] + (inside + ([d] + rest))))))
  {
    var ms := [a] + (words + ([b] + ([c] + (inside + ([d] + rest)))));
    MatchHere(ms, words, inside, [d] + rest, a, b, c);
    CutFreeStep(ms, Match(|words| + 1, |words| + |inside| + 4));
  }

  lemma {:induction false} CutFreePasses(a: seq<Mark>, b: seq<Mark>)
    requires Without(a, '[')
    ensures CutFree(a + b) <==> CutFree(b)
  {
    if a == [] {
      assert a + b == b;
    } else {
      assert (a + b)[0] == a[0] && (a + b)[1..] == a[1..] + b;
      CutFreePasses(a[1..], b);
    }
  }

  /** Brackets `[q](z ` before a link whose words are `b)c`. */
  function Swallowing(q: string, z: string, b: string, c: string, target: string): string {
    WebLink(q, z + ("[" + b), c + ("]" + ("(" + (target + (")" + "")))))
  }

  lemma SwallowingIs(q: string, z: string, b: string, c: string, target: string)
    ensures q + ("]" + ("(" + ((z + ("[" + b)) + (")" + (c + ("]" + ("(" + (target + (")" + "")))))))))
      == (q + ("]" + ("(" + z))) + WebLink(b + (")" + c), target, "")
  {
  }

  lemma SwallowingMarks(q: string, z: string, l: Link, b: string, c: string)
    requires l.words == b + (")" + c)
    ensures [Plain('[')] + (Plains(q + ("]" + ("(" + z))) + (LinkOf(l) + []))
      == [Plain('[')] + (Plains(q) + ([Plain(']')] + ([Plain('(')]
         + ((Plains(z) + ([Head] + (Addrs(l.target) + ([Tail] + Words(b))))) + ([Word(')')] + (Words(c) + [End]))))))
  {
    assert Plains(q + ("]" + ("(" + z))) == Plains(q) + ([Plain(']')] + ([Plain('(')] + Plains(z)));
    assert Words(l.words) == Words(b) + ([Word(')')] + Words(c));
    SwallowingPieces([Plain('[')], Plains(q), [Plain(']')], [Plain('(')], Plains(z), Addrs(l.target), Words(b),
                     [Word(')')], Words(c));
  }

  lemma SwallowingPieces(
    o: seq<Mark>, q: seq<Mark>, x: seq<Mark>, y: seq<Mark>, z: seq<Mark>, t: seq<Mark>, b: seq<Mark>,
    w: seq<Mark>, c: seq<Mark>)
    ensures o + ((q + (x + (y + z))) + ([Head] + t + ([Tail] + (b + (w + c)) + [End]) + []))
      == o + (q + (x + (y + ((z + ([Head] + (t + ([Tail] + b)))) + (w + (c + [End]))))))
  {
  }

  /** A match of the second substitution that ends in a link's words swallows the link's opening tag. */
  lemma SwallowingBreaksNesting(q: string, z: string, b: string, c: string, target: string)
    requires Simple(q) && Simple(z) && Simple(b) && Simple(c) && Simple(target) && q != ""
    requires IsWeb(target) && !IsWeb(z + ("[" + b))
    ensures !WellNested(AllMarkup(Parts(Swallowing(q, z, b, c, target))))
  {
    SwallowingUnescaped(q, z, b, c, target);
    SimpleNests(Swallowing(q, z, b, c, target));
    SwallowingIsMarked(q, z, b, c, target);
    SwallowingMarks(q, z, WholeLink(b + (")" + c), target), b, c);
    SwallowingIsCut(q, z, b, c, target);
  }

  lemma SwallowingIsMarked(q: string, z: string, b: string, c: string, target: string)
    requires Simple(q) && Simple(z) && Simple(b) && Simple(c) && Simple(target) && q != ""
    requires IsWeb(target) && !IsWeb(z + ("[" + b))
    ensures Marked(Swallowing(q, z, b, c, target))
      == [Plain('[')] + (Plains(q + ("]" + ("(" + z))) + (LinkOf(WholeLink(b + (")" + c), target)) + []))
  {
    MarkedNoLink(q, z + ("[" + b), c + ("]" + ("(" + (target + (")" + "")))));
    SwallowingIs(q, z, b, c, target);
    MarkedPasses(q + ("]" + ("(" + z)), WebLink(b + (")" + c), target, ""));
    MarkedLink(b + (")" + c), target, "");
    assert Marked("") == [];
  }

  lemma SwallowingIsCut(q: string, z: string, b: string, c: string, target: string)
    requires Simple(q) && Simple(z) && Simple(b) && Simple(target) && q != ""
    ensures !CutFree([Plain('[')] + (Plains(q) + ([Plain(']')] + ([Plain('(')]
         + ((Plains(z) + ([Head] + (Addrs(target) + ([Tail] + Words(b))))) + ([Word(')')] + (Words(c) + [End])))))))
  {
    WithoutChars(q, ']');
    SwallowedInside(z, target, b);
    CutsHere(Plains(q), Plains(z) + ([Head] + (Addrs(target) + ([Tail] + Words(b)))), Words(c) + [End],
             Plain('['), Plain(']'), Plain('('), Word(')'));
  }

  lemma SwallowedInside(z: string, target: string, b: string)
    requires ')' !in z && ')' !in target && ')' !in b
    ensures Without(Plains(z) + ([Head] + (Addrs(target) + ([Tail] + Words(b)))), ')')
  {
    WithoutChars(z, ')');
    WithoutChars(target, ')');
    WithoutChars(b, ')');
    WithoutJoin([Tail], Words(b), ')');
    WithoutJoin(Addrs(target), [Tail] + Words(b), ')');
    WithoutJoin([Head], Addrs(target) + ([Tail] + Words(b)), ')');
    WithoutJoin(Plains(z), [Head] + (Addrs(target) + ([Tail] + Words(b))), ')');
  }

  lemma SwallowingUnescaped(q: string, z: string, b: string, c: string, target: string)
    requires Unescaped(q) && Unescaped(z) && Unescaped(b) && Unescaped(c) && Unescaped(target)
    ensures Unescaped(Swallowing(q, z, b, c, target))
  {
    UnescapedJoin("[", b);
    UnescapedJoin(z, "[" + b);
    UnescapedJoin(")", "");
    UnescapedJoin(target, ")" + "");
    UnescapedJoin("(", target + (")" + ""));
    UnescapedJoin("]", "(" + (target + (")" + "")));
    UnescapedJoin(c, "]" + ("(" + (target + (")" + ""))));
    WebLinkUnescaped(q, z + ("[" + b), c + ("]" + ("(" + (target + (")" + "")))));
  }

  /** A link whose address holds an opening bracket before one whose address holds `](`. */
  function Straddling(a: string, s: string, y: string, b: string, t: string, w: string, c: string): string {
    WebLink(a, s + ("[" + y), WebLink(b, t + ("](" + w), c + ")"))
  }

  function StraddledWords(a: string, y: string, t: string): seq<Mark> {
    Addrs(y) + ([Tail] + (Words(a) + ([End] + ([Head] + Addrs(t)))))
  }

  function StraddledInside(b: string, w: string, c: string): seq<Mark> {
    Addrs(w) + ([Tail] + (Words(b) + ([End] + Plains(c))))
  }

  lemma StraddlingMarks(k: Link, l: Link, s: string, y: string, t: string, w: string, c: string)
    requires k.target == s + ("[" + y) && l.target == t + ("](" + w)
    ensures LinkOf(k) + (LinkOf(l) + Plains(c + ")"))
      == ([Head] + Addrs(s)) + ([Addr('[')] + (StraddledWords(k.words, y, t) + ([Addr(']')]
         + ([Addr('(')] + (StraddledInside(l.words, w, c) + ([Plain(')')] + []))))))
  {
    var rest := [Addr(']')] + ([Addr('(')] + (StraddledInside(l.words, w, c) + ([Plain(')')] + [])));
    assert Addrs(k.target) == Addrs(s) + ([Addr('[')] + Addrs(y));
    assert Plains(c + ")") == Plains(c) + [Plain(')')];
    assert Addrs(l.target) == Addrs(t) + ([Addr(']')] + ([Addr('(')] + Addrs(w)));
    SecondPieces(Addrs(t), [Addr(']')], [Addr('(')], Addrs(w), Words(l.words), Plains(c), [Plain(')')]);
    FirstPieces(Addrs(s), [Addr('[')], Addrs(y), Words(k.words), Addrs(t), rest);
  }

  lemma SecondPieces(t: seq<Mark>, x: seq<Mark>, y: seq<Mark>, w: seq<Mark>, b: seq<Mark>, c: seq<Mark>, z: seq<Mark>)
    ensures [Head] + (t + (x + (y + w))) + ([Tail] + b + [End]) + (c + z)
      == [Head] + (t + (x + (y + ((w + ([Tail] + (b + ([End] + c)))) + (z + [])))))
  {
  }

  lemma FirstPieces(s: seq<Mark>, x: seq<Mark>, y: seq<Mark>, a: seq<Mark>, t: seq<Mark>, rest: seq<Mark>)
    ensures [Head] + (s + (x + y)) + ([Tail] + a + [End]) + ([Head] + (t + rest))
      == ([Head] + s) + (x + ((y + ([Tail] + (a + ([End] + ([Head] + t))))) + rest))
  {
  }

  lemma StraddledWithout(a: string, y: string, b: string, t: string, w: string, c: string)
    requires ']' !in a && ']' !in y && ']' !in t && ')' !in b && ')' !in w && ')' !in c
    ensures Without(StraddledWords(a, y, t), ']') && Without(StraddledInside(b, w, c), ')')
  {
    WithoutChars(a, ']');
    WithoutChars(y, ']');
    WithoutChars(t, ']');
    WithoutChars(b, ')');
    WithoutChars(w, ')');
    WithoutChars(c, ')');
    WithoutJoin(Words(a), [End] + ([Head] + Addrs(t)), ']');
    WithoutJoin(Addrs(y), [Tail] + (Words(a) + ([End] + ([Head] + Addrs(t)))), ']');
    WithoutJoin(Words(b), [End] + Plains(c), ')');
    WithoutJoin(Addrs(w), [Tail] + (Words(b) + ([End] + Plains(c))), ')');
  }

  lemma StraddlingIsMarked(a: string, s: string, b: string, t: string, c: string)
    requires Simple(a) && Simple(b) && Simple(c) && ')' !in s && ')' !in t && a != "" && b != "" && IsWeb(s) && IsWeb(t)
    ensures Marked(WebLink(a, s, WebLink(b, t, c + ")")))
      == LinkOf(WholeLink(a, s)) + (LinkOf(WholeLink(b, t)) + Plains(c + ")"))
  {
    MarkedLink(a, s, WebLink(b, t, c + ")"));
    MarkedLink(b, t, c + ")");
    MarkedNothing(c + ")");
  }

  lemma StraddlingIsCut(a: string, s: string, y: string, b: string, t: string, w: string, c: string)
    requires Simple(a) && Simple(s) && Simple(y) && Simple(b) && Simple(t) && Simple(w) && Simple(c)
    ensures !CutFree(([Head] + Addrs(s)) + ([Addr('[')] + (StraddledWords(a, y, t) + ([Addr(']')]
         + ([Addr('(')] + (StraddledInside(b, w, c) + ([Plain(')')] + [])))))))
  {
    WithoutChars(s, '[');
    WithoutJoin([Head], Addrs(s), '[');
    StraddledWithout(a, y, b, t, w, c);
    CutsHere(StraddledWords(a, y, t), StraddledInside(b, w, c), [], Addr('['), Addr(']'), Addr('('), Plain(')'));
    CutFreePasses([Head] + Addrs(s), [Addr('[')] + (StraddledWords(a, y, t) + ([Addr(']')]
         + ([Addr('(')] + (StraddledInside(b, w, c) + ([Plain(')')] + []))))));
  }

  /** A match of the second substitution that begins in an address cuts that address short. */
  lemma StraddlingBreaksNesting(a: string, s: string, y: string, b: string, t: string, w: string, c: string)
    requires Simple(a) && Simple(s) && Simple(y) && Simple(b) && Simple(t) && Simple(w) && Simple(c)
    requires a != "" && b != "" && IsWeb(s + ("[" + y)) && IsWeb(t + ("](" + w))
    ensures !WellNested(AllMarkup(Parts(Straddling(a, s, y, b, t, w, c))))
  {
    StraddlingUnescaped(a, s, y, b, t, w, c);
    SimpleNests(Straddling(a, s, y, b, t, w, c));
    StraddlingIsMarked(a, s + ("[" + y), b, t + ("](" + w), c);
    StraddlingMarks(WholeLink(a, s + ("[" + y)), WholeLink(b, t + ("](" + w)), s, y, t, w, c);
    StraddlingIsCut(a, s, y, b, t, w, c);
  }

  lemma StraddlingUnescaped(a: string, s: string, y: string, b: string, t: string, w: string, c: string)
    requires Unescaped(a) && Unescaped(s) && Unescaped(y) && Unescaped(b) && Unescaped(t) && Unescaped(w)
      && Unescaped(c)
    ensures Unescaped(Straddling(a, s, y, b, t, w, c))
  {
    UnescapedJoin("[", y);
    UnescapedJoin(s, "[" + y);
    UnescapedJoin("](", w);
    UnescapedJoin(t, "](" + w);
    UnescapedJoin(c, ")");
    WebLinkUnescaped(b, t + ("](" + w), c + ")");
    WebLinkUnescaped(a, s + ("[" + y), WebLink(b, t + ("](" + w), c + ")"));
  }

  // ---------------------------------------------------------------- one text for each family

  lemma Pieces()
    ensures Simple("") && Simple("a") && Simple("b") && Simple("c") && Simple("q") && Simple("w")
      && Simple("y") && Simple("z ")
  {
  }

  lemma QuoteExample()
    ensures !WellNested(AllMarkup(Parts("[a](http://x\"y)")))
  {
    var target := "http://x\"y";
    Pieces();
    assert "" + WebLink("a", target, "") == "[a](http://x\"y)";
    TargetBreaksNesting("", "a", target, "");
  }

  lemma StarExample()
    ensures !WellNested(AllMarkup(Parts("[a](http://x*y)")))
  {
    var target := "http://x*y";
    Pieces();
    assert "" + WebLink("a", target, "") == "[a](http://x*y)";
    TargetBreaksNesting("", "a", target, "");
  }

  lemma CrossingExample()
    ensures !WellNested(AllMarkup(Parts("*[a*](http://x)")))
  {
    Pieces();
    assert "*" + WebLink("a" + "*", "http://x", "") == "*[a*](http://x)";
    CrossingBreaksNesting("a", "http://x");
  }

  lemma SwallowingText()
    ensures Swallowing("q", "z ", "b", "c", "http://x") == "[q](z [b)c](http://x)"
  {
    assert WebLink("b" + (")" + "c"), "http://x", "") == "[b)c](http://x)";
  }

  lemma SwallowingExample()
    ensures !WellNested(AllMarkup(Parts("[q](z [b)c](http://x)")))
  {
    Pieces();
    SwallowingText();
    SwallowingBreaksNesting("q", "z ", "b", "c", "http://x");
  }

  lemma StraddlingText()
    ensures Straddling("a", "http://x", "y", "b", "http://x", "w", "c") == "[a](http://x[y)[b](http://x](w)c)"
  {
    var second := WebLink("b", "http://x" + ("](" + "w"), "c" + ")");
    assert second == "[b](http://x](w)c)";
    assert WebLink("a", "http://x" + ("[" + "y"), second) == "[a](http://x[y)" + second;
  }

  lemma WebGoesOn(target: string, more: string)
    requires IsWeb(target)
    ensures IsWeb(target + more)
  {
    Cut(target, more);
  }

  lemma StraddlingExample()
    ensures !WellNested(AllMarkup(Parts("[a](http://x[y)[b](http://x](w)c)")))
  {
    Pieces();
    StraddlingText();
    WebGoesOn("http://x", "[" + "y");
    WebGoesOn("http://x", "](" + "w");
    StraddlingBreaksNesting("a", "http://x", "y", "b", "http://x", "w", "c");
  }
}
