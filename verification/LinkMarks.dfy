/**
  The two link substitutions of `inline` in tools/md-to-pdf.py, with every piece of the markup
  they write kept apart from the text: what is plain, what is a link's address, what its words.
 */
module LinkMarks {
  import opened Options
  import opened Text
  import opened Inline

  datatype Mark = Plain(c: char) | Head | Addr(c: char) | Tail | Word(c: char) | End

  function TextOf(m: Mark): (s: string)
    ensures s != ""
  {
    match m
    case Head => HREF
    case Tail => HREF_END
    case End => "</link>"
    case _ => [m.c]
  }

  /** The string that marks stand for. */
  function Flat(ms: seq<Mark>): string { if ms == [] then "" else TextOf(ms[0]) + Flat(ms[1..]) }

  function Plains(s: string): seq<Mark> { Mapped(c => Plain(c), s) }

  function Addrs(s: string): seq<Mark> { Mapped(c => Addr(c), s) }

  function Words(s: string): seq<Mark> { Mapped(c => Word(c), s) }

  function LinkOf(l: Link): seq<Mark> { [Head] + Addrs(l.target) + ([Tail] + Words(l.words) + [End]) }

  /** The first substitution: links to the web. */
  function Marked(s: string): seq<Mark>
    decreases |s|
  {
    if s == "" then []
    else
      var l := LinkAt(s, true);
      if l.Some? then LinkOf(l.value) + Marked(s[l.value.length..]) else [Plain(s[0])] + Marked(s[1..])
  }

  predicate CharIs(m: Mark, c: char) { !m.Head? && !m.Tail? && !m.End? && m.c == c }

  /** Where the character first occurs, or the length. */
  function MarkIndex(ms: seq<Mark>, c: char): (k: nat)
    ensures k <= |ms| && (k < |ms| ==> CharIs(ms[k], c))
    ensures forall i :: 0 <= i < k ==> !CharIs(ms[i], c)
  {
    if ms == [] || CharIs(ms[0], c) then 0 else 1 + MarkIndex(ms[1..], c)
  }

  /** A match of the second substitution: brackets from 0 to `close`, parentheses from there to `length`. */
  datatype Match = Match(close: nat, length: nat)

  function MatchAt(ms: seq<Mark>): (r: Option<Match>)
    ensures r.Some? ==> 1 < r.value.close && r.value.close + 3 < r.value.length <= |ms|
    ensures r.Some? ==> CharIs(ms[0], '[') && CharIs(ms[r.value.close], ']') && CharIs(ms[r.value.length - 1], ')')
    ensures r.Some? ==> forall i :: 0 < i < r.value.close ==> !CharIs(ms[i], ']')
  {
    if ms == [] || !CharIs(ms[0], '[') then None
    else
      var close := 1 + MarkIndex(ms[1..], ']');
      if close == 1 || close + 1 >= |ms| || !CharIs(ms[close + 1], '(') then None
      else EndIn(ms[close + 2..], close)
  }

  function EndIn(inside: seq<Mark>, close: nat): (r: Option<Match>)
    ensures r.Some? ==>
      && r.value.close == close && close + 3 < r.value.length <= close + 2 + |inside|
      && CharIs(inside[r.value.length - close - 3], ')')
  {
    var end := MarkIndex(inside, ')');
    if end == 0 || end == |inside| then None else Some(Match(close, close + 2 + end + 1))
  }

  /** The second substitution: any other link is replaced by its words. */
  function SubMarks(ms: seq<Mark>): seq<Mark>
    decreases |ms|
  {
    if ms == [] then []
    else
      var x := MatchAt(ms);
      if x.Some? then ms[1..x.value.close] + SubMarks(ms[x.value.length..]) else [ms[0]] + SubMarks(ms[1..])
  }

  // ---------------------------------------------------------------- the marks are the strings

  lemma {:induction false} FlatAppend(a: seq<Mark>, b: seq<Mark>)
    ensures Flat(a + b) == Flat(a) + Flat(b)
  {
    if a == [] {
      assert a + b == b;
    } else {
      assert (a + b)[1..] == a[1..] + b;
      FlatAppend(a[1..], b);
      Concat(TextOf(a[0]), Flat(a[1..]), Flat(b));
    }
  }

  lemma FlatOne(m: Mark)
    ensures Flat([m]) == TextOf(m)
  {
    assert [m][1..] == [] && TextOf(m) + "" == TextOf(m);
  }

  lemma {:induction false} FlatMapped(mark: char -> Mark, s: string)
    requires forall c :: TextOf(mark(c)) == [c]
    ensures Flat(Mapped(mark, s)) == s
  {
    if s != "" {
      assert Mapped(mark, s)[1..] == Mapped(mark, s[1..]);
      FlatMapped(mark, s[1..]);
      assert s == [s[0]] + s[1..];
    }
  }

  lemma FlatLink(l: Link)
    ensures Flat(LinkOf(l)) == LinkMarkup(l, true)
  {
    FlatMapped(c => Addr(c), l.target);
    FlatMapped(c => Word(c), l.words);
    FlatOne(Head);
    FlatOne(Tail);
    FlatOne(End);
    FlatAppend([Head], Addrs(l.target));
    FlatAppend([Tail], Words(l.words));
    FlatAppend([Tail] + Words(l.words), [End]);
    FlatAppend([Head] + Addrs(l.target), [Tail] + Words(l.words) + [End]);
    LinkPieces(HREF, l.target, HREF_END, l.words, "</link>");
  }

  lemma LinkPieces(a: string, b: string, c: string, d: string, e: string)
    ensures a + b + (c + d + e) == (a + b + c) + d + e
  {
  }

  lemma {:induction false} MarkedIsLinked(s: string)
    ensures Flat(Marked(s)) == SubLinks(s, true)
    decreases |s|
  {
    if s != "" {
      var l := LinkAt(s, true);
      if l.Some? {
        MarkedIsLinked(s[l.value.length..]);
        FlatLink(l.value);
        FlatAppend(LinkOf(l.value), Marked(s[l.value.length..]));
      } else {
        MarkedIsLinked(s[1..]);
        FlatOne(Plain(s[0]));
        FlatAppend([Plain(s[0])], Marked(s[1..]));
      }
    }
  }

  /** No tag holds a bracket or a parenthesis. */
  predicate IsBracket(c: char) { c == '[' || c == ']' || c == '(' || c == ')' }

  lemma TagsHoldNoBracket(m: Mark, c: char)
    requires IsBracket(c)
    ensures c in TextOf(m) <==> CharIs(m, c)
    ensures CharIs(m, c) ==> TextOf(m) == [c]
    ensures TextOf(m)[0] == c <==> CharIs(m, c)
  {
  }

  lemma {:induction false} FlatIndex(ms: seq<Mark>, c: char)
    requires IsBracket(c)
    ensures var k := MarkIndex(ms, c);
      IndexOf(Flat(ms), c) == |Flat(ms[..k])| && Flat(ms) == Flat(ms[..k]) + Flat(ms[k..])
    decreases |ms|
  {
    var k := MarkIndex(ms, c);
    assert ms == ms[..k] + ms[k..];
    FlatAppend(ms[..k], ms[k..]);
    NoneBefore(ms[..k], c);
    if k < |ms| {
      TagsHoldNoBracket(ms[k], c);
      FirstThere(Flat(ms[..k]), Flat(ms[k..]), c);
    } else {
      assert ms[..k] == ms;
      assert c !in Flat(ms);
    }
  }

  lemma {:induction false} NoneBefore(ms: seq<Mark>, c: char)
    requires IsBracket(c) && forall i :: 0 <= i < |ms| ==> !CharIs(ms[i], c)
    ensures c !in Flat(ms)
  {
    if ms != [] {
      TagsHoldNoBracket(ms[0], c);
      NoneBefore(ms[1..], c);
    }
  }

  lemma FirstThere(a: string, b: string, c: char)
    requires c !in a && b != "" && b[0] == c
    ensures IndexOf(a + b, c) == |a|
  {
    Cut(a, b);
    assert (a + b)[|a|] == b[0];
    IndexIs(a + b, c, |a|);
  }

  lemma {:induction false} FlatEmpty(ms: seq<Mark>)
    ensures Flat(ms) == "" <==> ms == []
  {
  }

  /** Text without an opening bracket is passed on. */
  lemma {:induction false} SubLinksSkips(a: string, rest: string, web: bool)
    requires '[' !in a
    ensures SubLinks(a + rest, web) == a + SubLinks(rest, web)
  {
    if a == "" {
      assert a + rest == rest;
    } else {
      assert (a + rest)[1..] == a[1..] + rest && (a + rest)[0] == a[0];
      SubLinksSkips(a[1..], rest, web);
      Concat([a[0]], a[1..], SubLinks(rest, web));
      assert [a[0]] + a[1..] == a;
    }
  }

  // ---------------------------------------------------------------- the second substitution on marks

  /** `flat` splits `ms` at the first bracket `c`. */
  predicate Splits(flat: seq<Mark> -> string, ms: seq<Mark>, c: char) {
    var k := MarkIndex(ms, c);
    && IndexOf(flat(ms), c) == |flat(ms[..k])| && (flat(ms[..k]) == "" <==> k == 0)
    && if k == |ms| then |flat(ms)| == |flat(ms[..k])| else flat(ms) == flat(ms[..k]) + ([c] + flat(ms[k + 1..]))
  }

  /** `flat` starts with the bracket `c` just when `ms` does. */
  predicate Starts(flat: seq<Mark> -> string, ms: seq<Mark>, c: char) {
    && (flat(ms) == "" <==> ms == [])
    && (ms != [] ==> (flat(ms)[0] == c <==> CharIs(ms[0], c)))
    && (ms != [] && CharIs(ms[0], c) ==> flat(ms) == [c] + flat(ms[1..]))
  }

  ghost predicate Spells(flat: seq<Mark> -> string) {
    && (forall ms: seq<Mark>, c: char :: IsBracket(c) ==> Splits(flat, ms, c))
    && (forall ms: seq<Mark>, c: char :: IsBracket(c) ==> Starts(flat, ms, c))
  }

  function Spell(ms: seq<Mark>): string { Flat(ms) }

  lemma SpellSpells()
    ensures Spells(Spell)
  {
    forall ms: seq<Mark>, c: char | IsBracket(c) ensures Splits(Spell, ms, c) && Starts(Spell, ms, c) {
      SpellSplits(ms, c);
      SpellStarts(ms, c);
    }
  }

  lemma SpellSplits(ms: seq<Mark>, c: char)
    requires IsBracket(c)
    ensures Splits(Spell, ms, c)
  {
    var k := MarkIndex(ms, c);
    FlatIndex(ms, c);
    FlatEmpty(ms[..k]);
    if k == |ms| {
      assert ms[..k] == ms;
    } else {
      FlatAtBracket(ms, k, c);
    }
  }

  lemma FlatAtBracket(ms: seq<Mark>, k: nat, c: char)
    requires IsBracket(c) && k < |ms| && CharIs(ms[k], c)
    ensures Flat(ms[k..]) == [c] + Flat(ms[k + 1..])
  {
    TagsHoldNoBracket(ms[k], c);
    assert ms[k..][1..] == ms[k + 1..];
  }

  lemma SpellStarts(ms: seq<Mark>, c: char)
    requires IsBracket(c)
    ensures Starts(Spell, ms, c)
  {
    FlatEmpty(ms);
    if ms != [] { TagsHoldNoBracket(ms[0], c); }
  }

  /** A match of marks and a link in the string they stand for: the same words, and the same rest. */
  predicate Same(x: Option<Match>, l: Option<Link>, ms: seq<Mark>, flat: seq<Mark> -> string) {
    if x.None? || l.None? then x.None? && l.None?
    else
      && x.value.close <= x.value.length <= |ms| && 0 < x.value.close && l.value.length <= |flat(ms)|
      && l.value.words == flat(ms[1..x.value.close]) && flat(ms)[l.value.length..] == flat(ms[x.value.length..])
  }

  lemma NoClose(s: string, w: string)
    requires s == "[" + w && IndexOf(w, ']') == |w|
    ensures BracketsAt(s).None?
  {
    Cut("[", w);
  }

  lemma OpensAt(s: string, w: string, b: string)
    requires s == "[" + (w + ("]" + b)) && IndexOf(w + ("]" + b), ']') == |w|
    ensures BracketsAt(s) == if w == "" || b == "" || b[0] != '(' then None else TargetIn(b[1..], w, |w| + 3)
  {
    Bracketed(s, w, b);
    if b != "" { AfterBracket(s, w, b); }
  }

  lemma AfterBracket(s: string, w: string, b: string)
    requires s == "[" + (w + ("]" + b)) && b != ""
    ensures |w| + 3 <= |s| && s[|w| + 3..] == b[1..]
  {
  }

  lemma Bracketed(s: string, w: string, b: string)
    requires s == "[" + (w + ("]" + b))
    ensures s[1..] == w + ("]" + b) && s[1..][..|w|] == w && s[1..1 + |w|] == w && s[|w| + 2..] == b
    ensures |s| == |w| + 2 + |b| && (b != "" ==> s[|w| + 2] == b[0])
  {
    Framed("[", w, "]", b);
  }

  lemma Framed(o: string, w: string, c: string, b: string)
    requires |o| == |c| == 1
    ensures var s := o + (w + (c + b));
      && |s| == |w| + 2 + |b| && s[1..] == w + (c + b) && s[1..][..|w|] == w && s[1..1 + |w|] == w
      && s[|w| + 2..] == b && (b != "" ==> s[|w| + 2] == b[0])
  {
    Cut(o, w + (c + b));
    Cut(w, c + b);
  }

  lemma TailSlices(ms: seq<Mark>, k: nat)
    requires k + 2 <= |ms|
    ensures ms[1..][..k] == ms[1..k + 1] && ms[1..][k + 1..] == ms[k + 2..]
  {
  }

  /** Matching marks is matching the string they stand for. */
  lemma MatchIs(ms: seq<Mark>, flat: seq<Mark> -> string)
    requires Spells(flat) && ms != [] && CharIs(ms[0], '[')
    ensures Same(MatchAt(ms), BracketsAt(flat(ms)), ms, flat)
  {
    var a := ms[1..];
    var k := MarkIndex(a, ']');
    assert Starts(flat, ms, '[') && Splits(flat, a, ']');
    if k == |a| {
      NoClose(flat(ms), flat(a));
    } else {
      TailSlices(ms, k);
      MatchFrom(ms, k, ms[1..k + 1], ms[k + 2..], flat);
    }
  }

  lemma MatchFrom(ms: seq<Mark>, k: nat, words: seq<Mark>, rest: seq<Mark>, flat: seq<Mark> -> string)
    requires Spells(flat) && k + 2 <= |ms| && words == ms[1..k + 1] && rest == ms[k + 2..]
    requires CharIs(ms[0], '[') && MarkIndex(ms[1..], ']') == k && (flat(words) == "" <==> k == 0)
    requires flat(ms) == "[" + (flat(words) + ("]" + flat(rest)))
    requires IndexOf(flat(words) + ("]" + flat(rest)), ']') == |flat(words)|
    ensures Same(MatchAt(ms), BracketsAt(flat(ms)), ms, flat)
  {
    OpensAt(flat(ms), flat(words), flat(rest));
    MatchAtIs(ms, k, rest);
    assert Starts(flat, rest, '(');
    if k > 0 && rest != [] && CharIs(rest[0], '(') { MatchTarget(ms, words, rest[1..], flat); }
  }

  lemma MatchAtIs(ms: seq<Mark>, k: nat, rest: seq<Mark>)
    requires ms != [] && CharIs(ms[0], '[') && MarkIndex(ms[1..], ']') == k && k + 2 <= |ms| && rest == ms[k + 2..]
    ensures MatchAt(ms) == if k == 0 || rest == [] || !CharIs(rest[0], '(') then None else EndIn(rest[1..], k + 1)
    ensures rest != [] ==> rest[1..] == ms[k + 3..]
  {
  }

  lemma MatchTarget(ms: seq<Mark>, words: seq<Mark>, inside: seq<Mark>, flat: seq<Mark> -> string)
    requires Spells(flat) && |words| + 3 <= |ms| && words == ms[1..|words| + 1] && inside == ms[|words| + 3..]
    requires flat(ms) == "[" + (flat(words) + ("]" + ("(" + flat(inside))))
    ensures Same(EndIn(inside, |words| + 1), TargetIn(flat(inside), flat(words), |flat(words)| + 3), ms, flat)
  {
    var e := MarkIndex(inside, ')');
    assert Splits(flat, inside, ')');
    if 0 < e < |inside| {
      var t, rest := flat(inside[..e]), flat(inside[e + 1..]);
      TargetFound(flat(inside), t, rest, flat(words), |flat(words)| + 3);
      TargetEnds(flat(words), t, rest, flat(ms));
      TargetMatches(ms, |words| + 1, inside, e, t, |flat(words)| + 4 + |t|, flat);
    } else {
      NoTarget(flat(inside), flat(words), |flat(words)| + 3);
    }
  }

  lemma NoTarget(inside: string, words: string, lead: nat)
    requires IndexOf(inside, ')') == 0 || IndexOf(inside, ')') == |inside|
    ensures TargetIn(inside, words, lead).None?
  {
  }

  lemma TargetMatches(ms: seq<Mark>, c: nat, inside: seq<Mark>, e: nat, t: string, m: nat, flat: seq<Mark> -> string)
    requires 0 < c && c + 2 <= |ms| && inside == ms[c + 2..]
    requires 0 < e < |inside| && MarkIndex(inside, ')') == e
    requires m <= |flat(ms)| && flat(ms)[m..] == flat(inside[e + 1..])
    ensures EndIn(inside, c) == Some(Match(c, c + 3 + e))
    ensures Same(Some(Match(c, c + 3 + e)), Some(Link(flat(ms[1..c]), t, m)), ms, flat)
  {
    EndInIs(inside, c, e);
    RestOfInside(ms, c, inside, e);
    SameIs(ms, flat, c, c + 3 + e, flat(ms[1..c]), t, m);
  }

  lemma RestOfInside(ms: seq<Mark>, c: nat, inside: seq<Mark>, e: nat)
    requires c + 2 <= |ms| && inside == ms[c + 2..] && e < |inside|
    ensures c + 3 + e <= |ms| && inside[e + 1..] == ms[c + 3 + e..]
  {
  }

  lemma EndInIs(inside: seq<Mark>, c: nat, e: nat)
    requires 0 < e < |inside| && MarkIndex(inside, ')') == e
    ensures EndIn(inside, c) == Some(Match(c, c + 3 + e))
  {
  }

  lemma SameIs(ms: seq<Mark>, flat: seq<Mark> -> string, c: nat, n: nat, w: string, t: string, m: nat)
    requires 0 < c <= n <= |ms| && m <= |flat(ms)| && w == flat(ms[1..c]) && flat(ms)[m..] == flat(ms[n..])
    ensures Same(Some(Match(c, n)), Some(Link(w, t, m)), ms, flat)
  {
  }

  lemma TargetFound(inside: string, t: string, rest: string, words: string, lead: nat)
    requires inside == t + (")" + rest) && IndexOf(inside, ')') == |t|
    ensures TargetIn(inside, words, lead) == if t == "" then None else Some(Link(words, t, lead + |t| + 1))
  {
    assert inside[..|t|] == t && |inside| > |t|;
  }

  lemma TargetEnds(w: string, t: string, rest: string, s: string)
    requires s == "[" + (w + ("]" + ("(" + (t + (")" + rest)))))
    ensures |w| + 4 + |t| <= |s| && s[|w| + 4 + |t|..] == rest
  {
    var head := "[" + w + "](" + t + ")";
    assert s == head + rest;
    Cut(head, rest);
  }

  lemma {:induction false} SubMarksAreLinks(ms: seq<Mark>)
    ensures Flat(SubMarks(ms)) == SubLinks(Flat(ms), false)
    decreases |ms|
  {
    if ms != [] {
      if CharIs(ms[0], '[') {
        SpellSpells();
        MatchIs(ms, Spell);
        TagsHoldNoBracket(ms[0], '[');
        var x := MatchAt(ms);
        if x.Some? {
          SubMarksAreLinks(ms[x.value.length..]);
          FlatAppend(ms[1..x.value.close], SubMarks(ms[x.value.length..]));
          TakeLink(Flat(ms));
        } else {
          SubMarksAreLinks(ms[1..]);
          FlatOne(ms[0]);
          FlatAppend([ms[0]], SubMarks(ms[1..]));
          NoLinkHere(Flat(ms), Flat(ms[1..]));
        }
      } else {
        TagsHoldNoBracket(ms[0], '[');
        SubMarksAreLinks(ms[1..]);
        FlatOne(ms[0]);
        FlatAppend([ms[0]], SubMarks(ms[1..]));
        SubLinksSkips(TextOf(ms[0]), Flat(ms[1..]), false);
      }
    }
  }

  lemma TakeLink(s: string)
    requires BracketsAt(s).Some?
    ensures SubLinks(s, false) == BracketsAt(s).value.words + SubLinks(s[BracketsAt(s).value.length..], false)
  {
  }

  lemma NoLinkHere(s: string, rest: string)
    requires BracketsAt(s).None? && s == "[" + rest
    ensures SubLinks(s, false) == "[" + SubLinks(rest, false)
  {
    Cut("[", rest);
  }

  // ---------------------------------------------------------------- whole tags

  /** Where a reader of marks is: outside links, in an opening tag, in a link's words, or in words whose tag is gone. */
  datatype Place = Out | InTag | InWords | Lost

  /** What can follow after substitution. */
  function Next(p: Place, m: Mark): Option<Place> {
    match m
    case Plain(_) => if p.InWords? || p.Lost? then None else Some(Out)
    case Head => if p.InWords? || p.Lost? then None else Some(InTag)
    case Addr(_) => if p.InTag? then Some(InTag) else None
    case Tail => if p.InTag? then Some(InWords) else None
    case Word(_) => Some(if p.InWords? then InWords else Lost)
    case End => Some(Out)
  }

  /** What follows where every tag is whole. */
  function StrictNext(p: Place, m: Mark): Option<Place> {
    match m
    case Plain(_) => if p.Out? then Some(Out) else None
    case Head => if p.Out? then Some(InTag) else None
    case Addr(_) => if p.InTag? then Some(InTag) else None
    case Tail => if p.InTag? then Some(InWords) else None
    case Word(_) => if p.InWords? then Some(InWords) else None
    case End => if p.InWords? then Some(Out) else None
  }

  function After(next: (Place, Mark) -> Option<Place>, p: Place, ms: seq<Mark>): Option<Place>
    decreases |ms|
  {
    if ms == [] then Some(p)
    else
      var q := next(p, ms[0]);
      if q.None? then None else After(next, q.value, ms[1..])
  }

  predicate Shaped(ms: seq<Mark>, p: Place) {
    var q := After(Next, p, ms);
    q.Some? && !q.value.InWords? && !q.value.Lost?
  }

  predicate Whole(ms: seq<Mark>, p: Place) { After(StrictNext, p, ms) == Some(Out) }

  lemma {:induction false} AfterAppend(next: (Place, Mark) -> Option<Place>, p: Place, a: seq<Mark>, b: seq<Mark>)
    ensures var q := After(next, p, a);
      After(next, p, a + b) == if q.None? then None else After(next, q.value, b)
    decreases |a|
  {
    if a == [] {
      assert a + b == b;
    } else {
      assert (a + b)[1..] == a[1..] + b;
      var q := next(p, a[0]);
      if q.Some? { AfterAppend(next, q.value, a[1..], b); }
    }
  }

  /** A run of marks that all keep the reader where it is. */
  lemma {:induction false} AfterRun(next: (Place, Mark) -> Option<Place>, p: Place, ms: seq<Mark>)
    requires forall i :: 0 <= i < |ms| ==> next(p, ms[i]) == Some(p)
    ensures After(next, p, ms) == Some(p)
  {
    if ms != [] { AfterRun(next, p, ms[1..]); }
  }

  lemma LinkIsWhole(l: Link)
    ensures After(StrictNext, Out, LinkOf(l)) == Some(Out)
  {
    AfterRun(StrictNext, InTag, Addrs(l.target));
    AfterRun(StrictNext, InWords, Words(l.words));
    assert [Head][1..] == [] && [Tail][1..] == [] && [End][1..] == [];
    AfterAppend(StrictNext, Out, [Head], Addrs(l.target));
    AfterAppend(StrictNext, InTag, [Tail], Words(l.words));
    AfterAppend(StrictNext, InTag, [Tail] + Words(l.words), [End]);
    AfterAppend(StrictNext, Out, [Head] + Addrs(l.target), [Tail] + Words(l.words) + [End]);
  }

  lemma {:induction false} MarkedIsWhole(s: string)
    ensures Whole(Marked(s), Out)
    decreases |s|
  {
    if s != "" {
      var l := LinkAt(s, true);
      if l.Some? {
        MarkedIsWhole(s[l.value.length..]);
        LinkIsWhole(l.value);
        AfterAppend(StrictNext, Out, LinkOf(l.value), Marked(s[l.value.length..]));
      } else {
        MarkedIsWhole(s[1..]);
        assert ([Plain(s[0])] + Marked(s[1..]))[1..] == Marked(s[1..]);
      }
    }
  }
}
