/**
  When the output of `inline` in tools/md-to-pdf.py is well-nested markup: a condition on the text,
  exact for every text.
 */
module InlineNesting {
  import opened Options
  import opened Text
  import opened Escape
  import opened Emphasis
  import opened Inline
  import opened LinkMarks
  import opened LinkCuts
  import opened MarkupReader

  // ---------------------------------------------------------------- the condition

  /** How many asterisks `ms` starts with. */
  function StarRun(ms: seq<Mark>): (n: nat)
    ensures n <= |ms| && (n < |ms| ==> !CharIs(ms[n], '*'))
    ensures forall i :: 0 <= i < n ==> CharIs(ms[i], '*')
  {
    if ms == [] || !CharIs(ms[0], '*') then 0 else 1 + StarRun(ms[1..])
  }

  /** No address holds a quote or an asterisk. */
  predicate CleanAddrs(ms: seq<Mark>) {
    forall i :: 0 <= i < |ms| && ms[i].Addr? ==> ms[i].c != '"' && ms[i].c != '*'
  }

  /**
    The emphasis open where a link's words begin is never closed inside them, and it is all that is
    open where they end.  `floor` is the height of the stack where the current words began.
   */
  predicate Level(ms: seq<Mark>, stack: seq<Kind>, floor: Option<nat>)
    decreases |ms|
  {
    if ms == [] then true
    else if CharIs(ms[0], '*') then
      var turn := Turn(stack, StarRun(ms));
      StaysAbove(turn.0, stack, floor) && Level(ms[StarRun(ms)..], turn.1, floor)
    else
      match ms[0]
      case Tail => Level(ms[1..], stack, Some(|stack|))
      case End => floor == Some(|stack|) && Level(ms[1..], stack, None)
      case _ => Level(ms[1..], stack, floor)
  }

  /** The condition on a stretch of prose. */
  predicate Sound(text: string) {
    var linked := Marked(Esc(text));
    CutFree(linked) && CleanAddrs(SubMarks(linked)) && Level(SubMarks(linked), [], None)
  }

  predicate AllSound(parts: seq<Part>) {
    forall i :: 0 <= i < |parts| && parts[i].Prose? ==> Sound(parts[i].text)
  }

  // ---------------------------------------------------------------- the condition, mark by mark

  /** The same for marks read from the middle of a text. */
  predicate Fits(ms: seq<Mark>, p: Place, stack: seq<Kind>, floor: Option<nat>) {
    Whole(ms, p) && CleanAddrs(ms) && Level(ms, stack, floor)
  }

  /** Where the reader of marks can stand before `ms`. */
  predicate Stands(ms: seq<Mark>, p: Place, stack: seq<Kind>, floor: Option<nat>) {
    && AllFine(ms) && Shaped(ms, p) && !p.InTag? && (p.InWords? <==> floor.Some?)
    && Rooted(stack, floor) && Good(stack)
  }

  function CharOf(m: Mark): char
    requires !m.Head? && !m.Tail? && !m.End?
  {
    m.c
  }

  lemma CharStep(ms: seq<Mark>, p: Place)
    requires ms != [] && !ms[0].Head? && !ms[0].Tail? && !ms[0].End? && Shaped(ms, p) && !p.InTag?
    ensures !ms[0].Addr? && Next(p, ms[0]).Some?
    ensures var q := Next(p, ms[0]).value;
      !q.InTag? && (q.InWords? <==> p.InWords?) && Shaped(ms[1..], q) && (Whole(ms, p) <==> Whole(ms[1..], q))
  {
    NeverLost(ms[1..]);
    NeverLost(ms);
  }

  lemma NeverLost(ms: seq<Mark>)
    ensures !Whole(ms, Lost)
  {
  }

  lemma CleanSplit(a: seq<Mark>, b: seq<Mark>)
    ensures CleanAddrs(a + b) <==> CleanAddrs(a) && CleanAddrs(b)
  {
    if CleanAddrs(a + b) {
      forall i | 0 <= i < |a| && a[i].Addr? ensures a[i].c != '"' && a[i].c != '*' { assert (a + b)[i] == a[i]; }
      forall i | 0 <= i < |b| && b[i].Addr? ensures b[i].c != '"' && b[i].c != '*' { assert (a + b)[|a| + i] == b[i]; }
    }
  }

  lemma CleanRest(ms: seq<Mark>)
    requires ms != [] && !ms[0].Addr?
    ensures CleanAddrs(ms) <==> CleanAddrs(ms[1..])
  {
    CleanSplit([ms[0]], ms[1..]);
    assert ms == [ms[0]] + ms[1..];
  }

  /** Past `n` asterisks. */
  lemma {:induction false} StarsStep(ms: seq<Mark>, p: Place, n: nat) returns (q: Place)
    requires n <= |ms| && (forall i :: 0 <= i < n ==> CharIs(ms[i], '*')) && Shaped(ms, p) && !p.InTag?
    ensures !q.InTag? && (q.InWords? <==> p.InWords?) && Shaped(ms[n..], q) && (Whole(ms, p) <==> Whole(ms[n..], q))
    ensures CleanAddrs(ms) <==> CleanAddrs(ms[n..])
    decreases n
  {
    if n == 0 {
      q := p;
      assert ms[0..] == ms;
    } else {
      CharStep(ms, p);
      CleanRest(ms);
      q := StarsStep(ms[1..], Next(p, ms[0]).value, n - 1);
      assert ms[1..][n - 1..] == ms[n..];
    }
  }

  lemma {:induction false} FlatStars(ms: seq<Mark>)
    ensures Run(Flat(ms)) == StarRun(ms) && Flat(ms)[StarRun(ms)..] == Flat(ms[StarRun(ms)..])
  {
    if ms != [] {
      if CharIs(ms[0], '*') {
        var rest := Flat(ms[1..]);
        FlatStars(ms[1..]);
        Cut("*", rest);
        assert ms[1..][StarRun(ms[1..])..] == ms[StarRun(ms)..];
        assert Flat(ms)[1..][StarRun(ms[1..])..] == Flat(ms)[StarRun(ms)..];
      } else {
        Cut(TextOf(ms[0]), Flat(ms[1..]));
        assert Flat(ms)[0] == TextOf(ms[0])[0] != '*';
      }
    }
  }

  // ---------------------------------------------------------------- reading marks

  /** The markup of marks with `stack` open. */
  function MarkupOf(ms: seq<Mark>, stack: seq<Kind>): string { Render(Emphasised(Flat(ms), stack)) }

  /** The markup reads well if the marks fit, and otherwise the reader fails in it. */
  predicate Reads(ms: seq<Mark>, p: Place, stack: seq<Kind>, floor: Option<nat>, rest: string)
    requires Rooted(stack, floor)
  {
    var seen := Walk(MarkupOf(ms, stack) + rest, Opened(stack, floor));
    if Fits(ms, p, stack, floor) then seen == Walk(rest, []) else !seen.0
  }

  lemma MarkupSkips(ms: seq<Mark>, text: string, after: seq<Mark>, stack: seq<Kind>)
    requires Flat(ms) == text + Flat(after) && '*' !in text
    ensures MarkupOf(ms, stack) == text + MarkupOf(after, stack)
  {
    EmphasisPasses(text, Flat(after), stack);
  }

  lemma ReadNothing(p: Place, stack: seq<Kind>, floor: Option<nat>, rest: string)
    requires Stands([], p, stack, floor)
    ensures Reads([], p, stack, floor, rest)
  {
    assert floor == None && p == Out;
    WalkCloseAll(stack, rest);
  }

  lemma ReadChar(ms: seq<Mark>, p: Place, stack: seq<Kind>, floor: Option<nat>, rest: string) returns (q: Place)
    requires ms != [] && !ms[0].Head? && !ms[0].Tail? && !ms[0].End? && !CharIs(ms[0], '*')
      && Stands(ms, p, stack, floor)
    ensures Stands(ms[1..], q, stack, floor)
    ensures Reads(ms[1..], q, stack, floor, rest) ==> Reads(ms, p, stack, floor, rest)
  {
    CharStep(ms, p);
    q := Next(p, ms[0]).value;
    CleanRest(ms);
    var text := [CharOf(ms[0])];
    assert Flat(ms) == text + Flat(ms[1..]);
    MarkupSkips(ms, text, ms[1..], stack);
    Concat(text, MarkupOf(ms[1..], stack), rest);
    assert Fine(ms[0]);
    WalkText(text, MarkupOf(ms[1..], stack) + rest, Opened(stack, floor));
  }

  lemma MarkupStars(ms: seq<Mark>, stack: seq<Kind>, rest: string)
    requires ms != [] && CharIs(ms[0], '*')
    ensures var n := StarRun(ms);
      var r := Turn(stack, n);
      MarkupOf(ms, stack) + rest == Render(r.0) + (Render(Stars(Drop(n))) + (MarkupOf(ms[n..], r.1) + rest))
  {
    var n := StarRun(ms);
    FlatStars(ms);
    EmphasisTurns(Flat(ms), stack);
    Regrouped(Render(Turn(stack, n).0), Render(Stars(Drop(n))), MarkupOf(ms[n..], Turn(stack, n).1), rest);
  }

  lemma Regrouped(a: string, b: string, c: string, d: string)
    ensures a + (b + c) + d == a + (b + (c + d))
  {
  }

  lemma FitsStars(ms: seq<Mark>, p: Place, q: Place, stack: seq<Kind>, floor: Option<nat>)
    requires ms != [] && CharIs(ms[0], '*')
    requires Whole(ms, p) <==> Whole(ms[StarRun(ms)..], q)
    requires CleanAddrs(ms) <==> CleanAddrs(ms[StarRun(ms)..])
    ensures var r := Turn(stack, StarRun(ms));
      Fits(ms, p, stack, floor) <==> StaysAbove(r.0, stack, floor) && Fits(ms[StarRun(ms)..], q, r.1, floor)
  {
  }

  lemma ReadStars(ms: seq<Mark>, p: Place, stack: seq<Kind>, floor: Option<nat>, rest: string) returns (q: Place)
    requires ms != [] && CharIs(ms[0], '*') && Stands(ms, p, stack, floor)
    ensures var n := StarRun(ms);
      var r := Turn(stack, n);
      && n > 0 && (StaysAbove(r.0, stack, floor) ==> Stands(ms[n..], q, r.1, floor))
      && if StaysAbove(r.0, stack, floor) then Reads(ms[n..], q, r.1, floor, rest) ==> Reads(ms, p, stack, floor, rest)
         else Reads(ms, p, stack, floor, rest)
  {
    var n := StarRun(ms);
    var r := Turn(stack, n);
    q := StarsStep(ms, p, n);
    TurnNests(stack, n);
    FitsStars(ms, p, q, stack, floor);
    MarkupStars(ms, stack, rest);
    WalkTurn(stack, n, MarkupOf(ms[n..], r.1) + rest, floor);
  }

  lemma ReadEnd(ms: seq<Mark>, p: Place, stack: seq<Kind>, floor: Option<nat>, rest: string)
    requires ms != [] && ms[0].End? && Stands(ms, p, stack, floor)
    ensures Stands(ms[1..], Out, stack, None)
    ensures Reads(ms[1..], Out, stack, None, rest) ==> Reads(ms, p, stack, floor, rest)
  {
    CleanRest(ms);
    MarkupSkips(ms, "</link>", ms[1..], stack);
    Concat("</link>", MarkupOf(ms[1..], stack), rest);
    WalkLinkEnd(MarkupOf(ms[1..], stack) + rest, Opened(stack, floor));
    OpenedTop(stack, floor);
    OpenedLink(stack);
  }

  // ---------------------------------------------------------------- links

  /** A link's opening tag, as far as its address goes. */
  function AddrRun(ms: seq<Mark>): (n: nat)
    ensures n <= |ms| && (n < |ms| ==> !ms[n].Addr?)
    ensures forall i :: 0 <= i < n ==> ms[i].Addr?
  {
    if ms == [] || !ms[0].Addr? then 0 else 1 + AddrRun(ms[1..])
  }

  function AddrOf(ms: seq<Mark>): (a: string)
    requires forall i :: 0 <= i < |ms| ==> ms[i].Addr?
    ensures |a| == |ms| && forall i :: 0 <= i < |ms| ==> ms[i] == Addr(a[i])
  {
    seq(|ms|, i requires 0 <= i < |ms| => ms[i].c)
  }

  lemma AddrsAre(a: string)
    ensures Flat(Addrs(a)) == a
    ensures After(Next, InTag, Addrs(a)) == Some(InTag) && After(StrictNext, InTag, Addrs(a)) == Some(InTag)
    ensures CleanAddrs(Addrs(a)) <==> '"' !in a && '*' !in a
  {
    FlatMapped(c => Addr(c), a);
    AfterRun(Next, InTag, Addrs(a));
    AfterRun(StrictNext, InTag, Addrs(a));
    assert forall i :: 0 <= i < |a| ==> Addrs(a)[i] == Addr(a[i]);
  }

  lemma {:induction false} LevelPasses(a: string, after: seq<Mark>, stack: seq<Kind>, floor: Option<nat>)
    requires '*' !in a
    ensures Level(Addrs(a) + after, stack, floor) <==> Level(after, stack, floor)
  {
    if a == "" {
      assert Addrs(a) + after == after;
    } else {
      var ms := Addrs(a) + after;
      assert ms[0] == Addr(a[0]) && ms[1..] == Addrs(a[1..]) + after;
      LevelPasses(a[1..], after, stack, floor);
    }
  }

  lemma WholeHead(ms: seq<Mark>, a: string, after: seq<Mark>)
    requires ms == [Head] + (Addrs(a) + after)
    ensures Shaped(ms, Out) <==> Shaped(after, InTag)
    ensures Whole(ms, Out) <==> Whole(after, InTag)
  {
    assert ms[1..] == Addrs(a) + after;
    AddrsAre(a);
    AfterAppend(Next, InTag, Addrs(a), after);
    AfterAppend(StrictNext, InTag, Addrs(a), after);
  }

  lemma FitsHead(ms: seq<Mark>, a: string, after: seq<Mark>, stack: seq<Kind>)
    requires ms == [Head] + (Addrs(a) + after) && (after != [] ==> !after[0].Addr?)
    ensures Fits(ms, Out, stack, None)
      <==> '"' !in a && '*' !in a && after != [] && after[0].Tail? && Fits(after[1..], InWords, stack, Some(|stack|))
  {
    WholeHead(ms, a, after);
    AddrsAre(a);
    CleanRest(ms);
    assert ms[1..] == Addrs(a) + after;
    CleanSplit(Addrs(a), after);
    if '*' !in a { LevelPasses(a, after, stack, None); }
    if after != [] && after[0].Tail? { CleanRest(after); }
  }

  lemma FlatHead(ms: seq<Mark>, a: string, after: seq<Mark>)
    requires ms == [Head] + (Addrs(a) + after)
    ensures Flat(ms) == HREF + (a + Flat(after))
  {
    assert ms[1..] == Addrs(a) + after;
    AddrsAre(a);
    FlatAppend(Addrs(a), after);
  }

  /** Fine text has no angle bracket but in its tags. */
  lemma {:induction false} FlatLeads(ms: seq<Mark>, p: Place)
    requires AllFine(ms) && Shaped(ms, p) && (p.InTag? && ms != [] ==> !ms[0].Addr? && !ms[0].Tail?)
    ensures Leads(Flat(ms))
    decreases |ms|
  {
    if ms != [] && !ms[0].Head? && !ms[0].End? {
      var q := Next(p, ms[0]).value;
      assert Fine(ms[0]);
      FlatLeads(ms[1..], q);
      Cut(TextOf(ms[0]), Flat(ms[1..]));
    } else if ms != [] {
      Cut(TextOf(ms[0]), Flat(ms[1..]));
    }
  }

  /** Emphasis adds only whole tags. */
  lemma {:induction false} EmphasisLeads(s: string, stack: seq<Kind>, rest: string)
    requires Leads(s) && AtTag(rest)
    ensures Leads(Render(Emphasised(s, stack)) + rest)
    decreases |s|
  {
    if s == "" {
      if stack == [] { assert "" + rest == rest; }
    } else if s[0] == '*' {
      EmphasisTurns(s, stack);
      TurnWrites(stack, Run(s));
    } else {
      assert s == [s[0]] + s[1..];
      EmphasisPasses([s[0]], s[1..], stack);
      if s[0] != '<' {
        EmphasisLeads(s[1..], stack, rest);
        Concat([s[0]], Render(Emphasised(s[1..], stack)), rest);
        LeadsPast([s[0]], Render(Emphasised(s[1..], stack)) + rest);
      }
    }
  }

  /** Every run of asterisks writes a tag. */
  lemma TurnWrites(stack: seq<Kind>, run: nat)
    requires run > 0
    ensures Render(Turn(stack, run).0) != "" && Render(Turn(stack, run).0)[0] == '<'
  {
    PopToTags(stack, if run == 2 then Bold else Italic);
    var tags := Turn(stack, run).0;
    assert tags != [] && !tags[0].Char?;
  }

  lemma ReadBroken(ms: seq<Mark>, a: string, after: seq<Mark>, stack: seq<Kind>, rest: string)
    requires ms == [Head] + (Addrs(a) + after) && '<' !in a && '>' !in a && AtTag(rest)
    requires '*' in a || Leads(Flat(after))
    ensures !Walk(MarkupOf(ms, stack) + rest, Opened(stack, None)).0
  {
    FlatHead(ms, a, after);
    var s := a + Flat(after);
    HeadHasNoStar(HREF);
    EmphasisPasses(HREF, s, stack);
    Concat(HREF, Render(Emphasised(s, stack)), rest);
    if '*' in a {
      AddressStars(a, Flat(after), stack, rest);
    } else {
      LeadsPast(a, Flat(after));
      EmphasisLeads(s, stack, rest);
    }
    WalkBrokenHead(Render(Emphasised(s, stack)) + rest, Opened(stack, None));
  }

  lemma HeadHasNoStar(h: string)
    requires h == HREF || h == HREF_END
    ensures '*' !in h
  {
  }

  /** An asterisk in an address puts a tag there. */
  lemma AddressStars(a: string, after: string, stack: seq<Kind>, rest: string)
    requires '*' in a && '<' !in a && '>' !in a
    ensures Leads(Render(Emphasised(a + after, stack)) + rest)
  {
    var k := IndexOf(a, '*');
    var s := a[k..] + after;
    assert a + after == a[..k] + s;
    EmphasisPasses(a[..k], s, stack);
    EmphasisTurns(s, stack);
    TurnWrites(stack, Run(s));
    Concat(a[..k], Render(Emphasised(s, stack)), rest);
    LeadsPast(a[..k], Render(Emphasised(s, stack)) + rest);
  }

  lemma MarkupHead(ms: seq<Mark>, a: string, after: seq<Mark>, stack: seq<Kind>, rest: string, e: string)
    requires ms == [Head] + (Addrs(a) + after) && after != [] && after[0].Tail? && '*' !in a && e == HREF_END
    ensures MarkupOf(ms, stack) + rest == HREF + (a + (e + (MarkupOf(after[1..], stack) + rest)))
  {
    FlatHead(ms, a, after);
    HeadHasNoStar(HREF);
    HeadHasNoStar(e);
    EmphasisPasses(HREF, a + Flat(after), stack);
    EmphasisPasses(a, Flat(after), stack);
    EmphasisPasses(e, Flat(after[1..]), stack);
    HeadPieces(HREF, a, e, MarkupOf(after[1..], stack), rest);
  }

  lemma HeadPieces(h: string, a: string, e: string, b: string, rest: string)
    ensures h + (a + (e + b)) + rest == h + (a + (e + (b + rest)))
  {
  }

  lemma FineAfter(ms: seq<Mark>, a: string, after: seq<Mark>)
    requires ms == [Head] + (Addrs(a) + after) && AllFine(ms)
    ensures AllFine(after) && (after != [] ==> AllFine(after[1..]))
  {
    forall i | 0 <= i < |after| ensures Fine(after[i]) {
      assert ms[1 + |a| + i] == (Addrs(a) + after)[|a| + i] == after[i];
    }
  }

  lemma ReadLink(ms: seq<Mark>, a: string, after: seq<Mark>, stack: seq<Kind>, rest: string)
    requires ms == [Head] + (Addrs(a) + after) && after != [] && after[0].Tail? && '*' !in a
    requires Stands(ms, Out, stack, None) && '<' !in a && '>' !in a
    ensures Stands(after[1..], InWords, stack, Some(|stack|))
    ensures Reads(after[1..], InWords, stack, Some(|stack|), rest) ==> Reads(ms, Out, stack, None, rest)
  {
    FineAfter(ms, a, after);
    WholeHead(ms, a, after);
    FitsHead(ms, a, after, stack);
    MarkupHead(ms, a, after, stack, rest, HREF_END);
    WalkHead(a, MarkupOf(after[1..], stack) + rest, Opened(stack, None), HREF_END);
    OpenedLink(stack);
  }

  lemma ReadNoLink(ms: seq<Mark>, a: string, after: seq<Mark>, stack: seq<Kind>, rest: string)
    requires ms == [Head] + (Addrs(a) + after) && (after != [] ==> !after[0].Addr?) && AtTag(rest)
    requires Stands(ms, Out, stack, None) && '<' !in a && '>' !in a
    requires '*' in a || after == [] || !after[0].Tail?
    ensures Reads(ms, Out, stack, None, rest)
  {
    FineAfter(ms, a, after);
    WholeHead(ms, a, after);
    FitsHead(ms, a, after, stack);
    if '*' !in a { FlatLeads(after, InTag); }
    ReadBroken(ms, a, after, stack, rest);
  }

  /** The address that an opening link tag has, and what comes after it. */
  lemma HeadParts(ms: seq<Mark>) returns (a: string, after: seq<Mark>)
    requires ms != [] && ms[0].Head? && AllFine(ms)
    ensures ms == [Head] + (Addrs(a) + after) && |after| < |ms| && (after != [] ==> !after[0].Addr?)
    ensures '<' !in a && '>' !in a
  {
    var k := AddrRun(ms[1..]);
    a, after := AddrOf(ms[1..][..k]), ms[1..][k..];
    forall i | 0 <= i < k ensures Addrs(a)[i] == ms[1 + i] && a[i] != '<' && a[i] != '>' {
      assert ms[1..][..k][i] == ms[1 + i] == Addr(a[i]) && Fine(ms[1 + i]);
    }
    assert Addrs(a) == ms[1..][..k];
    assert ms == [ms[0]] + ms[1..];
  }

  /** The reader of the markup, on any marks that can be left. */
  lemma {:induction false} ReadMarks(ms: seq<Mark>, p: Place, stack: seq<Kind>, floor: Option<nat>, rest: string)
    requires Stands(ms, p, stack, floor) && AtTag(rest)
    ensures Reads(ms, p, stack, floor, rest)
    decreases |ms|
  {
    if ms == [] {
      ReadNothing(p, stack, floor, rest);
    } else if CharIs(ms[0], '*') {
      var n := StarRun(ms);
      var r := Turn(stack, n);
      var q := ReadStars(ms, p, stack, floor, rest);
      if StaysAbove(r.0, stack, floor) { ReadMarks(ms[n..], q, r.1, floor, rest); }
    } else if ms[0].End? {
      ReadEnd(ms, p, stack, floor, rest);
      ReadMarks(ms[1..], Out, stack, None, rest);
    } else if ms[0].Head? {
      var a, after := HeadParts(ms);
      if '*' !in a && after != [] && after[0].Tail? {
        ReadLink(ms, a, after, stack, rest);
        ReadMarks(after[1..], InWords, stack, Some(|stack|), rest);
      } else {
        ReadNoLink(ms, a, after, stack, rest);
      }
    } else {
      var q := ReadChar(ms, p, stack, floor, rest);
      ReadMarks(ms[1..], q, stack, floor, rest);
    }
  }

  // ---------------------------------------------------------------- the theorem

  /** What the reader makes of a stretch of prose and what follows. */
  predicate ProseReads(text: string, rest: string) {
    var seen := Walk(ProseMarkup(text) + rest, []);
    if Sound(text) then seen == Walk(rest, []) else !seen.0
  }

  lemma ProseMarks(text: string)
    ensures var ms := SubMarks(Marked(Esc(text)));
      ProseMarkup(text) == Dashed(MarkupOf(ms, [])) && Stands(ms, Out, [], None)
    ensures Sound(text) <==> Fits(SubMarks(Marked(Esc(text))), Out, [], None)
  {
    var linked := Marked(Esc(text));
    EscHasNoAngles(text);
    MarkedIsLinked(Esc(text));
    SubMarksAreLinks(linked);
    MarkedIsFine(Esc(text));
    MarkedIsWhole(Esc(text));
    SubIsFine(linked);
    SubIsShaped(linked, Out, Out);
    WholeIffCutFree(linked, Out);
  }

  lemma WalkProse(text: string, rest: string)
    requires AtTag(rest)
    ensures ProseReads(text, rest)
  {
    var ms := SubMarks(Marked(Esc(text)));
    ProseMarks(text);
    WalkDashed(MarkupOf(ms, []), rest, []);
    ReadMarks(ms, Out, [], None, rest);
    assert Opened([], None) == [];
  }

  lemma WalkCode(text: string, rest: string)
    ensures Walk(CodeMarkup(text) + rest, []) == Walk(rest, [])
  {
    EscHasNoAngles(text);
    var tail := FONT_CLOSE + rest;
    assert CodeMarkup(text) + rest == FONT_OPEN + (Esc(text) + tail);
    FontTags(Esc(text) + tail);
    TakeRest(Font, true, FONT_OPEN, Esc(text) + tail, []);
    WalkText(Esc(text), tail, [Font]);
    FontTags(rest);
    TakeRest(Font, false, FONT_CLOSE, rest, [Font]);
    assert [] + [Font] == [Font] && [Font][..0] == [];
  }

  /** Code spans stand between any two stretches of prose. */
  predicate Apart(parts: seq<Part>) {
    forall i :: 0 <= i < |parts| - 1 && parts[i].Prose? ==> parts[i + 1].Code?
  }

  lemma ApartTwo(before: string, code: string, rest: seq<Part>)
    requires Apart(rest)
    ensures Apart([Prose(before), Code(code)] + rest)
  {
    var parts := [Prose(before), Code(code)] + rest;
    forall i | 0 <= i < |parts| - 1 && parts[i].Prose? ensures parts[i + 1].Code? {
      if i >= 2 { assert parts[i] == rest[i - 2] && parts[i + 1] == rest[i - 2 + 1]; }
    }
  }

  lemma {:induction false} PartsAreApart(s: string)
    ensures Apart(Parts(s))
    decreases |s|
  {
    var p := FirstPiece(s);
    if p.Some? {
      PartsAreApart(p.value.rest);
      ApartTwo(p.value.before, p.value.code, Parts(p.value.rest));
    }
  }

  lemma MarkupAtTag(parts: seq<Part>)
    requires parts != [] ==> parts[0].Code?
    ensures AtTag(AllMarkup(parts))
  {
    if parts != [] { CodeAtTag(parts[0].text, AllMarkup(parts[1..])); }
  }

  lemma CodeAtTag(text: string, rest: string)
    ensures AtTag(CodeMarkup(text) + rest)
  {
    assert CodeMarkup(text)[0] == FONT_OPEN[0];
  }

  /** Either all the prose is sound and the reader ends with nothing open, or it fails. */
  lemma {:induction false} ReadParts(parts: seq<Part>)
    requires Apart(parts)
    ensures if AllSound(parts) then WellNested(AllMarkup(parts)) else !Walk(AllMarkup(parts), []).0
  {
    if parts != [] {
      var rest := AllMarkup(parts[1..]);
      assert Apart(parts[1..]) by {
        assert forall i :: 0 <= i < |parts[1..]| ==> parts[1..][i] == parts[i + 1];
      }
      ReadParts(parts[1..]);
      SoundStep(parts);
      match parts[0]
      case Prose(text) =>
        MarkupAtTag(parts[1..]);
        WalkProse(text, rest);
      case Code(text) => WalkCode(text, rest);
    }
  }

  lemma SoundStep(parts: seq<Part>)
    requires parts != []
    ensures AllSound(parts) <==> (parts[0].Prose? ==> Sound(parts[0].text)) && AllSound(parts[1..])
  {
    assert parts == [parts[0]] + parts[1..];
    if AllSound(parts) {
      forall i | 0 <= i < |parts[1..]| && parts[1..][i].Prose? ensures Sound(parts[1..][i].text) {
        assert parts[1..][i] == parts[i + 1];
      }
    }
  }

  /**
    For every text: the output of `inline` is well-nested markup, from nothing open to nothing
    open, if and only if every stretch of prose is sound.
   */
  lemma NestsIffSound(text: string)
    ensures WellNested(AllMarkup(Parts(text))) <==> AllSound(Parts(text))
  {
    PartsAreApart(text);
    ReadParts(Parts(text));
  }

  // ---------------------------------------------------------------- text without web links

  /** No link to the web begins anywhere in `s`: the first substitution has nothing to do. */
  predicate NoWebLink(s: string) {
    forall i :: 0 <= i < |s| ==> LinkAt(s[i..], true).None?
  }

  predicate AllPlain(ms: seq<Mark>) { forall i :: 0 <= i < |ms| ==> ms[i].Plain? }

  lemma {:induction false} NothingMarked(s: string)
    requires NoWebLink(s)
    ensures AllPlain(Marked(s))
    decreases |s|
  {
    if s != "" {
      assert s[0..] == s;
      forall i | 0 <= i < |s[1..]| ensures LinkAt(s[1..][i..], true).None? { assert s[1..][i..] == s[i + 1..]; }
      NothingMarked(s[1..]);
    }
  }

  lemma {:induction false} PlainStays(ms: seq<Mark>)
    requires AllPlain(ms)
    ensures CutFree(ms) && AllPlain(SubMarks(ms))
    decreases |ms|
  {
    if ms != [] {
      var x := MatchAt(ms);
      if x.Some? { PlainStays(ms[x.value.length..]); } else { PlainStays(ms[1..]); }
    }
  }

  lemma {:induction false} PlainIsLevel(ms: seq<Mark>, stack: seq<Kind>)
    requires AllPlain(ms)
    ensures Level(ms, stack, None)
    decreases |ms|
  {
    if ms != [] {
      if CharIs(ms[0], '*') {
        StaysFree(Turn(stack, StarRun(ms)).0, stack);
        PlainIsLevel(ms[StarRun(ms)..], Turn(stack, StarRun(ms)).1);
      } else {
        PlainIsLevel(ms[1..], stack);
      }
    }
  }

  /** Prose without a link to the web is sound: it always nests. */
  lemma NoWebLinkIsSound(text: string)
    requires NoWebLink(Esc(text))
    ensures Sound(text)
  {
    NothingMarked(Esc(text));
    PlainStays(Marked(Esc(text)));
    PlainIsLevel(SubMarks(Marked(Esc(text))), []);
  }
}
