/**
  What the reader of the markup makes of pieces of it: plain text, emphasis, a link's tags, and of
  the replacement of double hyphens, which it never notices.
 */
module MarkupReader {
  import opened Options
  import opened Text
  import opened Emphasis
  import opened Inline

  // ---------------------------------------------------------------- tags in general

  lemma {:induction false} WalkText(text: string, rest: string, open: seq<Tag>)
    requires '<' !in text
    ensures Walk(text + rest, open) == Walk(rest, open)
  {
    if text == "" {
      assert text + rest == rest;
    } else {
      assert (text + rest)[1..] == text[1..] + rest;
      WalkText(text[1..], rest, open);
    }
  }

  /** What the reader does once it has seen a tag. */
  function Take(t: Option<Seen>, s: string, open: seq<Tag>): (bool, seq<Tag>)
    requires t.Some? ==> t.value.length <= |s|
  {
    if t.None? then (false, open)
    else if t.value.opening then Walk(s[t.value.length..], open + [t.value.tag])
    else if open == [] || open[|open| - 1] != t.value.tag then (false, open)
    else Walk(s[t.value.length..], open[..|open| - 1])
  }

  lemma WalkTag(s: string, open: seq<Tag>)
    requires s != "" && s[0] == '<'
    ensures Walk(s, open) == Take(TagAt(s), s, open)
  {
  }

  lemma TakeRest(tag: Tag, opening: bool, s: string, rest: string, open: seq<Tag>)
    requires s + rest != "" && (s + rest)[0] == '<' && TagAt(s + rest) == Some(Seen(tag, opening, |s|))
    ensures Walk(s + rest, open)
      == if opening then Walk(rest, open + [tag])
         else if open == [] || open[|open| - 1] != tag then (false, open)
         else Walk(rest, open[..|open| - 1])
  {
    Cut(s, rest);
    WalkTag(s + rest, open);
  }

  lemma FontTags(rest: string)
    ensures TagAt(FONT_OPEN + rest) == Some(Seen(Font, true, |FONT_OPEN|))
    ensures TagAt(FONT_CLOSE + rest) == Some(Seen(Font, false, |FONT_CLOSE|))
    ensures (FONT_OPEN + rest)[0] == (FONT_CLOSE + rest)[0] == '<'
  {
    assert (FONT_OPEN + rest)[1] == 'f';
    assert (FONT_CLOSE + rest)[1] == '/' && (FONT_CLOSE + rest)[2] == 'f';
    assert FONT_OPEN <= FONT_OPEN + rest && FONT_CLOSE <= FONT_CLOSE + rest;
  }

  /** A closing link tag needs a link as the latest open tag. */
  lemma WalkLinkEnd(rest: string, open: seq<Tag>)
    ensures Walk("</link>" + rest, open)
      == if open == [] || open[|open| - 1] != Anchor then (false, open) else Walk(rest, open[..|open| - 1])
  {
    var s := "</link>" + rest;
    assert s[0] == '<' && s[1] == '/' && s[2] == 'l';
    assert "</link>" <= s;
    TakeRest(Anchor, false, "</link>", rest, open);
  }

  // ---------------------------------------------------------------- emphasis

  function TagOf(k: Kind): Tag { if k == Bold then B else I }

  function TagsOf(stack: seq<Kind>): (t: seq<Tag>)
    ensures |t| == |stack|
  {
    seq(|stack|, i requires 0 <= i < |stack| => TagOf(stack[i]))
  }

  /** The emphasis is open, and the latest link since the stack was `floor` high. */
  predicate Rooted(stack: seq<Kind>, floor: Option<nat>) { floor.Some? ==> floor.value <= |stack| }

  /** The open tags, from the outermost. */
  function Opened(stack: seq<Kind>, floor: Option<nat>): seq<Tag>
    requires Rooted(stack, floor)
  {
    if floor.None? then TagsOf(stack)
    else TagsOf(stack[..floor.value]) + [Anchor] + TagsOf(stack[floor.value..])
  }

  /** No token takes the stack below the floor. */
  predicate StaysAbove(tokens: seq<Token>, stack: seq<Kind>, floor: Option<nat>) {
    if tokens == [] then true
    else
      var after := NestOne(tokens[0], stack).1;
      Rooted(after, floor) && StaysAbove(tokens[1..], after, floor)
  }

  lemma OpenedPush(stack: seq<Kind>, k: Kind, floor: Option<nat>)
    requires Rooted(stack, floor)
    ensures Opened(stack + [k], floor) == Opened(stack, floor) + [TagOf(k)]
  {
    if floor.Some? {
      assert (stack + [k])[..floor.value] == stack[..floor.value];
      assert (stack + [k])[floor.value..] == stack[floor.value..] + [k];
    }
  }

  lemma OpenedPop(stack: seq<Kind>, floor: Option<nat>)
    requires Rooted(stack, floor) && stack != []
    ensures var n, open := |stack|, Opened(stack, floor);
      && open != []
      && (floor == Some(n) ==> open[|open| - 1] == Anchor)
      && (floor != Some(n) ==> open[|open| - 1] == TagOf(stack[n - 1]) && Rooted(stack[..n - 1], floor))
      && (floor != Some(n) ==> open[..|open| - 1] == Opened(stack[..n - 1], floor))
  {
    if floor == Some(|stack|) {
      assert stack[|stack|..] == [];
    } else {
      var below, k := stack[..|stack| - 1], stack[|stack| - 1];
      assert below + [k] == stack;
      OpenedPush(below, k, floor);
    }
  }

  /** A link opens on top of everything that is open, and closes only there. */
  lemma OpenedLink(stack: seq<Kind>)
    ensures Opened(stack, Some(|stack|)) == Opened(stack, None) + [Anchor]
  {
    assert stack[..|stack|] == stack && stack[|stack|..] == [];
  }

  lemma OpenedTop(stack: seq<Kind>, floor: Option<nat>)
    requires Rooted(stack, floor)
    ensures var open := Opened(stack, floor);
      (open != [] && open[|open| - 1] == Anchor) <==> floor == Some(|stack|)
  {
    if stack != [] { OpenedPop(stack, floor); }
  }

  lemma OpeningTag(k: Kind, rest: string)
    ensures var s := TagText(Open(k)) + rest; s[0] == '<' && TagAt(s) == Some(Seen(TagOf(k), true, 3))
  {
    var s := TagText(Open(k)) + rest;
    Cut(TagText(Open(k)), rest);
    assert s[1] == TagText(Open(k))[1] && s[2] == TagText(Open(k))[2];
    NoHead(s);
  }

  lemma NoHead(s: string)
    requires |s| > 1 && s[1] != '/' && s[1] != 'l'
    ensures TagAt(s) == OpeningAt(s)
  {
    assert HREF[1] == 'l';
  }

  lemma ClosingTag(k: Kind, rest: string)
    ensures var s := TagText(Close(k)) + rest; s[0] == '<' && TagAt(s) == Some(Seen(TagOf(k), false, 4))
  {
    var s := TagText(Close(k)) + rest;
    Cut(TagText(Close(k)), rest);
    assert s[1] == '/' && s[2] == TagText(Close(k))[2];
    assert "</" <= s;
  }

  lemma WalkOpen(k: Kind, rest: string, stack: seq<Kind>, floor: Option<nat>)
    requires Rooted(stack, floor)
    ensures Walk(TagText(Open(k)) + rest, Opened(stack, floor)) == Walk(rest, Opened(stack + [k], floor))
  {
    OpeningTag(k, rest);
    OpenedPush(stack, k, floor);
    TakeRest(TagOf(k), true, TagText(Open(k)), rest, Opened(stack, floor));
  }

  lemma WalkClose(k: Kind, rest: string, stack: seq<Kind>, floor: Option<nat>)
    requires Rooted(stack, floor) && stack != [] && stack[|stack| - 1] == k
    ensures if floor == Some(|stack|) then !Walk(TagText(Close(k)) + rest, Opened(stack, floor)).0
            else Walk(TagText(Close(k)) + rest, Opened(stack, floor)) == Walk(rest, Opened(stack[..|stack| - 1], floor))
  {
    ClosingTag(k, rest);
    OpenedPop(stack, floor);
    TakeRest(TagOf(k), false, TagText(Close(k)), rest, Opened(stack, floor));
  }

  /** One token of emphasis, read by both readers: it fails only on a tag that closes below the link. */
  lemma WalkToken(token: Token, rest: string, stack: seq<Kind>, floor: Option<nat>)
    requires token != Char('<') && Rooted(stack, floor) && NestOne(token, stack).0
    ensures var after := NestOne(token, stack).1;
      if Rooted(after, floor) then Walk(TagText(token) + rest, Opened(stack, floor)) == Walk(rest, Opened(after, floor))
      else !Walk(TagText(token) + rest, Opened(stack, floor)).0
  {
    match token
    case Char(c) => WalkText([c], rest, Opened(stack, floor));
    case Open(k) => WalkOpen(k, rest, stack, floor);
    case Close(k) => WalkClose(k, rest, stack, floor);
  }

  predicate NoAngles(tokens: seq<Token>) {
    forall i :: 0 <= i < |tokens| ==> tokens[i] != Char('<')
  }

  /** Nested tokens read well while they stay above the link that is open, and not otherwise. */
  lemma {:induction false} WalkTokens(tokens: seq<Token>, rest: string, stack: seq<Kind>, floor: Option<nat>)
    requires NoAngles(tokens) && Rooted(stack, floor) && Nest(tokens, stack).0
    ensures if StaysAbove(tokens, stack, floor) then
        && Rooted(Nest(tokens, stack).1, floor)
        && Walk(Render(tokens) + rest, Opened(stack, floor)) == Walk(rest, Opened(Nest(tokens, stack).1, floor))
      else !Walk(Render(tokens) + rest, Opened(stack, floor)).0
  {
    if tokens == [] {
      assert "" + rest == rest;
    } else {
      var after := NestOne(tokens[0], stack).1;
      Concat(TagText(tokens[0]), Render(tokens[1..]), rest);
      WalkToken(tokens[0], Render(tokens[1..]) + rest, stack, floor);
      if Rooted(after, floor) { WalkTokens(tokens[1..], rest, after, floor); }
    }
  }

  lemma {:induction false} StaysFree(tokens: seq<Token>, stack: seq<Kind>)
    ensures StaysAbove(tokens, stack, None)
  {
    if tokens != [] { StaysFree(tokens[1..], NestOne(tokens[0], stack).1); }
  }

  lemma WalkCloseAll(stack: seq<Kind>, rest: string)
    ensures Walk(Render(CloseAll(stack)) + rest, Opened(stack, None)) == Walk(rest, [])
  {
    CloseAllTags(stack);
    CloseAllNests(stack);
    StaysFree(CloseAll(stack), stack);
    WalkTokens(CloseAll(stack), rest, stack, None);
  }

  lemma {:induction false} RenderAppend(a: seq<Token>, b: seq<Token>)
    ensures Render(a + b) == Render(a) + Render(b)
  {
    if a == [] {
      assert a + b == b;
    } else {
      assert (a + b)[1..] == a[1..] + b;
      RenderAppend(a[1..], b);
      Concat(TagText(a[0]), Render(a[1..]), Render(b));
    }
  }

  lemma {:induction false} StarsHaveNoAngle(n: nat)
    ensures '<' !in Render(Stars(n))
  {
    if n > 0 {
      assert Stars(n)[1..] == Stars(n - 1);
      StarsHaveNoAngle(n - 1);
    }
  }

  /** Text without asterisks is passed on. */
  lemma {:induction false} EmphasisPasses(a: string, rest: string, stack: seq<Kind>)
    requires '*' !in a
    ensures Render(Emphasised(a + rest, stack)) == a + Render(Emphasised(rest, stack))
  {
    if a == "" {
      assert a + rest == rest;
    } else {
      assert (a + rest)[0] == a[0] && (a + rest)[1..] == a[1..] + rest;
      EmphasisPasses(a[1..], rest, stack);
      RenderFirst(Char(a[0]), Emphasised(a[1..] + rest, stack));
      Concat([a[0]], a[1..], Render(Emphasised(rest, stack)));
      assert [a[0]] + a[1..] == a;
    }
  }

  lemma RenderFirst(token: Token, rest: seq<Token>)
    ensures Render([token] + rest) == TagText(token) + Render(rest)
  {
    assert ([token] + rest)[1..] == rest;
  }

  /** A run of asterisks. */
  lemma EmphasisTurns(s: string, stack: seq<Kind>)
    requires s != "" && s[0] == '*'
    ensures var run := Run(s);
      Render(Emphasised(s, stack))
      == Render(Turn(stack, run).0) + (Render(Stars(Drop(run))) + Render(Emphasised(s[run..], Turn(stack, run).1)))
  {
    var run := Run(s);
    var r := Turn(stack, run);
    RenderAppend(r.0 + Stars(Drop(run)), Emphasised(s[run..], r.1));
    RenderAppend(r.0, Stars(Drop(run)));
    Concat(Render(r.0), Render(Stars(Drop(run))), Render(Emphasised(s[run..], r.1)));
  }

  /** A run of asterisks reads well unless it closes what was open before the link. */
  lemma WalkTurn(stack: seq<Kind>, run: nat, rest: string, floor: Option<nat>)
    requires Rooted(stack, floor) && Good(stack) && run > 0
    ensures var r := Turn(stack, run);
      if StaysAbove(r.0, stack, floor) then
        && Rooted(r.1, floor)
        && Walk(Render(r.0) + (Render(Stars(Drop(run))) + rest), Opened(stack, floor)) == Walk(rest, Opened(r.1, floor))
      else !Walk(Render(r.0) + (Render(Stars(Drop(run))) + rest), Opened(stack, floor)).0
  {
    var r := Turn(stack, run);
    PopToTags(stack, if run == 2 then Bold else Italic);
    TurnNests(stack, run);
    WalkTokens(r.0, Render(Stars(Drop(run))) + rest, stack, floor);
    if StaysAbove(r.0, stack, floor) {
      StarsHaveNoAngle(Drop(run));
      WalkText(Render(Stars(Drop(run))), rest, Opened(r.1, floor));
    }
  }

  // ---------------------------------------------------------------- opening tags of links

  /** The first angle bracket, if there is one, opens a tag. */
  predicate Leads(s: string) {
    s == "" || s[0] == '<' || (s[0] != '>' && Leads(s[1..]))
  }

  lemma {:induction false} LeadsPast(a: string, b: string)
    requires '<' !in a && '>' !in a
    ensures Leads(a + b) == Leads(b)
  {
    if a == "" {
      assert a + b == b;
    } else {
      assert (a + b)[0] == a[0] && (a + b)[1..] == a[1..] + b;
      LeadsPast(a[1..], b);
    }
  }

  /** Where a `>` stands with no `<` before it, the text does not lead. */
  lemma {:induction false} ClosesFirst(s: string, k: nat)
    requires k < |s| && s[k] == '>' && '<' !in s[..k]
    ensures !Leads(s)
  {
    if k > 0 {
      assert s[0] in s[..k];
      assert s[1..][..k - 1] == s[1..k];
      ClosesFirst(s[1..], k - 1);
    }
  }

  /** The piece of the tag after the address, anywhere. */
  lemma EndHasOneAngle(e: string)
    requires e == HREF_END
    ensures |e| == 18 && e[17] == '>' && e[0] == '"' && '<' !in e && '>' !in e[..17]
  {
  }

  /** What an opening link tag looks like: its address, the first quote, the rest of the tag. */
  lemma AnchorShape(r: string, e: string)
    requires e == HREF_END
    ensures AnchorAt(HREF + r).Some? <==> '<' !in r[..IndexOf(r, '"')] && e <= r[IndexOf(r, '"')..]
    ensures AnchorAt(HREF + r).Some? ==> AnchorAt(HREF + r).value == Seen(Anchor, true, |HREF| + IndexOf(r, '"') + |e|)
  {
    Cut(HREF, r);
  }

  lemma HeadTag(r: string)
    ensures HREF + r != "" && (HREF + r)[0] == '<' && TagAt(HREF + r) == AnchorAt(HREF + r)
  {
    Cut(HREF, r);
    assert (HREF + r)[1] == HREF[1] == 'l';
  }

  lemma EndClosesFirst(r: string, q: nat, e: string)
    requires e == HREF_END && q <= |r| && e <= r[q..] && '<' !in r[..q]
    ensures q + 17 < |r| && r[q + 17] == '>' && '<' !in r[..q + 17]
  {
    EndHasOneAngle(e);
    assert r[q..][17] == e[17];
    forall i | 0 <= i < q + 17 ensures r[i] != '<' {
      if i < q { assert r[i] == r[..q][i]; } else { assert r[i] == r[q..][i - q] == e[i - q]; }
    }
  }

  /** An address that runs into another tag makes no tag. */
  lemma WalkBrokenHead(r: string, open: seq<Tag>)
    requires Leads(r)
    ensures !Walk(HREF + r, open).0
  {
    HeadTag(r);
    AnchorShape(r, HREF_END);
    if AnchorAt(HREF + r).Some? {
      EndClosesFirst(r, IndexOf(r, '"'), HREF_END);
      ClosesFirst(r, IndexOf(r, '"') + 17);
    }
    WalkTag(HREF + r, open);
  }

  /** An opening link tag with its first quote at the start of `w`. */
  lemma WalkAnchor(a: string, w: string, open: seq<Tag>, e: string)
    requires e == HREF_END && '"' !in a && w != "" && w[0] == '"'
    ensures Walk(HREF + (a + w), open) == if '<' !in a && e <= w then Walk(w[|e|..], open + [Anchor]) else (false, open)
  {
    var r := a + w;
    Cut(a, w);
    assert r[|a|] == w[0];
    IndexIs(r, '"', |a|);
    AnchorShape(r, e);
    HeadTag(r);
    WalkTag(HREF + r, open);
    if '<' !in a && e <= w { AnchorRest(HREF, a, e, w); }
  }

  lemma AnchorRest(h: string, a: string, e: string, w: string)
    requires e <= w
    ensures |h| + |a| + |e| <= |h + (a + w)| && (h + (a + w))[|h| + |a| + |e|..] == w[|e|..]
  {
    assert w == e + w[|e|..];
    TagPieces(h, a, e, w[|e|..]);
    Cut(h + (a + e), w[|e|..]);
  }

  /** What follows the quote cannot be the end of the tag, whose angle comes last. */
  lemma LateAngle(w: string, e: string, b: string)
    requires e == HREF_END && w != "" && '>' !in w
    ensures !(e <= w + (e + b))
  {
    var s := w + (e + b);
    EndHasOneAngle(e);
    Cut(w, e + b);
    if |w| > 17 {
      assert s[17] == w[17];
    } else {
      assert s[17] == (e + b)[17 - |w|] == e[17 - |w|] == e[..17][17 - |w|];
    }
  }

  /** An opening link tag is read exactly when its address holds no quote. */
  lemma WalkHead(a: string, b: string, open: seq<Tag>, e: string)
    requires e == HREF_END && '<' !in a && '>' !in a
    ensures var s := HREF + (a + (e + b));
      if '"' in a then !Walk(s, open).0 else Walk(s, open) == Walk(b, open + [Anchor])
  {
    EndHasOneAngle(e);
    Cut(e, b);
    if '"' in a {
      var q := IndexOf(a, '"');
      assert a == a[..q] + a[q..];
      Concat(a[..q], a[q..], e + b);
      LateAngle(a[q..], e, b);
      WalkAnchor(a[..q], a[q..] + (e + b), open, e);
    } else {
      WalkAnchor(a, e + b, open, e);
    }
  }

  lemma TagPieces(h: string, a: string, e: string, b: string)
    ensures h + (a + (e + b)) == (h + (a + e)) + b
  {
  }

  // ---------------------------------------------------------------- dashes

  const DASH := "&#8211;"

  function Dashed(s: string): string { Replace(s, "--", DASH) }

  /** What may follow a stretch of prose: nothing, or a tag. */
  predicate AtTag(rest: string) { rest == "" || rest[0] == '<' }

  lemma DashedStep(s: string)
    requires s != ""
    ensures "--" <= s ==> |s| >= 2 && s[0] == s[1] == '-' && Dashed(s) == DASH + Dashed(s[2..])
    ensures !("--" <= s) ==> Dashed(s) == [s[0]] + Dashed(s[1..])
  {
  }

  /** A piece of a tag comes first after the replacement just when it did before. */
  lemma {:induction false} DashedPrefix(s: string, rest: string, tag: string)
    requires '-' !in tag && '&' !in tag
    ensures tag <= Dashed(s) + rest <==> tag <= s + rest
    ensures tag <= s ==> Dashed(s) == tag + Dashed(s[|tag|..])
  {
    if tag != "" && s != "" {
      DashedStep(s);
      if "--" <= s {
        assert (Dashed(s) + rest)[0] == '&' && (s + rest)[0] == '-';
      } else {
        DashedPrefix(s[1..], rest, tag[1..]);
        Unhead(tag, s + rest, s[1..] + rest);
        Unhead(tag, Dashed(s) + rest, Dashed(s[1..]) + rest);
        Unhead(tag, s, s[1..]);
      }
    }
  }

  lemma Unhead(tag: string, s: string, tail: string)
    requires tag != "" && s != "" && s[1..] == tail
    ensures tag <= s <==> tag[0] == s[0] && tag[1..] <= tail
    ensures tag <= s ==> s[|tag|..] == tail[|tag| - 1..]
  {
    if tag[0] == s[0] && tag[1..] <= tail {
      assert tag == [tag[0]] + tag[1..] && s == [s[0]] + tail;
      assert s[..|tag|] == [s[0]] + tail[..|tag| - 1];
    }
  }

  lemma DashedFirst(a: string, b: string, n: nat)
    requires a != "" && b != "" && b[0] != '-' && n == if "--" <= a then 2 else 1
    requires Dashed(a[n..] + b) == Dashed(a[n..]) + Dashed(b)
    ensures Dashed(a + b) == Dashed(a) + Dashed(b)
  {
    CutLeft(a, b, n);
    StartsDouble(a, b);
    DashedStep(a);
    DashedStep(a + b);
    Concat(if n == 2 then DASH else [a[0]], Dashed(a[n..]), Dashed(b));
  }

  lemma StartsDouble(a: string, b: string)
    requires a != "" && b != "" && b[0] != '-'
    ensures "--" <= a + b <==> "--" <= a
    ensures (a + b)[0] == a[0]
  {
    if |a| == 1 { assert (a + b)[1] == b[0]; } else { assert (a + b)[..2] == a[..2]; }
  }

  lemma {:induction false} DashedAppend(a: string, b: string)
    requires b != "" && b[0] != '-'
    ensures Dashed(a + b) == Dashed(a) + Dashed(b)
    decreases |a|
  {
    if a == "" {
      assert a + b == b;
    } else {
      var n := if "--" <= a then 2 else 1;
      DashedAppend(a[n..], b);
      DashedFirst(a, b, n);
    }
  }

  lemma {:induction false} DashedHolds(s: string, c: char)
    requires c !in "--" && c !in DASH
    ensures c in Dashed(s) <==> c in s
    decreases |s|
  {
    if s != "" {
      DashedStep(s);
      if "--" <= s {
        DashedHolds(s[2..], c);
        assert s == [s[0], s[1]] + s[2..];
      } else {
        DashedHolds(s[1..], c);
        assert s == [s[0]] + s[1..];
      }
    }
  }

  /** Without a quote there is no end to an opening link tag. */
  lemma NoQuoteFails(r: string, rest: string, open: seq<Tag>)
    requires AtTag(rest) && '"' !in r
    ensures Walk(HREF + (r + rest), open) == (false, open)
  {
    NoQuoteNoAnchor(r, rest);
    HeadTag(r + rest);
    WalkTag(HREF + (r + rest), open);
  }

  lemma NoQuoteNoAnchor(r: string, rest: string)
    requires AtTag(rest) && '"' !in r
    ensures AnchorAt(HREF + (r + rest)).None?
  {
    var s := r + rest;
    var q := IndexOf(s, '"');
    AnchorShape(s, HREF_END);
    if rest == "" {
      assert s == r;
    } else {
      assert s[|r|] == rest[0];
      if q < |s| { assert q >= |r|; }
      if q > |r| { InPrefix(s, |r|, q); }
    }
  }

  /** A tag holds no `<` but its first character, so it does not run into the next tag. */
  lemma TagInside(s: string, rest: string, tag: string)
    requires AtTag(rest) && s != "" && tag != "" && tag <= s + rest
    ensures '<' in tag[1..] || (tag <= s && (s + rest)[|tag|..] == s[|tag|..] + rest)
  {
    assert tag == (s + rest)[..|tag|];
    if |tag| > |s| {
      assert tag[|s|] == (s + rest)[|s|] == rest[0];
      assert tag[1..][|s| - 1] == tag[|s|];
    } else {
      CutLeft(s, rest, |tag|);
    }
  }

  /** The tags that are always the same. */
  predicate FixedTag(c: string) {
    c == "</b>" || c == "</i>" || c == FONT_CLOSE || c == "</link>" || c == "<b>" || c == "<i>" || c == FONT_OPEN
  }

  lemma FixedTagHolds(c: string)
    requires FixedTag(c)
    ensures Taglike(c)
  {
    if |c| <= 4 { ShortTagHolds(c); } else { LongTagHolds(c); }
  }

  lemma ShortTagHolds(c: string)
    requires c == "</b>" || c == "</i>" || c == "<b>" || c == "<i>"
    ensures Taglike(c)
  {
  }

  lemma LongTagHolds(c: string)
    requires c == FONT_CLOSE || c == "</link>" || c == FONT_OPEN
    ensures Taglike(c)
  {
    FontHolds(FONT_OPEN);
  }

  lemma FontHolds(c: string)
    requires c == FONT_OPEN
    ensures Taglike(c)
  {
  }

  predicate Taglike(c: string) { c != "" && '-' !in c && '&' !in c && '<' !in c[1..] }

  lemma TagIsFixed(s: string)
    requires TagAt(s).Some? && !(HREF <= s)
    ensures FixedTag(s[..TagAt(s).value.length])
  {
  }

  predicate SameStart(x: string, y: string, tag: string) { tag <= x <==> tag <= y }

  /** Texts that start with the same tags, if with any. */
  lemma SameTag(x: string, y: string)
    requires forall tag :: FixedTag(tag) || tag == "</" || tag == HREF ==> SameStart(x, y, tag)
    requires !(HREF <= x)
    ensures TagAt(x) == TagAt(y)
  {
    assert SameStart(x, y, "</") && SameStart(x, y, HREF);
    if "</" <= x {
      assert SameStart(x, y, "</b>") && SameStart(x, y, "</i>") && SameStart(x, y, FONT_CLOSE)
        && SameStart(x, y, "</link>");
    } else {
      assert SameStart(x, y, "<b>") && SameStart(x, y, "<i>") && SameStart(x, y, FONT_OPEN);
    }
  }

  lemma DashedStarts(s: string, rest: string)
    ensures forall tag :: FixedTag(tag) || tag == "</" || tag == HREF ==> SameStart(s + rest, Dashed(s) + rest, tag)
  {
    forall tag | FixedTag(tag) || tag == "</" || tag == HREF ensures SameStart(s + rest, Dashed(s) + rest, tag) {
      if FixedTag(tag) { FixedTagHolds(tag); }
      DashedPrefix(s, rest, tag);
    }
  }

  predicate ReadsAlike(t: string, rest: string, open: seq<Tag>) { Walk(Dashed(t) + rest, open) == Walk(t + rest, open) }

  ghost predicate ShorterAlike(n: nat, rest: string) {
    forall t: string, open: seq<Tag> :: |t| < n ==> ReadsAlike(t, rest, open)
  }

  lemma AfterTag(s: string, rest: string, tag: string)
    requires AtTag(rest) && s != "" && tag <= s + rest && Taglike(tag)
    ensures |tag| <= |s| && (s + rest)[|tag|..] == s[|tag|..] + rest
    ensures tag <= Dashed(s) + rest && (Dashed(s) + rest)[|tag|..] == Dashed(s[|tag|..]) + rest
  {
    TagInside(s, rest, tag);
    DashedPrefix(s, rest, tag);
    Concat(tag, Dashed(s[|tag|..]), rest);
    Cut(tag, Dashed(s[|tag|..]) + rest);
  }

  lemma StartsAlike(s: string, rest: string)
    requires s != "" && s[0] == '<' && !(HREF <= s + rest)
    ensures TagAt(s + rest) == TagAt(Dashed(s) + rest)
    ensures (s + rest)[0] == '<' && Dashed(s) + rest != "" && (Dashed(s) + rest)[0] == '<'
  {
    DashedStep(s);
    DashedStarts(s, rest);
    SameTag(s + rest, Dashed(s) + rest);
  }

  lemma FixedAlike(s: string, rest: string, open: seq<Tag>)
    requires AtTag(rest) && s != "" && s[0] == '<' && !(HREF <= s + rest) && ShorterAlike(|s|, rest)
    ensures ReadsAlike(s, rest, open)
  {
    var t := TagAt(s + rest);
    StartsAlike(s, rest);
    WalkTag(s + rest, open);
    WalkTag(Dashed(s) + rest, open);
    if t.Some? {
      var tag := (s + rest)[..t.value.length];
      TagIsFixed(s + rest);
      FixedTagHolds(tag);
      AfterTag(s, rest, tag);
      var now := if t.value.opening then open + [t.value.tag] else open[..if open == [] then 0 else |open| - 1];
      assert ReadsAlike(s[|tag|..], rest, now);
    }
  }

  lemma QuotedAlike(a: string, w: string, rest: string, open: seq<Tag>, e: string)
    requires e == HREF_END && AtTag(rest) && '"' !in a && w != "" && w[0] == '"' && ShorterAlike(|w|, rest)
    ensures Walk(HREF + (Dashed(a) + (Dashed(w) + rest)), open) == Walk(HREF + (a + (w + rest)), open)
  {
    DashedHolds(a, '"');
    DashedHolds(a, '<');
    DashedStep(w);
    EndHolds(e);
    DashedPrefix(w, rest, e);
    WalkAnchor(a, w + rest, open, e);
    WalkAnchor(Dashed(a), Dashed(w) + rest, open, e);
    if '<' !in a && e <= w + rest {
      AfterTag(w, rest, e);
      assert ReadsAlike(w[|e|..], rest, open + [Anchor]);
    }
  }

  lemma EndHolds(e: string)
    requires e == HREF_END
    ensures Taglike(e)
  {
  }

  lemma HeadHolds(h: string)
    requires h == HREF
    ensures Taglike(h)
  {
  }

  lemma CutAtQuote(r: string, rest: string, q: nat)
    requires q < |r| && r[q] == '"'
    ensures r + rest == r[..q] + (r[q..] + rest)
    ensures Dashed(r) + rest == Dashed(r[..q]) + (Dashed(r[q..]) + rest)
  {
    assert r == r[..q] + r[q..];
    DashedAppend(r[..q], r[q..]);
    Concat(r[..q], r[q..], rest);
    Concat(Dashed(r[..q]), Dashed(r[q..]), rest);
  }

  lemma AnchorAlike(s: string, r: string, rest: string, open: seq<Tag>)
    requires AtTag(rest) && s == HREF + r && ShorterAlike(|s|, rest)
    ensures Walk(HREF + (Dashed(r) + rest), open) == Walk(HREF + (r + rest), open)
  {
    DashedHolds(r, '"');
    if '"' in r {
      var q := IndexOf(r, '"');
      CutAtQuote(r, rest, q);
      QuotedAlike(r[..q], r[q..], rest, open, HREF_END);
    } else {
      NoQuoteFails(r, rest, open);
      NoQuoteFails(Dashed(r), rest, open);
    }
  }

  lemma HeadAlike(s: string, rest: string, open: seq<Tag>)
    requires AtTag(rest) && s != "" && HREF <= s + rest && ShorterAlike(|s|, rest)
    ensures ReadsAlike(s, rest, open)
  {
    HeadHolds(HREF);
    TagInside(s, rest, HREF);
    var r := s[|HREF|..];
    DashedPrefix(s, rest, HREF);
    assert s == HREF + r;
    AnchorAlike(s, r, rest, open);
    Concat(HREF, r, rest);
    Concat(HREF, Dashed(r), rest);
  }

  lemma TextAlike(s: string, rest: string, open: seq<Tag>)
    requires s != "" && s[0] != '<' && ShorterAlike(|s|, rest)
    ensures ReadsAlike(s, rest, open)
  {
    DashedStep(s);
    var n := if "--" <= s then 2 else 1;
    var t := s[n..];
    assert ReadsAlike(t, rest, open);
    assert s == s[..n] + t;
    Concat(s[..n], t, rest);
    WalkText(s[..n], t + rest, open);
    if n == 2 {
      Concat(DASH, Dashed(t), rest);
      WalkText(DASH, Dashed(t) + rest, open);
    } else {
      Concat([s[0]], Dashed(t), rest);
      WalkText([s[0]], Dashed(t) + rest, open);
    }
  }

  /** Replacing double hyphens changes nothing for the reader of the tags. */
  lemma {:induction false} WalkDashed(s: string, rest: string, open: seq<Tag>)
    requires AtTag(rest)
    ensures ReadsAlike(s, rest, open)
    decreases |s|
  {
    forall t: string, now: seq<Tag> | |t| < |s| ensures ReadsAlike(t, rest, now) {
      WalkDashed(t, rest, now);
    }
    if s != "" {
      if s[0] != '<' { TextAlike(s, rest, open); }
      else if HREF <= s + rest { HeadAlike(s, rest, open); }
      else { FixedAlike(s, rest, open); }
    }
  }
}
