/**
  What asterisks mean to `_emphasis` of tools/md-to-pdf.py: one italic, two bold, three or more
  both, said by what is open before and after and without its stack operations.
 */
module EmphasisMeaning {
  import opened Text
  import opened Emphasis

  /** A mark closes its kind, with all that was opened after it, or opens it. */
  function Toggled(open: seq<Kind>, kind: Kind): (after: seq<Kind>)
    ensures kind in after <==> kind !in open
  {
    if kind !in open then open + [kind] else Below(open, kind)
  }

  /** What was open before `kind`. */
  function Below(open: seq<Kind>, kind: Kind): (below: seq<Kind>)
    requires kind in open
    ensures below < open && open[|below|] == kind && kind !in below
  {
    if open[0] == kind then [] else [open[0]] + Below(open[1..], kind)
  }

  /** Bold and italic both change: what was open is closed and what was not is opened. */
  function BothToggled(open: seq<Kind>): seq<Kind> {
    (if Bold in open then [] else [Bold]) + (if Italic in open then [] else [Italic])
  }

  /** What is open after a run of asterisks. */
  function After(open: seq<Kind>, run: nat): seq<Kind> {
    if run == 1 then Toggled(open, Italic) else if run == 2 then Toggled(open, Bold) else BothToggled(open)
  }

  function Opens(kinds: seq<Kind>): seq<Token> { seq(|kinds|, i requires 0 <= i < |kinds| => Open(kinds[i])) }

  /** The tags from one state to another: closing from the inside until the rest may stay, then opening. */
  function Between(open: seq<Kind>, after: seq<Kind>): seq<Token> {
    if open <= after then Opens(after[|open|..])
    else [Close(open[|open| - 1])] + Between(open[..|open| - 1], after)
  }

  /** The tokens of a text with `open` open at its start. */
  function Meant(s: string, open: seq<Kind>): seq<Token>
    decreases |s|
  {
    if s == "" then Between(open, [])
    else if s[0] != '*' then [Char(s[0])] + Meant(s[1..], open)
    else
      var n := Run(s);
      Between(open, After(open, n)) + Stars(if n > 3 then n - 3 else 0) + Meant(s[n..], After(open, n))
  }

  /** A run of asterisks does what it means, with no tag too many. */
  lemma TurnMeans(open: seq<Kind>, run: nat)
    requires Good(open) && run > 0
    ensures Turn(open, run) == (Between(open, After(open, run)), After(open, run))
  {
    if open == [] {
      FromNothing(open, run);
    } else if |open| == 1 {
      FromOne(open, open[0], run);
    } else {
      FromTwo(open, open[0], open[1], run);
    }
  }

  lemma FromNothing(open: seq<Kind>, run: nat)
    requires open == [] && run > 0
    ensures Turn(open, run) == (Between(open, After(open, run)), After(open, run))
  {
    assert open + [Italic] == [Italic] && open + [Bold] == [Bold] && BothToggled(open) == [Bold, Italic];
    assert Opens([Italic]) == [Open(Italic)] && Opens([Bold]) == [Open(Bold)];
    assert Opens([Bold, Italic]) == [Open(Bold), Open(Italic)];
    assert forall kinds: seq<Kind> :: kinds[0..] == kinds;
  }

  lemma FromOne(open: seq<Kind>, a: Kind, run: nat)
    requires open == [a] && run > 0
    ensures Turn(open, run) == (Between(open, After(open, run)), After(open, run))
  {
    var b := Other(a);
    assert open[..0] == [] && BothToggled(open) == [b] && Toggled(open, a) == [] && Toggled(open, b) == [a] + [b];
    PopToIs(open, a);
    assert open == [] + [a] && ([a] + [b])[1..] == [b] && Opens([b]) == [Open(b)];
    assert Between([], []) == [] && Between([], [b]) == [Open(b)];
    assert Between([a], [a] + [b]) == [Open(b)];
    assert Between([a], []) == [Close(a)] && Between([a], [b]) == [Close(a), Open(b)];
    assert open[..0] + [b] == [b] && open == [a];
    assert After(open, run) == if run >= 3 then [b] else if (run == 2) == (a == Bold) then [] else [a] + [b];
  }

  lemma FromTwo(open: seq<Kind>, a: Kind, b: Kind, run: nat)
    requires open == [a, b] && a != b && run > 0
    ensures Turn(open, run) == (Between(open, After(open, run)), After(open, run))
  {
    assert open[..1] == [a] && [a][..0] == [] && open[..0] == [];
    PopToIs(open, a);
    PopToIs(open, b);
    assert Between([], []) == [] && Between([a], []) == [Close(a)] && Between([a], [a]) == [];
    assert Between(open, []) == [Close(b), Close(a)] && Between(open, [a]) == [Close(b)];
    assert open[1..] == [b];
    assert Below(open, a) == [] && Below(open, b) == [a];
  }

  lemma {:induction false} CloseAllIsBetween(open: seq<Kind>)
    ensures CloseAll(open) == Between(open, [])
  {
    if open != [] { CloseAllIsBetween(open[..|open| - 1]); }
  }

  /** For every text: the tokens are those that are meant. */
  lemma {:induction false} EmphasisIsMeant(s: string, open: seq<Kind>)
    requires Good(open)
    ensures Emphasised(s, open) == Meant(s, open)
    decreases |s|
  {
    if s == "" {
      CloseAllIsBetween(open);
    } else if s[0] != '*' {
      EmphasisIsMeant(s[1..], open);
    } else {
      var n := Run(s);
      TurnMeans(open, n);
      TurnNests(open, n);
      EmphasisIsMeant(s[n..], After(open, n));
    }
  }

  // ---------------------------------------------------------------- what a reader sees

  /** A character and what is open around it, outermost first. */
  datatype Styled = Styled(c: char, open: seq<Kind>)

  /** What the independent reader sees: each character with what it has open there. */
  function Read(tokens: seq<Token>, open: seq<Kind>): seq<Styled> {
    if tokens == [] then []
    else
      var rest := Read(tokens[1..], NestOne(tokens[0], open).1);
      if tokens[0].Char? then [Styled(tokens[0].c, open)] + rest else rest
  }

  /** How each character of a text is meant to look. */
  function Looks(s: string, open: seq<Kind>): seq<Styled>
    decreases |s|
  {
    if s == "" then []
    else if s[0] != '*' then [Styled(s[0], open)] + Looks(s[1..], open)
    else
      var n, after := Run(s), After(open, Run(s));
      seq(if n > 3 then n - 3 else 0, _ => Styled('*', after)) + Looks(s[n..], after)
  }

  lemma {:induction false} ReadAppend(a: seq<Token>, b: seq<Token>, open: seq<Kind>)
    requires Nest(a, open).0
    ensures Read(a + b, open) == Read(a, open) + Read(b, Nest(a, open).1)
  {
    if a == [] {
      assert a + b == b;
    } else {
      assert (a + b)[1..] == a[1..] + b;
      ReadAppend(a[1..], b, NestOne(a[0], open).1);
    }
  }

  lemma {:induction false} ReadTags(tags: seq<Token>, open: seq<Kind>)
    requires OnlyTags(tags)
    ensures Read(tags, open) == []
  {
    if tags != [] { ReadTags(tags[1..], NestOne(tags[0], open).1); }
  }

  lemma {:induction false} ReadStars(n: nat, open: seq<Kind>)
    ensures Read(Stars(n), open) == seq(n, _ => Styled('*', open))
  {
    if n > 0 {
      assert Stars(n)[1..] == Stars(n - 1);
      ReadStars(n - 1, open);
    }
  }

  lemma TurnReads(open: seq<Kind>, n: nat, rest: seq<Token>)
    requires Good(open) && n > 0
    ensures var after := After(open, n);
      Good(after) && Read(Turn(open, n).0 + Stars(Drop(n)) + rest, open)
        == seq(if n > 3 then n - 3 else 0, _ => Styled('*', after)) + Read(rest, after)
  {
    var tags, after := Turn(open, n).0, After(open, n);
    TurnMeans(open, n);
    TurnNests(open, n);
    PopToTags(open, Bold);
    PopToTags(open, Italic);
    ReadTags(tags, open);
    StarsNest(Drop(n), after);
    ReadStars(Drop(n), after);
    NestAppend(tags, Stars(Drop(n)), open);
    ReadAppend(tags, Stars(Drop(n)), open);
    ReadAppend(tags + Stars(Drop(n)), rest, open);
  }

  /** For every text: each character looks as it is meant to. */
  lemma {:induction false} EmphasisLooks(s: string, open: seq<Kind>)
    requires Good(open)
    ensures Read(Emphasised(s, open), open) == Looks(s, open)
    decreases |s|
  {
    if s == "" {
      CloseAllTags(open);
      ReadTags(CloseAll(open), open);
    } else if s[0] != '*' {
      EmphasisLooks(s[1..], open);
      assert Emphasised(s, open)[1..] == Emphasised(s[1..], open);
    } else {
      var n := Run(s);
      TurnMeans(open, n);
      TurnReads(open, n, Emphasised(s[n..], After(open, n)));
      EmphasisLooks(s[n..], After(open, n));
    }
  }

  // ---------------------------------------------------------------- whole texts

  function Chars(a: string): seq<Token> { seq(|a|, i requires 0 <= i < |a| => Char(a[i])) }

  lemma {:induction false} MeantText(a: string, rest: string, open: seq<Kind>)
    requires '*' !in a
    ensures Emphasised(a + rest, open) == Chars(a) + Emphasised(rest, open)
  {
    if a == "" {
      assert a + rest == rest;
    } else {
      assert (a + rest)[1..] == a[1..] + rest && (a + rest)[0] == a[0];
      MeantText(a[1..], rest, open);
    }
  }

  lemma {:induction false} RunOf(n: nat, rest: string)
    requires rest == "" || rest[0] != '*'
    ensures Run(Repeat('*', n) + rest) == n && (Repeat('*', n) + rest)[n..] == rest
  {
    if n > 0 {
      assert (Repeat('*', n) + rest)[1..] == Repeat('*', n - 1) + rest;
      RunOf(n - 1, rest);
    }
  }

  /** A run of asterisks and what follows it. */
  lemma MeantRun(n: nat, rest: string, open: seq<Kind>)
    requires Good(open) && n > 0 && (rest == "" || rest[0] != '*')
    ensures Emphasised(Repeat('*', n) + rest, open)
      == Between(open, After(open, n)) + Stars(if n > 3 then n - 3 else 0) + Emphasised(rest, After(open, n))
  {
    RunOf(n, rest);
    TurnMeans(open, n);
    assert (Repeat('*', n) + rest)[0] == '*';
  }

  /** Text between two runs of one, two or three asterisks. */
  lemma Surrounded(n: nat, a: string)
    requires 1 <= n <= 3 && a != "" && '*' !in a
    ensures Emphasised(Repeat('*', n) + (a + Repeat('*', n)), [])
      == Between([], After([], n)) + Chars(a) + Between(After([], n), [])
  {
    var end, open := Repeat('*', n), After([], n);
    assert (a + end)[0] == a[0];
    MeantRun(n, a + end, []);
    TurnMeans([], n);
    TurnNests([], n);
    Closed(n, a, end, open);
    Tidied(Between([], open), Chars(a), Between(open, []));
  }

  lemma Closed(n: nat, a: string, end: string, open: seq<Kind>)
    requires 1 <= n <= 3 && '*' !in a && end == Repeat('*', n) && open == After([], n) && Good(open)
    ensures Emphasised(a + end, open) == Chars(a) + Between(open, [])
  {
    MeantText(a, end, open);
    Returns(n);
    LastRun(n, end, open, []);
  }

  lemma LastRun(n: nat, end: string, open: seq<Kind>, none: seq<Kind>)
    requires 1 <= n <= 3 && end == Repeat('*', n) && Good(open) && none == [] && After(open, n) == none
    ensures Emphasised(end, open) == Between(open, none)
  {
    MeantRun(n, "", open);
    assert end + "" == end;
    assert Between(open, none) + Stars(0) + [] == Between(open, none);
  }

  lemma Tidied(a: seq<Token>, b: seq<Token>, c: seq<Token>)
    ensures a + Stars(0) + (b + c) == a + b + c
  {
  }

  lemma Returns(n: nat)
    requires 1 <= n <= 3
    ensures After(After([], n), n) == []
  {
  }

  /** `*a*`, `**a**` and `***a***` */
  lemma StarsMean(a: string)
    requires a != "" && '*' !in a
    ensures Emphasised("*" + (a + "*"), []) == [Open(Italic)] + Chars(a) + [Close(Italic)]
    ensures Emphasised("**" + (a + "**"), []) == [Open(Bold)] + Chars(a) + [Close(Bold)]
    ensures Emphasised("***" + (a + "***"), [])
      == [Open(Bold), Open(Italic)] + Chars(a) + [Close(Italic), Close(Bold)]
  {
    Surrounded(1, a);
    Surrounded(2, a);
    Surrounded(3, a);
    assert Repeat('*', 1) == "*" && Repeat('*', 2) == "**" && Repeat('*', 3) == "***";
    ThreeStates();
  }

  lemma ThreeStates()
    ensures Between([], After([], 1)) == [Open(Italic)] && Between(After([], 1), []) == [Close(Italic)]
    ensures Between([], After([], 2)) == [Open(Bold)] && Between(After([], 2), []) == [Close(Bold)]
    ensures Between([], After([], 3)) == [Open(Bold), Open(Italic)]
    ensures Between(After([], 3), []) == [Close(Italic), Close(Bold)]
  {
    assert After([], 1) == [Italic] && After([], 2) == [Bold] && After([], 3) == [Bold, Italic];
    assert [Bold, Italic][..1] == [Bold] && [Bold][..0] == [] && [Italic][..0] == [];
    assert Between([], []) == [] && Between([Bold], []) == [Close(Bold)];
  }
}
