/**
  `_emphasis` of tools/md-to-pdf.py: asterisk emphasis turned into opening and closing tags with
  the help of a stack.
 */
module Emphasis {
  import opened Text

  datatype Kind = Bold | Italic
  datatype Token = Char(c: char) | Open(kind: Kind) | Close(kind: Kind)

  function Other(k: Kind): Kind { if k == Bold then Italic else Bold }

  /** How many asterisks `s` starts with. */
  function Run(s: string): (n: nat)
    ensures n <= |s| && (n < |s| ==> s[n] != '*')
    ensures forall i :: 0 <= i < n ==> s[i] == '*'
  {
    if s == [] || s[0] != '*' then 0 else 1 + Run(s[1..])
  }

  function Stars(n: nat): (t: seq<Token>)
    ensures |t| == n && forall i :: 0 <= i < n ==> t[i] == Char('*')
  {
    seq(n, _ => Char('*'))
  }

  function Drop(n: nat): nat { if n >= 3 then n - 3 else 0 }

  /** Closing tags from the top of the stack, down to and including the first `kind`. */
  function PopTo(stack: seq<Kind>, kind: Kind): (r: (seq<Token>, seq<Kind>)) {
    if stack == [] then ([], [])
    else
      var top, below := stack[|stack| - 1], stack[..|stack| - 1];
      if top == kind then ([Close(top)], below)
      else var r := PopTo(below, kind); ([Close(top)] + r.0, r.1)
  }

  function CloseAll(stack: seq<Kind>): seq<Token> {
    if stack == [] then [] else [Close(stack[|stack| - 1])] + CloseAll(stack[..|stack| - 1])
  }

  /** What a run of asterisks does to the stack, and the tags it writes. */
  function Turn(stack: seq<Kind>, run: nat): (r: (seq<Token>, seq<Kind>)) {
    var n := |stack|;
    if run >= 3 then
      if n >= 2 && stack[n - 1] != stack[n - 2] then ([Close(stack[n - 1]), Close(stack[n - 2])], stack[..n - 2])
      else if n == 0 then ([Open(Bold), Open(Italic)], [Bold, Italic])
      else ([Close(stack[n - 1]), Open(Other(stack[n - 1]))], stack[..n - 1] + [Other(stack[n - 1])])
    else
      var kind := if run == 2 then Bold else Italic;
      if kind in stack then PopTo(stack, kind) else ([Open(kind)], stack + [kind])
  }

  /** The tags and characters for `s`, starting with `stack` still open. */
  function Emphasised(s: string, stack: seq<Kind>): seq<Token>
    decreases |s|
  {
    if s == [] then CloseAll(stack)
    else if s[0] != '*' then [Char(s[0])] + Emphasised(s[1..], stack)
    else
      var run := Run(s);
      Turn(stack, run).0 + Stars(Drop(run)) + Emphasised(s[run..], Turn(stack, run).1)
  }

  method Emphasise(p: string) returns (out: seq<Token>)
    ensures out == Emphasised(p, [])
  {
    out := [];
    var stack: seq<Kind> := [];
    var i, n := 0, |p|;
    assert p[0..] == p;
    while i < n
      invariant 0 <= i <= n
      invariant out + Emphasised(p[i..], stack) == Emphasised(p, [])
    {
      if p[i] != '*' {
        assert p[i..][1..] == p[i + 1..];
        out := out + [Char(p[i])];
        i := i + 1;
        continue;
      }
      var j := i;
      while j < n && p[j] == '*'
        invariant i <= j <= n && forall k :: i <= k < j ==> p[k] == '*'
      {
        j := j + 1;
      }
      var run := j - i;
      RunIs(p, i, j);
      EmphasisedRun(p, i, j, out, stack);
      out, stack := TakeTurn(out, stack, run);
      i := j;
    }
    while stack != []
      invariant out + CloseAll(stack) == Emphasised(p, [])
      decreases |stack|
    {
      out := out + [Close(stack[|stack| - 1])];
      stack := stack[..|stack| - 1];
    }
  }

  lemma {:induction false} RunIs(p: string, i: nat, j: nat)
    requires i <= j <= |p| && (j < |p| ==> p[j] != '*') && forall k :: i <= k < j ==> p[k] == '*'
    ensures Run(p[i..]) == j - i && p[i..][j - i..] == p[j..]
    decreases j - i
  {
    if i < j {
      RunIs(p, i + 1, j);
      assert p[i..][1..] == p[i + 1..];
    }
  }

  /** One run of asterisks. */
  method TakeTurn(out0: seq<Token>, stack0: seq<Kind>, run: nat) returns (out: seq<Token>, stack: seq<Kind>)
    requires run > 0
    ensures out == out0 + (Turn(stack0, run).0 + Stars(Drop(run))) && stack == Turn(stack0, run).1
  {
    out, stack := out0, stack0;
    var used := run;
    if run >= 3 {
      if |stack| >= 2 && stack[|stack| - 1] != stack[|stack| - 2] {
        out := out + [Close(stack[|stack| - 1])];
        stack := stack[..|stack| - 1];
        out := out + [Close(stack[|stack| - 1])];
        stack := stack[..|stack| - 1];
      } else if stack == [] {
        stack := stack + [Bold];
        out := out + [Open(Bold)];
        stack := stack + [Italic];
        out := out + [Open(Italic)];
      } else {
        var top := stack[|stack| - 1];
        stack := stack[..|stack| - 1];
        out := out + [Close(top)];
        stack := stack + [Other(top)];
        out := out + [Open(Other(top))];
      }
      used := 3;
    } else {
      var kind := if run == 2 then Bold else Italic;
      if kind in stack {
        out, stack := PopKind(out, stack, kind);
      } else {
        stack := stack + [kind];
        out := out + [Open(kind)];
      }
    }
    if run > used { out := out + Stars(run - used); }
  }

  /** A run of asterisks moves from what is still to come to what has been done. */
  lemma EmphasisedRun(p: string, i: nat, j: nat, out: seq<Token>, stack: seq<Kind>)
    requires i < j <= |p| && p[i] == '*' && Run(p[i..]) == j - i && p[i..][j - i..] == p[j..]
    ensures var r := Turn(stack, j - i);
      out + Emphasised(p[i..], stack) == out + (r.0 + Stars(Drop(j - i))) + Emphasised(p[j..], r.1)
  {
    var r := Turn(stack, j - i);
    Regroup(out, r.0, Stars(Drop(j - i)), Emphasised(p[j..], r.1));
  }

  lemma Regroup(a: seq<Token>, b: seq<Token>, c: seq<Token>, d: seq<Token>)
    ensures a + (b + c) + d == a + (b + c + d)
  {
  }

  /** `while stack: ... if top == kind: break` */
  method PopKind(out0: seq<Token>, stack0: seq<Kind>, kind: Kind) returns (out: seq<Token>, stack: seq<Kind>)
    ensures out == out0 + PopTo(stack0, kind).0 && stack == PopTo(stack0, kind).1
  {
    out, stack := out0, stack0;
    while stack != []
      invariant out + PopTo(stack, kind).0 == out0 + PopTo(stack0, kind).0
      invariant PopTo(stack, kind).1 == PopTo(stack0, kind).1
      decreases |stack|
    {
      var top := stack[|stack| - 1];
      stack := stack[..|stack| - 1];
      out := out + [Close(top)];
      if top == kind { break; }
    }
  }

  // ---------------------------------------------------------------- well nested

  /**
    An independent reader of the output: an opening tag must not already be open, a closing tag
    must close the latest open one.  Returns what is open at the end.
   */
  function Nest(tokens: seq<Token>, open: seq<Kind>): (r: (bool, seq<Kind>)) {
    if tokens == [] then (true, open)
    else
      var step := NestOne(tokens[0], open);
      if step.0 then Nest(tokens[1..], step.1) else step
  }

  function NestOne(token: Token, open: seq<Kind>): (bool, seq<Kind>) {
    match token
    case Char(_) => (true, open)
    case Open(k) => if k in open then (false, open) else (true, open + [k])
    case Close(k) =>
      if open == [] || open[|open| - 1] != k then (false, open) else (true, open[..|open| - 1])
  }

  lemma {:induction false} NestAppend(a: seq<Token>, b: seq<Token>, open: seq<Kind>)
    requires Nest(a, open).0
    ensures Nest(a + b, open) == Nest(b, Nest(a, open).1)
  {
    if a == [] {
      assert a + b == b;
    } else {
      assert (a + b)[1..] == a[1..] + b;
      NestAppend(a[1..], b, NestOne(a[0], open).1);
    }
  }

  /** The only stacks there ever are: at most two entries, and two different ones. */
  predicate Good(stack: seq<Kind>) {
    |stack| <= 2 && (|stack| == 2 ==> stack[0] != stack[1])
  }

  lemma NestTwo(a: Token, b: Token, open: seq<Kind>)
    ensures Nest([a], open) == NestOne(a, open)
    ensures Nest([a, b], open) == if NestOne(a, open).0 then NestOne(b, NestOne(a, open).1) else NestOne(a, open)
  {
    NestSingle(a, open);
    NestSingle(b, NestOne(a, open).1);
    assert [a, b][1..] == [b];
  }

  lemma NestSingle(a: Token, open: seq<Kind>)
    ensures Nest([a], open) == NestOne(a, open)
  {
    assert [a][1..] == [];
  }

  lemma TurnNests(stack: seq<Kind>, run: nat)
    requires Good(stack) && run > 0
    ensures Good(Turn(stack, run).1)
    ensures Nest(Turn(stack, run).0, stack) == (true, Turn(stack, run).1)
  {
    var tags, after := Turn(stack, run).0, Turn(stack, run).1;
    var kind := if run == 2 then Bold else Italic;
    if run < 3 && kind in stack { PopToIs(stack, kind); }
    if |tags| == 2 {
      assert tags == [tags[0], tags[1]];
      NestTwo(tags[0], tags[1], stack);
      assert NestOne(tags[1], NestOne(tags[0], stack).1).1 == after;
    } else {
      assert tags == [tags[0]];
      NestTwo(tags[0], tags[0], stack);
    }
  }

  lemma PopToIs(stack: seq<Kind>, kind: Kind)
    requires Good(stack) && kind in stack
    ensures var n := |stack|;
      PopTo(stack, kind) == if stack[n - 1] == kind then ([Close(kind)], stack[..n - 1])
                            else ([Close(stack[n - 1]), Close(kind)], stack[..n - 2])
  {
    if stack[|stack| - 1] != kind {
      var below := stack[..|stack| - 1];
      assert below == [kind];
      assert PopTo(below, kind) == ([Close(kind)], below[..0]);
      assert below[..0] == stack[..|stack| - 2];
      assert [Close(stack[|stack| - 1])] + [Close(kind)] == [Close(stack[|stack| - 1]), Close(kind)];
    }
  }

  lemma {:induction false} CloseAllNests(stack: seq<Kind>)
    ensures Nest(CloseAll(stack), stack) == (true, [])
  {
    if stack != [] {
      var below := stack[..|stack| - 1];
      assert CloseAll(stack)[1..] == CloseAll(below);
      CloseAllNests(below);
    }
  }

  lemma {:induction false} StarsNest(n: nat, open: seq<Kind>)
    ensures Nest(Stars(n), open) == (true, open)
  {
    if n > 0 {
      assert Stars(n)[1..] == Stars(n - 1);
      StarsNest(n - 1, open);
    }
  }

  /** Whatever the text, the output is well nested, never opens a tag twice, and ends with none open. */
  lemma {:induction false} EmphasisNests(s: string, stack: seq<Kind>)
    requires Good(stack)
    ensures Nest(Emphasised(s, stack), stack) == (true, [])
    decreases |s|
  {
    if s == [] {
      CloseAllNests(stack);
    } else if s[0] != '*' {
      EmphasisNests(s[1..], stack);
      assert Emphasised(s, stack)[1..] == Emphasised(s[1..], stack);
    } else {
      var run := Run(s);
      var r := Turn(stack, run);
      TurnNests(stack, run);
      StarsNest(Drop(run), r.1);
      EmphasisNests(s[run..], r.1);
      NestAppend(r.0, Stars(Drop(run)), stack);
      NestAppend(r.0 + Stars(Drop(run)), Emphasised(s[run..], r.1), stack);
    }
  }

  // ---------------------------------------------------------------- nothing lost

  function Plain(tokens: seq<Token>): string {
    if tokens == [] then ""
    else PlainOne(tokens[0]) + Plain(tokens[1..])
  }

  function PlainOne(token: Token): string { if token.Char? then [token.c] else "" }

  /** The text with each maximal run of `r` asterisks shortened to `max(0, r - 3)`. */
  function Thinned(s: string): string
    decreases |s|
  {
    if s == [] then ""
    else if s[0] != '*' then [s[0]] + Thinned(s[1..])
    else seq(Drop(Run(s)), _ => '*') + Thinned(s[Run(s)..])
  }

  lemma {:induction false} PlainAppend(a: seq<Token>, b: seq<Token>)
    ensures Plain(a + b) == Plain(a) + Plain(b)
  {
    if a == [] {
      assert a + b == b;
    } else {
      assert (a + b)[1..] == a[1..] + b;
      PlainAppend(a[1..], b);
      Concat(PlainOne(a[0]), Plain(a[1..]), Plain(b));
    }
  }

  lemma {:induction false} PlainStars(n: nat)
    ensures Plain(Stars(n)) == seq(n, _ => '*')
  {
    if n > 0 {
      assert Stars(n)[1..] == Stars(n - 1);
      PlainStars(n - 1);
      assert seq(n, _ => '*') == ['*'] + seq(n - 1, _ => '*');
    }
  }

  predicate OnlyTags(tokens: seq<Token>) {
    forall i :: 0 <= i < |tokens| ==> !tokens[i].Char?
  }

  lemma {:induction false} TagsArePlainNothing(tokens: seq<Token>)
    requires OnlyTags(tokens)
    ensures Plain(tokens) == ""
  {
    if tokens != [] { TagsArePlainNothing(tokens[1..]); }
  }

  lemma {:induction false} PopToTags(stack: seq<Kind>, kind: Kind)
    ensures OnlyTags(PopTo(stack, kind).0)
  {
    if stack != [] { PopToTags(stack[..|stack| - 1], kind); }
  }

  lemma {:induction false} CloseAllTags(stack: seq<Kind>)
    ensures OnlyTags(CloseAll(stack))
  {
    if stack != [] { CloseAllTags(stack[..|stack| - 1]); }
  }

  /** Taking the tags away again leaves the text, thinned of the asterisks that made them. */
  lemma {:induction false} EmphasisKeepsText(s: string, stack: seq<Kind>)
    ensures Plain(Emphasised(s, stack)) == Thinned(s)
    decreases |s|
  {
    if s == [] {
      CloseAllTags(stack);
      TagsArePlainNothing(CloseAll(stack));
    } else if s[0] != '*' {
      EmphasisKeepsText(s[1..], stack);
      assert Emphasised(s, stack)[1..] == Emphasised(s[1..], stack);
    } else {
      var run := Run(s);
      var r := Turn(stack, run);
      PopToTags(stack, if run == 2 then Bold else Italic);
      TagsArePlainNothing(r.0);
      PlainStars(Drop(run));
      EmphasisKeepsText(s[run..], r.1);
      PlainAppend(r.0, Stars(Drop(run)));
      PlainAppend(r.0 + Stars(Drop(run)), Emphasised(s[run..], r.1));
    }
  }
}
