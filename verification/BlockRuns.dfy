/** Whole runs of the block parser: when they end, and which lines the blocks account for. */
module BlockRuns {
  import opened Options
  import opened MdLines
  import opened Blocks

  // ---------------------------------------------------------------- progress

  /** A turn advances unless the line it starts at is a list marker with only whitespace behind it. */
  lemma TurnAdvances(lines: seq<string>, i: nat)
    requires i < |lines|
    ensures TakeTurn(lines, i).next > i <==> !BareMarker(lines[i])
    ensures BareMarker(lines[i]) ==> TakeTurn(lines, i) == Turn(i, None)
  {
    if BareMarker(lines[i]) {
      BareMarkerStartsNothing(lines, i);
    }
  }

  lemma BareMarkerStartsNothing(lines: seq<string>, i: nat)
    requires i < |lines| && BareMarker(lines[i])
    ensures var s := Strip(lines[i]);
      s != "" && !IsFence(lines[i]) && !IsRule(s) && !IsHeading(s) && !StartsTable(lines, i) && !IsQuote(lines[i])
  {
    BareMarkerShape(lines[i]);
    MarkerStartsNothing(Strip(lines[i]));
  }

  lemma MarkerStartsNothing(s: string)
    requires s in ["-", "*", "+"] || (|s| >= 2 && IsDigit(s[0]))
    ensures s != "" && !("```" <= s) && !IsRule(s) && !IsHeading(s) && !(">" <= s)
  {
    if |s| == 1 {
      SingleIsNoRule(s);
    }
    assert Hashes(s) == 0;
  }

  lemma SingleIsNoRule(s: string)
    requires |s| == 1
    ensures !IsRule(s)
  {
    forall m ensures Count(s, m) <= 1 {
      assert Count(s[1..], m) == 0;
    }
  }

  /** The variables of the outer loop. */
  datatype State = State(i: nat, blocks: seq<Block>)

  function Step(turn: nat -> Turn, n: nat, st: State): State {
    if st.i >= n then st
    else
      var t := turn(st.i);
      State(t.next, if t.block.Some? then st.blocks + [t.block.value] else st.blocks)
  }

  /** The state after `k` turns. */
  function Run(turn: nat -> Turn, n: nat, st: State, k: nat): State
    decreases k
  {
    if k == 0 then st else Run(turn, n, Step(turn, n, st), k - 1)
  }

  /** A turn that does not advance changes nothing. */
  ghost predicate StallsInPlace(turn: nat -> Turn, n: nat) {
    forall i: nat :: i < n && turn(i).next <= i ==> turn(i) == Turn(i, None)
  }

  lemma {:induction false} RunDone(turn: nat -> Turn, n: nat, st: State, k: nat)
    requires ParseFrom(turn, n, st.i).Done? && k + st.i >= n
    ensures Run(turn, n, st, k).i >= n
    ensures Run(turn, n, st, k).blocks == st.blocks + BlocksOf(ParseFrom(turn, n, st.i).spans)
    decreases k
  {
    if st.i >= n {
      RunStays(turn, n, st, k);
    } else {
      RunDone(turn, n, Step(turn, n, st), k - 1);
      StepBlocks(turn, n, st);
    }
  }

  lemma {:induction false} RunStuck(turn: nat -> Turn, n: nat, st: State, k: nat)
    requires StallsInPlace(turn, n)
    requires ParseFrom(turn, n, st.i).Stuck? && k + st.i >= ParseFrom(turn, n, st.i).at
    ensures var r := ParseFrom(turn, n, st.i);
      Run(turn, n, st, k) == State(r.at, st.blocks + BlocksOf(r.spans))
    decreases k
  {
    if turn(st.i).next <= st.i {
      RunStays(turn, n, st, k);
    } else {
      StuckStalls(turn, n, turn(st.i).next);
      RunStuck(turn, n, Step(turn, n, st), k - 1);
      StepBlocks(turn, n, st);
    }
  }

  lemma {:induction false} RunStays(turn: nat -> Turn, n: nat, st: State, k: nat)
    requires Step(turn, n, st) == st
    ensures Run(turn, n, st, k) == st
    decreases k
  {
    if k > 0 { RunStays(turn, n, st, k - 1); }
  }

  lemma StepBlocks(turn: nat -> Turn, n: nat, st: State)
    requires st.i < n && turn(st.i).next > st.i
    ensures var later := ParseFrom(turn, n, turn(st.i).next).spans;
      Step(turn, n, st).blocks + BlocksOf(later) == st.blocks + BlocksOf(ParseFrom(turn, n, st.i).spans)
  {
    var t := turn(st.i);
    var later := ParseFrom(turn, n, t.next).spans;
    assert ParseFrom(turn, n, st.i).spans == SpanOf(t, st.i) + later;
    BlocksOfBoth(SpanOf(t, st.i), later);
  }

  lemma BlocksOfBoth(a: seq<Span>, b: seq<Span>)
    ensures BlocksOf(a + b) == BlocksOf(a) + BlocksOf(b)
  {
  }

  lemma {:induction false} StuckStalls(turn: nat -> Turn, n: nat, i: nat)
    requires ParseFrom(turn, n, i).Stuck?
    ensures var at := ParseFrom(turn, n, i).at; i <= at < n && turn(at).next <= at
    decreases n - i
  {
    if turn(i).next > i { StuckStalls(turn, n, turn(i).next); }
  }

  lemma {:induction false} NeverStalls(turn: nat -> Turn, n: nat, st: State, j: nat)
    requires ParseFrom(turn, n, st.i).Done? && Run(turn, n, st, j).i < n
    ensures turn(Run(turn, n, st, j).i).next > Run(turn, n, st, j).i
    decreases j
  {
    if j > 0 { NeverStalls(turn, n, Step(turn, n, st), j - 1); }
  }

  /** The parser's state after `k` turns. */
  function StateAfter(lines: seq<string>, k: nat): State { Run(Turns(lines), |lines|, State(0, []), k) }

  /** Some turn starts at a bare list marker. */
  ghost predicate ReachesBareMarker(lines: seq<string>) {
    exists j: nat :: StateAfter(lines, j).i < |lines| && BareMarker(lines[StateAfter(lines, j).i])
  }

  /**
    Exact termination.  Unless some turn starts at a bare list marker, the loop has ended after as
    many turns as there are lines; if one does, the variables stay for ever as they are there.
   */
  lemma Termination(lines: seq<string>, k: nat)
    requires k >= |lines|
    ensures StateAfter(lines, k).i >= |lines| <==> !ReachesBareMarker(lines)
    ensures StateAfter(lines, k) == StateAfter(lines, |lines|)
    ensures StateAfter(lines, k).blocks == BlocksOf(Parsed(lines).spans)
    ensures Parsed(lines).Done? <==> !ReachesBareMarker(lines)
  {
    var turn, n, st := Turns(lines), |lines|, State(0, []);
    Stalls(lines);
    assert st.blocks == [];
    var r := Parsed(lines);
    assert [] + BlocksOf(r.spans) == BlocksOf(r.spans);
    if r.Done? {
      RunDone(turn, n, st, k);
      RunDone(turn, n, st, n);
      RunFixed(turn, n, st, k);
      forall j: nat | StateAfter(lines, j).i < n
        ensures !BareMarker(lines[StateAfter(lines, j).i])
      {
        NeverStalls(turn, n, st, j);
        TurnAdvances(lines, StateAfter(lines, j).i);
      }
    } else {
      StuckStalls(turn, n, 0);
      RunStuck(turn, n, st, k);
      RunStuck(turn, n, st, n);
      TurnAdvances(lines, r.at);
      assert StateAfter(lines, n).i == r.at;
    }
  }

  lemma Stalls(lines: seq<string>)
    ensures StallsInPlace(Turns(lines), |lines|)
  {
    forall i: nat | i < |lines| && Turns(lines)(i).next <= i
      ensures Turns(lines)(i) == Turn(i, None)
    {
      TurnAdvances(lines, i);
    }
  }

  /** A run that has reached the end stays there. */
  lemma {:induction false} RunFixed(turn: nat -> Turn, n: nat, st: State, k: nat)
    requires Run(turn, n, st, n).i >= n && k >= n
    ensures Run(turn, n, st, k) == Run(turn, n, st, n)
  {
    RunSplit(turn, n, st, n, k - n);
    RunStays(turn, n, Run(turn, n, st, n), k - n);
  }

  lemma {:induction false} RunSplit(turn: nat -> Turn, n: nat, st: State, a: nat, b: nat)
    ensures Run(turn, n, st, a + b) == Run(turn, n, Run(turn, n, st, a), b)
    decreases a
  {
    if a > 0 { RunSplit(turn, n, Step(turn, n, st), a - 1, b); }
  }

  /** A hyphen and a space is a bare marker. */
  lemma HyphenIsBare(line: string)
    requires line == "- "
    ensures BareMarker(line)
  {
    var r := line[..1];
    assert !IsSpace(line[0]) && IsSpace(line[1]) && Indent(line) == 0 && LStrip(line) == line;
    assert line[..1] == r && RStrip(r) == r && RStrip(line) == r;
    assert Indent(r) == 0 && LStrip(r) == r && AfterMarker(r) == "";
    assert AfterMarker(line)[0] == line[1];
  }

  /** The parser never gets past a document of one such line. */
  lemma HyphenNeverEnds(lines: seq<string>, k: nat)
    requires lines == ["- "]
    ensures ReachesBareMarker(lines) && StateAfter(lines, k) == State(0, [])
  {
    HyphenIsBare(lines[0]);
    assert StateAfter(lines, 0).i == 0;
    TurnAdvances(lines, 0);
    RunStays(Turns(lines), 1, State(0, []), k);
  }

  // ---------------------------------------------------------------- coverage

  /** The spans lie one after the other between `lo` and `hi`. */
  predicate InOrder(spans: seq<Span>, lo: nat, hi: nat) {
    && (forall k :: 0 <= k < |spans| ==> lo <= spans[k].from < spans[k].to <= hi)
    && (forall k, l :: 0 <= k < l < |spans| ==> spans[k].to <= spans[l].from)
  }

  predicate Within(spans: seq<Span>, k: nat) {
    exists m :: 0 <= m < |spans| && spans[m].from <= k < spans[m].to
  }

  function Reach(r: Outcome, n: nat): nat { if r.Stuck? then r.at else n }

  /** A turn that makes no block passes one blank line; one that does stays within the file, or one past it. */
  ghost predicate SkipsOnlyBlanks(turn: nat -> Turn, blank: nat -> bool, n: nat) {
    forall i: nat :: i < n && turn(i).next > i ==> SkipsBlank(turn(i), blank, i, n)
  }

  predicate SkipsBlank(t: Turn, blank: nat -> bool, i: nat, n: nat) {
    if t.block.None? then t.next == i + 1 && blank(i) else t.next <= n + 1
  }

  predicate Covered(spans: seq<Span>, blank: nat -> bool, lo: nat, hi: nat) {
    forall k: nat :: lo <= k < hi && !blank(k) ==> Within(spans, k)
  }

  lemma {:induction false} CoveredFrom(turn: nat -> Turn, blank: nat -> bool, n: nat, i: nat)
    requires SkipsOnlyBlanks(turn, blank, n)
    ensures var r := ParseFrom(turn, n, i);
      && InOrder(r.spans, i, if r.Stuck? then r.at else n + 1)
      && Covered(r.spans, blank, i, Reach(r, n))
    decreases n - i
  {
    if i < n && turn(i).next > i {
      CoveredFrom(turn, blank, n, turn(i).next);
      var r := ParseFrom(turn, n, turn(i).next);
      if r.Stuck? { StuckStalls(turn, n, turn(i).next); }
      CoversMore(turn(i), blank, i, r, Reach(r, n), if r.Stuck? then r.at else n + 1);
    }
  }

  lemma CoversMore(t: Turn, blank: nat -> bool, i: nat, later: Outcome, reach: nat, hi: nat)
    requires i < t.next && t.next <= hi
    requires t.block.None? ==> t.next == i + 1 && blank(i)
    requires InOrder(later.spans, t.next, hi) && Covered(later.spans, blank, t.next, reach)
    ensures InOrder(SpanOf(t, i) + later.spans, i, hi)
    ensures Covered(SpanOf(t, i) + later.spans, blank, i, reach)
  {
    var first := SpanOf(t, i);
    var all := first + later.spans;
    forall k: nat | i <= k < reach && !blank(k)
      ensures Within(all, k)
    {
      if k < t.next {
        assert all[0] == first[0];
      } else {
        var m :| 0 <= m < |later.spans| && later.spans[m].from <= k < later.spans[m].to;
        assert all[|first| + m] == later.spans[m];
      }
    }
  }

  lemma TurnSkipsBlank(lines: seq<string>, i: nat, blank: nat -> bool)
    requires i < |lines| && Turns(lines)(i).next > i && blank(i) == Blank(lines[i])
    ensures SkipsBlank(Turns(lines)(i), blank, i, |lines|)
  {
    assert Turns(lines)(i) == TakeTurn(lines, i);
  }

  /** The blocks lie in order, do not overlap, and leave out only blank lines. */
  lemma NothingSkipped(lines: seq<string>)
    ensures var r := Parsed(lines);
      && InOrder(r.spans, 0, if r.Stuck? then r.at else |lines| + 1)
      && forall k: nat :: k < Reach(r, |lines|) && k < |lines| && !Blank(lines[k]) ==> Within(r.spans, k)
  {
    var blank := (k: nat) => k < |lines| && Blank(lines[k]);
    assert SkipsOnlyBlanks(Turns(lines), blank, |lines|) by {
      forall i: nat | i < |lines| && Turns(lines)(i).next > i ensures SkipsBlank(Turns(lines)(i), blank, i, |lines|) {
        TurnSkipsBlank(lines, i, blank);
      }
    }
    CoveredFrom(Turns(lines), blank, |lines|, 0);
  }
}
