/** paper/assemble.py: counting the words and tables of the sections, and joining them. */
module Assemble {
  import opened Text
  import opened MdLines

  // ---------------------------------------------------------------- lines and words

  /** Where `str.splitlines` breaks a line. */
  predicate IsBreak(c: char) {
    var n := c as int;
    10 <= n <= 13 || 28 <= n <= 30 || n == 0x85 || n == 0x2028 || n == 0x2029
  }

  function FirstBreak(s: string): (k: nat)
    ensures k <= |s| && (k < |s| ==> IsBreak(s[k]))
    ensures forall i :: 0 <= i < k ==> !IsBreak(s[i])
  {
    if s == "" || IsBreak(s[0]) then 0 else 1 + FirstBreak(s[1..])
  }

  /** The length of the line break at `k`: `\r\n` counts as one. */
  function BreakLength(s: string, k: nat): (n: nat)
    requires k < |s|
    ensures 1 <= n <= |s| - k
  {
    if s[k] == '\r' && k + 1 < |s| && s[k + 1] == '\n' then 2 else 1
  }

  /** `s.splitlines()` */
  function SplitLines(s: string): seq<string>
    decreases |s|
  {
    if s == "" then []
    else
      var k := FirstBreak(s);
      if k == |s| then [s] else [s[..k]] + SplitLines(s[k + BreakLength(s, k)..])
  }

  /** `len(s.split())`: the number of places where a word begins. */
  function WordCount(s: string): nat {
    if s == "" then 0
    else
      var last := |s| - 1;
      WordCount(s[..last]) + if !IsSpace(s[last]) && (last == 0 || IsSpace(s[last - 1])) then 1 else 0
  }

  /** A word: visible characters only. */
  predicate IsWord(word: string) { word != "" && forall i :: 0 <= i < |word| ==> !IsSpace(word[i]) }

  /** Words with whitespace before, between and after them: `gaps[0]`, a word, `gaps[1]`, and so on. */
  function Spaced(words: seq<string>, gaps: seq<string>): string
    requires |gaps| == |words| + 1
  {
    if words == [] then gaps[0]
    else Spaced(words[..|words| - 1], gaps[..|words|]) + words[|words| - 1] + gaps[|words|]
  }

  /** The word that may be going on at the end of a text. */
  predicate EndsInWord(s: string) { s != "" && !IsSpace(s[|s| - 1]) }

  lemma {:induction false} WordCountGap(s: string, gap: string)
    requires AllSpace(gap)
    ensures WordCount(s + gap) == WordCount(s) && (gap != "" ==> !EndsInWord(s + gap))
  {
    if gap == "" {
      assert s + gap == s;
    } else {
      var n := |gap| - 1;
      WordCountGap(s, gap[..n]);
      assert (s + gap)[..|s| + n] == s + gap[..n];
    }
  }

  lemma {:induction false} WordCountWord(s: string, word: string)
    requires IsWord(word) && !EndsInWord(s)
    ensures WordCount(s + word) == WordCount(s) + 1
  {
    var n := |word| - 1;
    assert (s + word)[..|s| + n] == s + word[..n] && (s + word)[|s| + n] == word[n];
    if n == 0 {
      assert s + word[..0] == s;
    } else {
      WordCountWord(s, word[..n]);
      assert (s + word)[|s| + n - 1] == word[n - 1];
    }
  }

  /** `len(s.split())`: however many words there are, and whatever whitespace around them. */
  lemma {:induction false} WordsAreCounted(words: seq<string>, gaps: seq<string>)
    requires |gaps| == |words| + 1 && (forall k :: 0 <= k < |gaps| ==> AllSpace(gaps[k]))
    requires forall k :: 0 <= k < |words| ==> IsWord(words[k]) && (k > 0 ==> gaps[k] != "")
    ensures WordCount(Spaced(words, gaps)) == |words|
    ensures gaps[|words|] != "" || words == [] ==> !EndsInWord(Spaced(words, gaps))
    decreases |words|
  {
    var n := |words|;
    if n == 0 {
      assert "" + gaps[0] == gaps[0];
      WordCountGap("", gaps[0]);
    } else {
      var before := Spaced(words[..n - 1], gaps[..n]);
      WordsAreCounted(words[..n - 1], gaps[..n]);
      WordCountWord(before, words[n - 1]);
      WordCountGap(before + words[n - 1], gaps[n]);
    }
  }

  predicate StartsWithPipe(line: string) { "|" <= Strip(line) }

  // ---------------------------------------------------------------- measuring

  /** What measuring looks at in a line. */
  datatype Line = Line(row: bool, words: nat)

  function LineOf(line: string): Line { Line(StartsWithPipe(line), WordCount(line)) }

  datatype Tally = Tally(prose: nat, tables: nat, inTable: bool)

  function CountLine(t: Tally, line: Line): Tally {
    if line.row then Tally(t.prose, if t.inTable then t.tables else t.tables + 1, true)
    else Tally(t.prose + line.words, t.tables, false)
  }

  function CountLines(lines: seq<Line>): Tally {
    if lines == [] then Tally(0, 0, false) else CountLine(CountLines(lines[..|lines| - 1]), lines[|lines| - 1])
  }

  datatype Counts = Counts(prose: nat, tables: nat)

  function Plus(a: Counts, b: Counts): Counts { Counts(a.prose + b.prose, a.tables + b.tables) }

  function CountsOf(lines: seq<Line>): Counts { Counts(CountLines(lines).prose, CountLines(lines).tables) }

  /** The lines of a text as measuring sees them. */
  function Seen(text: string): seq<Line> { Mapped(LineOf, SplitLines(text)) }

  function Measured(text: string): Counts { CountsOf(Seen(text)) }

  lemma CountNext(lines: seq<Line>, k: nat)
    requires k < |lines|
    ensures CountLines(lines[..k + 1]) == CountLine(CountLines(lines[..k]), lines[k])
  {
    assert lines[..k + 1][..k] == lines[..k];
  }

  /** `measure` */
  method Measure(text: string) returns (prose: nat, tables: nat)
    ensures Counts(prose, tables) == Measured(text)
  {
    var lines := SplitLines(text);
    prose, tables := MeasureLines(lines, LineOf);
  }

  /** The loop of `measure`, for any way of telling rows and counting words. */
  method MeasureLines(lines: seq<string>, look: string -> Line) returns (prose: nat, tables: nat)
    ensures Counts(prose, tables) == CountsOf(Mapped(look, lines))
  {
    prose, tables := 0, 0;
    var inTable := false;
    ghost var seen := Mapped(look, lines);
    for k := 0 to |lines|
      invariant Tally(prose, tables, inTable) == CountLines(seen[..k])
    {
      CountNext(seen, k);
      if look(lines[k]).row {
        if !inTable {
          tables := tables + 1;
          inTable := true;
        }
      } else {
        inTable := false;
        prose := prose + look(lines[k]).words;
      }
    }
    assert seen[..|lines|] == seen;
  }

  // ---------------------------------------------------------------- independent readings of the counts

  /** The number of lines that start a run of table rows. */
  function RunStarts(lines: seq<Line>): nat {
    if lines == [] then 0
    else
      var last := |lines| - 1;
      RunStarts(lines[..last]) + if lines[last].row && (last == 0 || !lines[last - 1].row) then 1 else 0
  }

  /** A table is a run of consecutive rows. */
  lemma {:induction false} TablesAreRuns(lines: seq<Line>)
    ensures CountLines(lines).tables == RunStarts(lines)
    ensures CountLines(lines).inTable <==> lines != [] && lines[|lines| - 1].row
  {
    if lines != [] { TablesAreRuns(lines[..|lines| - 1]); }
  }

  /** A line that is a table's: a pipe comes first, whitespace aside. */
  lemma RowIff(line: string)
    ensures LineOf(line).row <==> exists before, after :: AllSpace(before) && line == before + "|" + after
  {
    if StartsWithPipe(line) { PipeLooks(line); }
    if before, after :| AllSpace(before) && line == before + "|" + after { PipeReads(line, before, after); }
  }

  lemma PipeLooks(line: string)
    requires StartsWithPipe(line)
    ensures exists before, after :: AllSpace(before) && line == before + "|" + after
  {
    var r := RStrip(line);
    var n := Indent(r);
    assert r[n..][0] == '|';
    CutAround(line, n);
  }

  lemma PipeReads(line: string, before: string, after: string)
    requires AllSpace(before) && line == before + "|" + after
    ensures StartsWithPipe(line)
  {
    var n, r := |before|, RStrip(line);
    assert line[n] == '|' && |r| > n;
    IndentIs(r, n);
  }

  /** One line alone: a row counts as a table, any other line for its words. */
  lemma OneLineCounts(line: Line)
    ensures CountsOf([line]) == if line.row then Counts(0, 1) else Counts(line.words, 0)
  {
    FirstLineCounts([line], line);
  }

  lemma FirstLineCounts(lines: seq<Line>, line: Line)
    requires lines == [line]
    ensures CountLines(lines) == CountLine(Tally(0, 0, false), line)
  {
    var none := lines[..|lines| - 1];
    assert none == [];
    assert CountLines(none) == Tally(0, 0, false);
  }

  // ---------------------------------------------------------------- counting in pieces

  /** Both sides meet inside a table. */
  predicate MeetInTable(a: seq<Line>, b: seq<Line>) { a != [] && b != [] && a[|a| - 1].row && b[0].row }

  /** Word counts add up; table counts too, less one when both sides meet inside a table. */
  lemma {:induction false} CountsAdd(a: seq<Line>, b: seq<Line>)
    ensures Combines(CountLines(a), CountLines(b), CountLines(a + b), MeetInTable(a, b), b == [])
    decreases |b|
  {
    TablesAreRuns(a);
    if b == [] {
      assert a + b == a;
    } else {
      var front, last := b[..|b| - 1], b[|b| - 1];
      CountsAdd(a, front);
      assert (a + b)[..|a + b| - 1] == a + front;
      assert front != [] ==> front[0] == b[0];
      CombinesOne(CountLines(a), CountLines(front), CountLines(a + front), a, front, last);
    }
  }

  /** What counting `s` and `t` in one go gives. */
  predicate Combines(s: Tally, t: Tally, u: Tally, meet: bool, none: bool) {
    && u.prose == s.prose + t.prose
    && u.tables == s.tables + t.tables - (if meet then 1 else 0)
    && u.inTable == (if none then s.inTable else t.inTable)
  }

  lemma CombinesOne(s: Tally, t: Tally, u: Tally, a: seq<Line>, front: seq<Line>, last: Line)
    requires Combines(s, t, u, MeetInTable(a, front), front == [])
    requires s.inTable <==> a != [] && a[|a| - 1].row
    requires front == [] ==> t == Tally(0, 0, false)
    ensures Combines(s, CountLine(t, last), CountLine(u, last), MeetInTable(a, front + [last]), false)
  {
  }

  // ---------------------------------------------------------------- joining with a blank line

  function Blanks(n: nat): seq<string> { seq(n, _ => "") }

  /** Blank lines count for nothing and are no rows. */
  lemma {:induction false} BlanksCount(blanks: seq<Line>)
    requires forall k :: 0 <= k < |blanks| ==> blanks[k] == Line(false, 0)
    ensures CountLines(blanks) == Tally(0, 0, false)
  {
    if blanks != [] { BlanksCount(blanks[..|blanks| - 1]); }
  }

  lemma FirstBreakIs(s: string, k: nat)
    requires k < |s| && IsBreak(s[k]) && forall i :: 0 <= i < k ==> !IsBreak(s[i])
    ensures FirstBreak(s) == k
  {
  }

  predicate LineFeed(lf: string) { |lf| == 1 && lf[0] == '\n' }

  lemma SplitAtBreak(a: string, lf: string, b: string)
    requires LineFeed(lf) && forall i :: 0 <= i < |a| ==> !IsBreak(a[i])
    ensures SplitLines(a + (lf + b)) == [a] + SplitLines(b)
  {
    var s := a + (lf + b);
    FirstBreakIs(s, |a|);
    assert s[..|a|] == a && s[|a| + 1..] == b;
  }

  lemma SplitEmpty(lf: string, b: string)
    requires LineFeed(lf)
    ensures SplitLines(lf + b) == Blanks(1) + SplitLines(b)
  {
    SplitAtBreak("", lf, b);
    assert "" + (lf + b) == lf + b;
    assert [""] == Blanks(1);
  }

  lemma JoinBlanks(x: seq<string>, y: seq<string>)
    ensures x + (Blanks(1) + y) == x + Blanks(1) + y
  {
  }

  /** A line feed before a text that starts with one puts a blank line between, at least one. */
  lemma {:induction false} SplitJoined(a: string, lf: string, b: string) returns (n: nat)
    requires LineFeed(lf)
    ensures n >= 1 && SplitLines(a + (lf + (lf + b))) == SplitLines(a) + Blanks(n) + SplitLines(b)
    decreases |a|
  {
    var k := FirstBreak(a);
    if k == |a| || (k + 1 == |a| && a[k] == '\r') {
      n := SplitLast(a, lf, b);
    } else {
      SplitFirst(a, lf, lf + b, k);
      var rest := a[k + BreakLength(a, k)..];
      n := SplitJoined(rest, lf, b);
      Regroup([a[..k]], SplitLines(rest), Blanks(n), SplitLines(b));
    }
  }

  lemma Regroup(w: seq<string>, x: seq<string>, y: seq<string>, z: seq<string>)
    ensures w + (x + y + z) == w + x + y + z
  {
  }

  lemma SplitLast(a: string, lf: string, b: string) returns (n: nat)
    requires LineFeed(lf)
    requires var k := FirstBreak(a); k == |a| || (k + 1 == |a| && a[k] == '\r')
    ensures n >= 1 && SplitLines(a + (lf + (lf + b))) == SplitLines(a) + Blanks(n) + SplitLines(b)
  {
    n := if a == "" then 2 else 1;
    if a == "" {
      SplitNothing(lf, b);
      assert a + (lf + (lf + b)) == lf + (lf + b) && [] + Blanks(2) == Blanks(2);
    } else {
      SplitOneLine(a, lf, b);
    }
  }

  lemma SplitNothing(lf: string, b: string)
    requires LineFeed(lf)
    ensures SplitLines(lf + (lf + b)) == Blanks(2) + SplitLines(b)
  {
    SplitEmpty(lf, b);
    SplitEmpty(lf, lf + b);
    JoinBlanks(Blanks(1), SplitLines(b));
    assert Blanks(1) + Blanks(1) == Blanks(2);
  }

  lemma SplitOneLine(a: string, lf: string, b: string)
    requires LineFeed(lf) && a != ""
    requires var k := FirstBreak(a); k == |a| || (k + 1 == |a| && a[k] == '\r')
    ensures SplitLines(a + (lf + (lf + b))) == SplitLines(a) + Blanks(1) + SplitLines(b)
  {
    var k := FirstBreak(a);
    SplitEmpty(lf, b);
    JoinBlanks([a[..k]], SplitLines(b));
    if k == |a| {
      SplitAtBreak(a, lf, lf + b);
      assert a[..k] == a;
    } else {
      SplitTornBreak(a, lf, lf + b, k);
    }
  }

  /** A carriage return at the end of the first text and the line feed after it make one line break. */
  lemma SplitTornBreak(a: string, lf: string, c: string, k: nat)
    requires LineFeed(lf) && k + 1 == |a| && k == FirstBreak(a) && a[k] == '\r'
    ensures SplitLines(a) == [a[..k]] && SplitLines(a + (lf + c)) == [a[..k]] + SplitLines(c)
  {
    var s := a + (lf + c);
    FirstBreakIs(s, k);
    CutLeft(a, lf + c, k);
    Cut(a + lf, c);
    Concat(a, lf, c);
    assert BreakLength(s, k) == 2 && a[k + 1..] == "";
  }

  lemma SplitStep(s: string, k: nat, first: string, rest: string)
    requires k < |s| && k == FirstBreak(s) && first == s[..k] && rest == s[k + BreakLength(s, k)..]
    ensures SplitLines(s) == [first] + SplitLines(rest)
  {
  }

  /** What is appended to a text does not change its first line. */
  lemma SameStart(a: string, lf: string, c: string, k: nat)
    requires LineFeed(lf) && k < |a| && k == FirstBreak(a) && !(k + 1 == |a| && a[k] == '\r')
    ensures var s, m := a + (lf + c), BreakLength(a, k);
      FirstBreak(s) == k && BreakLength(s, k) == m && s[..k] == a[..k] && s[k + m..] == a[k + m..] + (lf + c)
  {
    SameBreak(a, lf + c, k);
    CutLeft(a, lf + c, k);
    CutLeft(a, lf + c, k + BreakLength(a, k));
  }

  lemma SameBreak(a: string, b: string, k: nat)
    requires k < |a| && k == FirstBreak(a) && !(k + 1 == |a| && a[k] == '\r')
    ensures FirstBreak(a + b) == k && BreakLength(a + b, k) == BreakLength(a, k)
  {
    FirstBreakIs(a + b, k);
  }

  lemma SplitFirst(a: string, lf: string, c: string, k: nat)
    requires LineFeed(lf) && k < |a| && k == FirstBreak(a) && !(k + 1 == |a| && a[k] == '\r')
    ensures var rest := a[k + BreakLength(a, k)..];
      && SplitLines(a) == [a[..k]] + SplitLines(rest)
      && SplitLines(a + (lf + c)) == [a[..k]] + SplitLines(rest + (lf + c))
  {
    var rest := a[k + BreakLength(a, k)..];
    SameStart(a, lf, c, k);
    SplitStep(a, k, a[..k], rest);
    SplitStep(a + (lf + c), k, a[..k], rest + (lf + c));
  }

  /** Blank lines between two lists of lines keep their tables apart. */
  lemma CountsApart(x: seq<Line>, y: seq<Line>, z: seq<Line>)
    requires y != [] && forall k :: 0 <= k < |y| ==> y[k] == Line(false, 0)
    ensures CountsOf(x + y + z) == Plus(CountsOf(x), CountsOf(z))
  {
    BlanksCount(y);
    CountsAdd(x, y);
    CountsAdd(x + y, z);
    NeverMeet(x, y, z);
    Apart(CountLines(x), CountLines(y), CountLines(x + y), CountLines(z), CountLines(x + y + z), z == []);
  }

  lemma NeverMeet(x: seq<Line>, y: seq<Line>, z: seq<Line>)
    requires y != [] && !y[0].row && !y[|y| - 1].row
    ensures !MeetInTable(x, y) && !MeetInTable(x + y, z)
  {
    assert (x + y)[|x + y| - 1] == y[|y| - 1];
  }

  lemma Apart(s: Tally, t: Tally, u: Tally, v: Tally, w: Tally, none: bool)
    requires t == Tally(0, 0, false) && Combines(s, t, u, false, false) && Combines(u, v, w, false, none)
    ensures Counts(w.prose, w.tables) == Plus(Counts(s.prose, s.tables), Counts(v.prose, v.tables))
  {
  }

  lemma MappedJoin(look: string -> Line, x: seq<string>, y: seq<string>)
    ensures Mapped(look, x + y) == Mapped(look, x) + Mapped(look, y)
  {
  }

  lemma EmptyLine()
    ensures LineOf("") == Line(false, 0)
  {
    assert Strip("") == "";
  }

  lemma SeenJoined(look: string -> Line, x: seq<string>, n: nat, z: seq<string>)
    requires n >= 1 && look("") == Line(false, 0)
    ensures CountsOf(Mapped(look, x + Blanks(n) + z)) == Plus(CountsOf(Mapped(look, x)), CountsOf(Mapped(look, z)))
  {
    MappedJoin(look, x + Blanks(n), z);
    MappedJoin(look, x, Blanks(n));
    CountsApart(Mapped(look, x), Mapped(look, Blanks(n)), Mapped(look, z));
  }

  /** Measuring two texts joined by a blank line is measuring each. */
  lemma MeasureJoined(a: string, lf: string, b: string)
    requires LineFeed(lf)
    ensures Measured(a + (lf + (lf + b))) == Plus(Measured(a), Measured(b))
  {
    var n := SplitJoined(a, lf, b);
    EmptyLine();
    SeenJoined(LineOf, SplitLines(a), n, SplitLines(b));
  }

  /** A text that does not end in a line break, a line feed, and another text: the lines of both. */
  lemma {:induction false} SplitOnce(a: string, lf: string, b: string)
    requires LineFeed(lf) && a != "" && !IsBreak(a[|a| - 1])
    ensures SplitLines(a + (lf + b)) == SplitLines(a) + SplitLines(b)
    decreases |a|
  {
    var k := FirstBreak(a);
    if k == |a| {
      SplitAtBreak(a, lf, b);
    } else {
      SplitFirst(a, lf, b, k);
      RestGoesOn(a, k);
      var rest := a[k + BreakLength(a, k)..];
      SplitOnce(rest, lf, b);
      Group([a[..k]], SplitLines(rest), SplitLines(b));
    }
  }

  lemma Group(x: seq<string>, y: seq<string>, z: seq<string>)
    ensures x + (y + z) == x + y + z
  {
  }

  lemma RestGoesOn(a: string, k: nat)
    requires k < |a| && IsBreak(a[k]) && !IsBreak(a[|a| - 1])
    ensures var rest := a[k + BreakLength(a, k)..]; rest != "" && rest[|rest| - 1] == a[|a| - 1]
  {
    assert k < |a| - 1;
    if k + 2 == |a| { assert a[k + 1] != '\n'; }
  }

  /** The general law: across one line feed a table may run on, and is then counted once less. */
  lemma MeasureAcross(look: string -> Line, a: string, lf: string, b: string)
    requires LineFeed(lf) && a != "" && !IsBreak(a[|a| - 1])
    ensures var x, y := Mapped(look, SplitLines(a)), Mapped(look, SplitLines(b));
      Across(CountsOf(Mapped(look, SplitLines(a + (lf + b)))), CountsOf(x), CountsOf(y), MeetInTable(x, y))
  {
    SplitOnce(a, lf, b);
    MappedJoin(look, SplitLines(a), SplitLines(b));
    CountsAdd(Mapped(look, SplitLines(a)), Mapped(look, SplitLines(b)));
  }

  predicate Across(whole: Counts, first: Counts, second: Counts, meet: bool) {
    && whole.prose == first.prose + second.prose
    && whole.tables == first.tables + second.tables - if meet then 1 else 0
  }

  // ---------------------------------------------------------------- the totals

  function TotalOf(bodies: seq<string>): Counts {
    if bodies == [] then Counts(0, 0) else Plus(Measured(bodies[0]), TotalOf(bodies[1..]))
  }

  const BLANK_LINE := "\n\n"

  lemma TwoFeeds(a: string, b: string)
    ensures a + BLANK_LINE + b == a + ("\n" + ("\n" + b))
  {
  }

  lemma MeasureBlankLine(a: string, sep: string, b: string)
    requires sep == BLANK_LINE
    ensures Measured(a + sep + b) == Plus(Measured(a), Measured(b))
  {
    TwoFeeds(a, b);
    MeasureJoined(a, "\n", b);
  }

  /** The totals reported for the sections are what measuring the assembled text would give. */
  lemma {:induction false} TotalsAreOfTheWhole(bodies: seq<string>, sep: string)
    requires sep == BLANK_LINE
    ensures TotalOf(bodies) == Measured(Join(bodies, sep))
  {
    if |bodies| == 1 {
      assert bodies[1..] == [];
    } else if |bodies| > 1 {
      TotalsAreOfTheWhole(bodies[1..], sep);
      MeasureBlankLine(bodies[0], sep, Join(bodies[1..], sep));
    }
  }

  lemma {:induction false} TotalSnoc(bodies: seq<string>, last: string)
    ensures TotalOf(bodies + [last]) == Plus(TotalOf(bodies), Measured(last))
  {
    if bodies == [] {
      assert (bodies + [last])[1..] == [];
    } else {
      assert (bodies + [last])[1..] == bodies[1..] + [last];
      TotalSnoc(bodies[1..], last);
    }
  }

  // ---------------------------------------------------------------- a section's body

  /** Where `part` first occurs, or the length. */
  function Find(s: string, part: string, i: nat): (k: nat)
    requires i <= |s|
    ensures i <= k <= |s| && (k < |s| ==> OccursAt(s, k, part))
    ensures forall j :: i <= j < k ==> !OccursAt(s, j, part)
    decreases |s| - i
  {
    if i == |s| || OccursAt(s, i, part) then i else Find(s, part, i + 1)
  }

  const NOTES := "## Drafting notes"
  const STATUS_END := "\n---\n"

  /** The text after a short status block, if there is one. */
  function WithoutStatus(s: string): string {
    var k := Find(s, STATUS_END, 0);
    if k < |s| && k < 400 then s[k + |STATUS_END|..] else s
  }

  function WithoutNotes(s: string, notes: string): string { s[..Find(s, notes, 0)] }

  /** `body_of` */
  function BodyOf(s: string): string { Strip(WithoutNotes(WithoutStatus(s), NOTES)) }

  /** No occurrence of `part` begins before the first. */
  lemma PrefixHasNone(s: string, part: string)
    requires part != ""
    ensures !Contains(WithoutNotes(s, part), part)
  {
    var t := WithoutNotes(s, part);
    forall i | 0 <= i <= |t| ensures !OccursAt(t, i, part) {
      if OccursAt(t, i, part) { OccursInWhole(s, 0, |t|, part, i); }
    }
  }

  lemma OccursInWhole(s: string, lo: nat, hi: nat, part: string, i: nat)
    requires lo <= hi <= |s| && OccursAt(s[lo..hi], i, part)
    ensures OccursAt(s, lo + i, part)
  {
    var t := s[lo..hi];
    var u, v := t[i..i + |part|], s[lo + i..lo + i + |part|];
    forall k | 0 <= k < |part| ensures u[k] == v[k] {
      assert u[k] == t[i + k] == s[lo + (i + k)];
    }
    assert u == v;
  }

  lemma SliceHasNone(s: string, lo: nat, hi: nat, part: string)
    requires lo <= hi <= |s| && !Contains(s, part)
    ensures !Contains(s[lo..hi], part)
  {
    forall i | 0 <= i <= hi - lo ensures !OccursAt(s[lo..hi], i, part) {
      if OccursAt(s[lo..hi], i, part) { OccursInWhole(s, lo, hi, part, i); }
    }
  }

  /** No drafting notes get into the paper: their heading is in no body. */
  lemma BodyHasNoNotes(s: string)
    ensures !Contains(BodyOf(s), NOTES)
  {
    var t := WithoutNotes(WithoutStatus(s), NOTES);
    PrefixHasNone(WithoutStatus(s), NOTES);
    var r := RStrip(t);
    assert Strip(t) == t[Indent(r)..|r|];
    SliceHasNone(t, Indent(r), |r|, NOTES);
  }

  // ---------------------------------------------------------------- what a body is

  /** `s` is `before`, `part` and `after`, and `part` occurs nowhere earlier. */
  predicate CutsFirst(s: string, part: string, before: string, after: string) {
    s == before + part + after && forall j :: 0 <= j < |before| ==> !OccursAt(s, j, part)
  }

  /** A text up to `part`, stripped; or all of it, if there is none. */
  ghost predicate TextBefore(s: string, part: string, text: string) {
    (exists before :: EndsAt(s, part, before) && text == Strip(before)) || (!Contains(s, part) && text == Strip(s))
  }

  ghost predicate EndsAt(s: string, part: string, before: string) {
    exists after :: CutsFirst(s, part, before, after)
  }

  ghost predicate IsTextOf(s: string, text: string) { TextBefore(s, "## Drafting notes", text) }

  /** A section starts with a status block: the first rule comes before 400 characters have passed. */
  ghost predicate HasStatus(s: string, after: string) {
    exists before :: CutsFirst(s, "\n---\n", before, after) && |before| < 400
  }

  ghost predicate NoStatus(s: string) { forall after :: !HasStatus(s, after) }

  /** A section's body: the text after its status block, or all its text if it has none. */
  ghost predicate IsBodyOf(s: string, body: string) {
    || (exists after :: HasStatus(s, after) && IsTextOf(after, body))
    || (NoStatus(s) && IsTextOf(s, body))
  }

  lemma CutAt(s: string, part: string)
    requires part != ""
    ensures var k := Find(s, part, 0);
      && (k < |s| <==> Contains(s, part))
      && (k < |s| ==> k + |part| <= |s| && CutsFirst(s, part, s[..k], s[k + |part|..]))
  {
    var k := Find(s, part, 0);
    if k < |s| { CutOut(s, k, |part|); }
    else { assert !OccursAt(s, |s|, part); }
  }

  lemma CutOut(s: string, k: nat, n: nat)
    requires k + n <= |s|
    ensures s == s[..k] + s[k..k + n] + s[k + n..]
  {
  }

  lemma FoundAt(s: string, part: string, before: string, after: string)
    requires part != "" && CutsFirst(s, part, before, after)
    ensures Find(s, part, 0) == |before| && |before| + |part| <= |s| && s[|before| + |part|..] == after
    ensures s[..|before|] == before && Contains(s, part)
  {
    CutThere(s, part, before, after);
    assert OccursAt(s, |before|, part);
  }

  lemma CutThere(s: string, part: string, before: string, after: string)
    requires s == before + part + after
    ensures s[..|before|] == before && s[|before|..|before| + |part|] == part && s[|before| + |part|..] == after
  {
  }

  lemma TextLooks(s: string, part: string)
    requires part != ""
    ensures TextBefore(s, part, Strip(WithoutNotes(s, part)))
  {
    CutAt(s, part);
    var k := Find(s, part, 0);
    if k < |s| { assert EndsAt(s, part, s[..k]); } else { assert s[..|s|] == s; }
  }

  lemma EndsOnce(s: string, part: string, before: string)
    requires part != "" && EndsAt(s, part, before)
    ensures WithoutNotes(s, part) == before
  {
    var after :| CutsFirst(s, part, before, after);
    FoundAt(s, part, before, after);
  }

  lemma NothingToCut(s: string, part: string)
    requires part != "" && !Contains(s, part)
    ensures WithoutNotes(s, part) == s
  {
    CutAt(s, part);
    assert s[..|s|] == s;
  }

  lemma TextIsOne(s: string, part: string, text: string)
    requires part != "" && TextBefore(s, part, text)
    ensures text == Strip(WithoutNotes(s, part))
  {
    if exists before :: EndsAt(s, part, before) && text == Strip(before) {
      var before :| EndsAt(s, part, before) && text == Strip(before);
      EndsOnce(s, part, before);
    } else {
      NothingToCut(s, part);
    }
  }

  /** The rest after a status block, if there is one. */
  lemma StatusIs(s: string, sep: string)
    requires sep == STATUS_END
    ensures forall after :: HasStatus(s, after) ==> after == WithoutStatus(s)
    ensures if NoStatus(s) then WithoutStatus(s) == s else HasStatus(s, WithoutStatus(s))
  {
    CutAt(s, sep);
    forall after | HasStatus(s, after) ensures after == WithoutStatus(s) {
      var before :| CutsFirst(s, sep, before, after) && |before| < 400;
      FoundAt(s, sep, before, after);
    }
    var k := Find(s, sep, 0);
    if k < |s| && k < 400 {
      assert CutsFirst(s, sep, s[..k], WithoutStatus(s));
      assert HasStatus(s, WithoutStatus(s));
    }
  }

  /** `body_of` gives what is said to be the body, and nothing else is. */
  lemma BodyIs(s: string, body: string)
    ensures BodyOf(s) == body <==> IsBodyOf(s, body)
  {
    StatusIs(s, STATUS_END);
    TextLooks(WithoutStatus(s), NOTES);
    if IsBodyOf(s, body) { TextIsOne(WithoutStatus(s), NOTES, body); }
  }

  /** The loop of `main`, adding up over the sections. */
  method Total(files: seq<string>, body: string -> string) returns (prose: nat, tables: nat, parts: seq<string>)
    ensures parts == Mapped(body, files) && Counts(prose, tables) == TotalOf(parts)
  {
    prose, tables, parts := 0, 0, [];
    for k := 0 to |files|
      invariant |parts| == k && forall j :: 0 <= j < k ==> parts[j] == body(files[j])
      invariant Counts(prose, tables) == TotalOf(parts)
    {
      var words, tabs := Measure(body(files[k]));
      TotalSnoc(parts, body(files[k]));
      prose := prose + words;
      tables := tables + tabs;
      parts := parts + [body(files[k])];
    }
  }

  ghost predicate AreBodies(files: seq<string>, bodies: seq<string>) {
    |bodies| == |files| && forall k :: 0 <= k < |files| ==> IsBodyOf(files[k], bodies[k])
  }

  lemma BodiesAre(files: seq<string>, bodies: seq<string>)
    ensures AreBodies(files, bodies) <==> bodies == Mapped(BodyOf, files)
  {
    forall k | 0 <= k < |files| && |bodies| == |files|
      ensures IsBodyOf(files[k], bodies[k]) <==> bodies[k] == BodyOf(files[k])
    {
      BodyIs(files[k], bodies[k]);
    }
  }

  /** The text that is written, and totals for the sections that are the counts of what is between header and end. */
  method AssemblePaper(files: seq<string>, header: string) returns (prose: nat, tables: nat, paper: string)
    ensures var bodies := Join(Mapped(BodyOf, files), BLANK_LINE);
      paper == header + bodies + "\n" && Counts(prose, tables) == Measured(bodies)
    ensures forall bodies: seq<string> :: AreBodies(files, bodies) ==> paper == header + Join(bodies, "\n\n") + "\n"
  {
    var parts;
    prose, tables, parts := Total(files, BodyOf);
    TotalsAreOfTheWhole(parts, BLANK_LINE);
    paper := header + Join(parts, BLANK_LINE) + "\n";
    forall bodies | AreBodies(files, bodies) ensures bodies == parts { BodiesAre(files, bodies); }
  }
}
