/** The block parser of tools/md-to-pdf.py: from lines to headings, code, tables, lists and the rest. */
module Blocks {
  import opened Options
  import opened Text
  import opened MdLines

  datatype ListItem = ListItem(depth: nat, marker: string, text: string)

  datatype Block =
    | Code(lines: seq<string>)
    | Rule
    | Heading(level: nat, text: string)
    | Table(header: seq<string>, rows: seq<seq<string>>)
    | Quote(lines: seq<string>)
    | List(ordered: bool, items: seq<ListItem>)
    | Para(text: string)

  /** Where the first line of `md` ends. */
  function LineEnd(md: string): (k: nat)
    ensures k <= |md| && (k < |md| ==> md[k] == '\n' || md[k] == '\r')
    ensures forall i :: 0 <= i < k ==> md[i] != '\n' && md[i] != '\r'
  {
    if md == [] || md[0] == '\n' || md[0] == '\r' then 0 else 1 + LineEnd(md[1..])
  }

  /** How long the line break at `k` is. */
  function BreakLength(md: string, k: nat): (n: nat)
    requires k < |md|
    ensures k + n <= |md|
  {
    if md[k] == '\r' && k + 1 < |md| && md[k + 1] == '\n' then 2 else 1
  }

  /** The lines of a document, as splitting at line feeds gives them once `\r\n` and `\r` have become `\n`. */
  function LinesOf(md: string): (lines: seq<string>)
    ensures |lines| >= 1
    ensures forall k :: 0 <= k < |lines| ==> '\n' !in lines[k] && '\r' !in lines[k]
    decreases |md|
  {
    var k := LineEnd(md);
    if k == |md| then [md]
    else
      [md[..k]] + LinesOf(md[k + BreakLength(md, k)..])
  }

  /** Both kinds of line break made one. */
  function Newlines(md: string, crlf: string, cr: string, lf: string): string
    requires crlf != "" && cr != ""
  {
    Replace(Replace(md, crlf, lf), cr, lf)
  }

  /** A text that starts with a line and a line break. */
  lemma NewlinesStep(line: string, brk: string, rest: string, crlf: string, cr: string, lf: string)
    requires crlf == "\r\n" && cr == "\r" && lf == "\n" && '\r' !in line
    requires brk == crlf || brk == lf || (brk == cr && (rest == "" || rest[0] != '\n'))
    ensures Newlines(line + (brk + rest), crlf, cr, lf) == line + (lf + Newlines(rest, crlf, cr, lf))
  {
    var more := Replace(rest, crlf, lf);
    ReplacePasses(line, brk + rest, crlf, lf);
    assert Replace(brk + rest, crlf, lf) == (if brk == cr then cr else lf) + more by {
      BreakReplaced(brk, rest, crlf, cr, lf);
    }
    ReplacePasses(line, (if brk == cr then cr else lf) + more, cr, lf);
    if brk == cr { ReplaceHere(more, cr, lf); } else { ReplacePasses(lf, more, cr, lf); }
  }

  lemma BreakReplaced(brk: string, rest: string, crlf: string, cr: string, lf: string)
    requires crlf == "\r\n" && cr == "\r" && lf == "\n"
    requires brk == crlf || brk == lf || (brk == cr && (rest == "" || rest[0] != '\n'))
    ensures Replace(brk + rest, crlf, lf) == (if brk == cr then cr else lf) + Replace(rest, crlf, lf)
  {
    if brk == crlf {
      ReplaceHere(rest, crlf, lf);
    } else if brk == lf {
      ReplacePasses(lf, rest, crlf, lf);
    } else {
      var s := cr + rest;
      assert s[0] == '\r' && s[1..] == rest && |crlf| == 2;
      assert |s| >= 2 ==> s[1] == rest[0] != crlf[1];
    }
  }

  lemma LinesStep(md: string, k: nat, rest: string)
    requires k == LineEnd(md) < |md| && rest == md[k + BreakLength(md, k)..]
    ensures LinesOf(md) == [md[..k]] + LinesOf(rest)
  {
  }

  lemma LinePieces(md: string, k: nat, n: nat)
    requires k + n <= |md|
    ensures md == md[..k] + (md[k..k + n] + md[k + n..])
  {
  }

  lemma BreakIs(md: string, k: nat, crlf: string, cr: string, lf: string)
    requires crlf == "\r\n" && cr == "\r" && lf == "\n" && k < |md| && (md[k] == '\n' || md[k] == '\r')
    ensures var n := BreakLength(md, k);
      var brk, rest := md[k..k + n], md[k + n..];
      brk == crlf || brk == lf || (brk == cr && (rest == "" || rest[0] != '\n'))
  {
    if BreakLength(md, k) == 2 { assert md[k..k + 2] == crlf; } else { assert md[k..k + 1] == [md[k]]; }
  }

  lemma FirstLine(md: string, k: nat, n: nat, crlf: string, cr: string, lf: string)
    requires crlf == "\r\n" && cr == "\r" && lf == "\n" && k == LineEnd(md) < |md| && n == BreakLength(md, k)
    ensures Newlines(md, crlf, cr, lf) == md[..k] + (lf + Newlines(md[k + n..], crlf, cr, lf))
  {
    LinePieces(md, k, n);
    assert '\r' !in md[..k];
    var brk, rest := md[k..k + n], md[k + n..];
    assert brk == crlf || brk == lf || (brk == cr && (rest == "" || rest[0] != '\n')) by {
      BreakIs(md, k, crlf, cr, lf);
    }
    NewlinesStep(md[..k], brk, rest, crlf, cr, lf);
  }

  lemma {:induction false} LinesSplitBy(md: string, crlf: string, cr: string, lf: string)
    requires crlf == "\r\n" && cr == "\r" && lf == "\n"
    ensures LinesOf(md) == Split(Newlines(md, crlf, cr, lf), '\n')
    decreases |md|
  {
    var k := LineEnd(md);
    if k == |md| {
      assert md + "" == md;
      ReplacePasses(md, "", crlf, lf);
      ReplacePasses(md, "", cr, lf);
    } else {
      var rest := md[k + BreakLength(md, k)..];
      FirstLine(md, k, BreakLength(md, k), crlf, cr, lf);
      LinesStep(md, k, rest);
      LinesSplitBy(rest, crlf, cr, lf);
      SplitLine(md[..k], Newlines(rest, crlf, cr, lf), '\n');
    }
  }

  /** `md.replace("\r\n", "\n").replace("\r", "\n").split("\n")` */
  lemma LinesAreSplit(md: string)
    ensures LinesOf(md) == Split(Replace(Replace(md, "\r\n", "\n"), "\r", "\n"), '\n')
  {
    LinesSplitBy(md, "\r\n", "\r", "\n");
  }

  // ---------------------------------------------------------------- where each kind of block ends

  /** The first index from `i` at which the loop stops, or the end. */
  function Until(stop: nat -> bool, i: nat, n: nat): (j: nat)
    requires i <= n
    ensures i <= j <= n && (j < n ==> stop(j))
    ensures forall k :: i <= k < j ==> !stop(k)
    decreases n - i
  {
    if i == n || stop(i) then i else Until(stop, i + 1, n)
  }

  predicate IsRow(line: string) { '|' in line && !Blank(line) }

  /** Inside a list, a line is an item or carries one on. */
  predicate InList(line: string) { IsItem(line) || IsContinuation(line) }

  predicate StartsTable(lines: seq<string>, i: nat)
    requires i < |lines|
  {
    '|' in Strip(lines[i]) && i + 1 < |lines| && IsSep(lines[i + 1])
  }

  /** A line that ends the paragraph before it: blank, or the start of another block. */
  predicate EndsPara(lines: seq<string>, i: nat)
    requires i < |lines|
  {
    var s := Strip(lines[i]);
    Blank(lines[i]) || IsHeading(s) || IsQuote(lines[i]) || IsFence(lines[i]) || HasMarker(lines[i])
    || StartsTable(lines, i) || IsRuleOf(s, '-') || IsRuleOf(s, '*')
  }

  function AtFence(lines: seq<string>): nat -> bool { (k: nat) => k < |lines| && IsFence(lines[k]) }

  function AfterRows(lines: seq<string>): nat -> bool { (k: nat) => k < |lines| && !IsRow(lines[k]) }

  function AfterQuote(lines: seq<string>): nat -> bool { (k: nat) => k < |lines| && !IsQuote(lines[k]) }

  function AfterList(lines: seq<string>): nat -> bool { (k: nat) => k < |lines| && !InList(lines[k]) }

  function AfterPara(lines: seq<string>): nat -> bool { (k: nat) => k < |lines| && EndsPara(lines, k) }

  // ---------------------------------------------------------------- what each kind of block holds

  function ItemOf(line: string): ListItem {
    var s := RStrip(line);
    ListItem(if Indent(s) >= 2 then 1 else 0, MarkerOf(s), Strip(AfterMarker(s)))
  }

  /** `items[-1][2] += " " + text` */
  function Extend(items: seq<ListItem>, text: string): (r: seq<ListItem>)
    ensures |r| == |items|
  {
    if items == [] then []
    else
      var last := items[|items| - 1];
      items[..|items| - 1] + [last.(text := last.text + " " + text)]
  }

  /** One line of a list: an item starts a new entry, any other line carries on the last. */
  function AddLine(items: seq<ListItem>, line: string): seq<ListItem> {
    if IsItem(line) then items + [ItemOf(line)] else Extend(items, Strip(line))
  }

  /** The lines from `i` to `j`, added one after the other. */
  function Added(add: (seq<ListItem>, string) -> seq<ListItem>, lines: seq<string>, i: nat, j: nat): seq<ListItem>
    requires i <= j <= |lines|
    decreases j
  {
    if i == j then [] else add(Added(add, lines, i, j - 1), lines[j - 1])
  }

  function Items(lines: seq<string>, i: nat, j: nat): seq<ListItem>
    requires i <= j <= |lines|
  {
    Added(AddLine, lines, i, j)
  }

  // ---------------------------------------------------------------- one turn of the outer loop

  datatype Turn = Turn(next: nat, block: Option<Block>)

  function CodeTurn(lines: seq<string>, i: nat): (t: Turn)
    requires i < |lines|
    ensures t.next > i && t.block.Some? && t.block.value.Code?
  {
    var j := Until(AtFence(lines), i + 1, |lines|);
    Turn(j + 1, Some(Code(lines[i + 1..j])))
  }

  function TableTurn(lines: seq<string>, i: nat): (t: Turn)
    requires i + 1 < |lines|
    ensures t.next > i && t.block.Some? && t.block.value.Table?
  {
    TableFrom(lines, SplitRow(Strip(lines[i])), i + 2)
  }

  /** A table whose rows begin at line `i`. */
  function TableFrom(lines: seq<string>, header: seq<string>, i: nat): (t: Turn)
    requires i <= |lines|
    ensures t.next >= i && t.block.Some? && t.block.value.Table?
  {
    var j := Until(AfterRows(lines), i, |lines|);
    Turn(j, Some(Table(header, Mapped(SplitRow, lines[i..j]))))
  }

  function QuoteTurn(lines: seq<string>, i: nat): (t: Turn)
    requires i < |lines| && IsQuote(lines[i])
    ensures t.next > i && t.block.Some? && t.block.value.Quote?
  {
    var j := Until(AfterQuote(lines), i, |lines|);
    Turn(j, Some(Quote(Mapped(Unquoted, lines[i..j]))))
  }

  function ListTurn(lines: seq<string>, i: nat): (t: Turn)
    requires i < |lines| && IsItem(lines[i])
    ensures t.next > i && t.block.Some? && t.block.value.List?
  {
    var j := Until(AfterList(lines), i, |lines|);
    Turn(j, Some(List(IsDigit(MarkerOf(RStrip(lines[i]))[0]), Items(lines, i, j))))
  }

  function ParaTurn(lines: seq<string>, i: nat): (t: Turn)
    requires i < |lines|
    ensures t.next > i <==> !EndsPara(lines, i)
    ensures if EndsPara(lines, i) then t == Turn(i, None) else t.block.Some? && t.block.value.Para?
  {
    var j := Until(AfterPara(lines), i, |lines|);
    Turn(j, if j > i then Some(Para(Join(Mapped(Strip, lines[i..j]), " "))) else None)
  }

  function TakeTurn(lines: seq<string>, i: nat): (t: Turn)
    requires i < |lines|
    ensures t.next >= i
  {
    var s := Strip(lines[i]);
    if s == "" then Turn(i + 1, None)
    else if IsFence(lines[i]) then CodeTurn(lines, i)
    else if IsRule(s) then Turn(i + 1, Some(Rule))
    else if IsHeading(s) then Turn(i + 1, Some(Heading(Hashes(s), Strip(s[Hashes(s)..]))))
    else if StartsTable(lines, i) then TableTurn(lines, i)
    else if IsQuote(lines[i]) then QuoteTurn(lines, i)
    else if IsItem(lines[i]) then ListTurn(lines, i)
    else ParaTurn(lines, i)
  }

  /** The inner loops that gather one value a line: code, table rows, quotes and paragraphs. */
  method Gather<U>(lines: seq<string>, stop: nat -> bool, f: string -> U, start: nat) returns (i: nat, buf: seq<U>)
    requires start <= |lines|
    ensures i == Until(stop, start, |lines|) && buf == Mapped(f, lines[start..i])
  {
    i := start;
    buf := [];
    while i < |lines| && !stop(i)
      invariant start <= i <= |lines| && buf == Mapped(f, lines[start..i])
      invariant Until(stop, start, |lines|) == Until(stop, i, |lines|)
    {
      buf := buf + [f(lines[i])];
      i := i + 1;
    }
  }

  /** An item, or a line that carries on an item, makes the list no shorter than one entry. */
  ghost predicate Lists(isItem: string -> bool, add: (seq<ListItem>, string) -> seq<ListItem>) {
    forall items: seq<ListItem>, line: string :: items != [] || isItem(line) ==> add(items, line) != []
  }

  /** The list loop.  Its first line is an item, so there is an entry for every later line to extend. */
  method GatherItems(lines: seq<string>, stop: nat -> bool, start: nat, isItem: string -> bool,
                     carriesOn: string -> bool, add: (seq<ListItem>, string) -> seq<ListItem>)
    returns (i: nat, items: seq<ListItem>)
    requires start < |lines| && isItem(lines[start]) && Lists(isItem, add)
    requires forall k: nat :: start <= k < |lines| ==> stop(k) == !(isItem(lines[k]) || carriesOn(lines[k]))
    ensures i == Until(stop, start, |lines|) && items == Added(add, lines, start, i)
  {
    i := start;
    items := [];
    while i < |lines|
      invariant start <= i <= |lines| && items == Added(add, lines, start, i) && (i > start ==> items != [])
      invariant Until(stop, start, |lines|) == Until(stop, i, |lines|)
    {
      if !(isItem(lines[i]) || (items != [] && carriesOn(lines[i]))) { break; }
      items := add(items, lines[i]);
      i := i + 1;
    }
  }

  /** The body of the outer loop. */
  method ParseTurn(lines: seq<string>, start: nat) returns (i: nat, block: Option<Block>)
    requires start < |lines|
    ensures Turn(i, block) == TakeTurn(lines, start)
  {
    var stripped := Strip(lines[start]);
    if stripped == "" { return start + 1, None; }
    if IsFence(lines[start]) {
      var buf;
      i, buf := Gather(lines, AtFence(lines), (l: string) => l, start + 1);
      assert buf == lines[start + 1..i];
      return i + 1, Some(Code(buf));
    }
    if IsRule(stripped) { return start + 1, Some(Rule); }
    if IsHeading(stripped) {
      return start + 1, Some(Heading(Hashes(stripped), Strip(stripped[Hashes(stripped)..])));
    }
    i, block := ParseGroup(lines, start);
  }

  /** The turns that begin at a table, a quote, a list or a paragraph. */
  method ParseGroup(lines: seq<string>, start: nat) returns (i: nat, block: Option<Block>)
    requires start < |lines|
    ensures Turn(i, block)
      == if StartsTable(lines, start) then TableTurn(lines, start)
         else if IsQuote(lines[start]) then QuoteTurn(lines, start)
         else if IsItem(lines[start]) then ListTurn(lines, start)
         else ParaTurn(lines, start)
  {
    if StartsTable(lines, start) {
      var header := SplitRow(Strip(lines[start]));
      var rows;
      i, rows := Gather(lines, AfterRows(lines), SplitRow, start + 2);
      return i, Some(Table(header, rows));
    }
    if IsQuote(lines[start]) {
      var buf;
      i, buf := Gather(lines, AfterQuote(lines), Unquoted, start);
      return i, Some(Quote(buf));
    }
    if IsItem(lines[start]) {
      i, block := ParseList(lines, start);
      return;
    }
    var buf;
    i, buf := Gather(lines, AfterPara(lines), Strip, start);
    if buf != [] { return i, Some(Para(Join(buf, " "))); }
    return i, None;
  }

  method ParseList(lines: seq<string>, start: nat) returns (i: nat, block: Option<Block>)
    requires start < |lines| && IsItem(lines[start])
    ensures Turn(i, block) == ListTurn(lines, start)
  {
    var ordered := IsDigit(MarkerOf(RStrip(lines[start]))[0]);
    var items;
    i, items := GatherItems(lines, AfterList(lines), start, IsItem, IsContinuation, AddLine);
    return i, Some(List(ordered, items));
  }

  // ---------------------------------------------------------------- the outer loop

  /** A block and the lines it was made from: `lines[from..to]`. */
  datatype Span = Span(block: Block, from: nat, to: nat)

  /** How a run ends: all lines consumed, or a turn that changes nothing, which repeats for ever. */
  datatype Outcome = Done(spans: seq<Span>) | Stuck(spans: seq<Span>, at: nat)

  function SpanOf(t: Turn, i: nat): seq<Span> {
    if t.block.Some? then [Span(t.block.value, i, t.next)] else []
  }

  function Before(spans: seq<Span>, r: Outcome): Outcome {
    match r
    case Done(later) => Done(spans + later)
    case Stuck(later, at) => Stuck(spans + later, at)
  }

  /** The turn at each index. */
  function Turns(lines: seq<string>): nat -> Turn {
    (i: nat) => if i < |lines| then TakeTurn(lines, i) else Turn(i, None)
  }

  function ParseFrom(turn: nat -> Turn, n: nat, i: nat): Outcome
    decreases n - i
  {
    if i >= n then Done([])
    else
      var t := turn(i);
      if t.next <= i then Stuck([], i) else Before(SpanOf(t, i), ParseFrom(turn, n, t.next))
  }

  function Parsed(lines: seq<string>): Outcome { ParseFrom(Turns(lines), |lines|, 0) }

  function BlocksOf(spans: seq<Span>): (b: seq<Block>)
    ensures |b| == |spans| && forall k :: 0 <= k < |b| ==> b[k] == spans[k].block
  {
    seq(|spans|, k requires 0 <= k < |spans| => spans[k].block)
  }

  /**
    `parse`, from its lines on.  A turn that does not advance leaves all variables as they were, so
    the source then loops for ever; here that is reported as `stuck`.
   */
  method Parse(lines: seq<string>) returns (blocks: seq<Block>, stuck: Option<nat>)
    ensures var r := Parsed(lines);
      blocks == BlocksOf(r.spans) && stuck == if r.Stuck? then Some(r.at) else None
  {
    blocks := [];
    ghost var spans: seq<Span> := [];
    var i := 0;
    BeforeNothing(Parsed(lines));
    while i < |lines|
      invariant blocks == BlocksOf(spans)
      invariant Parsed(lines) == Before(spans, ParseFrom(Turns(lines), |lines|, i))
      decreases |lines| - i
    {
      var next, block := ParseTurn(lines, i);
      if next == i {
        BeforeEnd(spans, Stuck([], i));
        return blocks, Some(i);
      }
      ghost var turn := Turn(next, block);
      ParseStep(Turns(lines), |lines|, i, spans, turn);
      spans := spans + SpanOf(turn, i);
      if block.Some? { blocks := blocks + [block.value]; }
      i := next;
    }
    BeforeEnd(spans, Done([]));
    return blocks, None;
  }

  lemma BeforeEnd(spans: seq<Span>, r: Outcome)
    requires r.spans == []
    ensures Before(spans, r).spans == spans
  {
  }

  /** A turn moves its block from what is still to come to what has been done. */
  lemma ParseStep(turn: nat -> Turn, n: nat, i: nat, spans: seq<Span>, t: Turn)
    requires i < n && turn(i) == t && t.next > i
    ensures Before(spans, ParseFrom(turn, n, i)) == Before(spans + SpanOf(t, i), ParseFrom(turn, n, t.next))
    ensures BlocksOf(spans + SpanOf(t, i)) == BlocksOf(spans) + if t.block.Some? then [t.block.value] else []
  {
    BeforeTwice(spans, SpanOf(t, i), ParseFrom(turn, n, t.next));
  }

  lemma BeforeNothing(r: Outcome)
    ensures Before([], r) == r
  {
    assert [] + r.spans == r.spans;
  }

  lemma BeforeTwice(a: seq<Span>, b: seq<Span>, r: Outcome)
    ensures Before(a, Before(b, r)) == Before(a + b, r)
  {
    assert a + (b + r.spans) == a + b + r.spans;
  }
}
