/**
  Blocks written down as Markdown and read back by the block parser of tools/md-to-pdf.py.
 */
module BlockWriter {
  import opened Options
  import opened Text
  import opened MdLines
  import opened Blocks
  import opened BlockRuns
  import opened LineShapes

  // ---------------------------------------------------------------- lists

  /** A list is ordered if its first marker starts with a digit. */
  predicate Ordered(items: seq<ListItem>) {
    items != [] && items[0].marker != "" && items[0].marker[0] in "0123456789"
  }

  /** The line is an item and shows this entry. */
  ghost predicate ShowsItem(line: string, item: ListItem) {
    exists indent, gap ::
      IsItemWith(line, indent, item.marker, gap, item.text) && item.depth == if |indent| >= 2 then 1 else 0
  }

  lemma ShownItem(line: string, item: ListItem)
    requires ShowsItem(line, item)
    ensures IsItem(line) && ItemOf(line) == item
  {
    var indent, gap :| IsItemWith(line, indent, item.marker, gap, item.text)
      && item.depth == if |indent| >= 2 then 1 else 0;
    ItemEntry(line, indent, item.marker, gap, item.text);
  }

  /** Where a loop stops. */
  lemma {:induction false} UntilIs(stop: nat -> bool, i: nat, j: nat, n: nat)
    requires i <= j <= n && (j < n ==> stop(j)) && forall k: nat :: i <= k < j ==> !stop(k)
    ensures Until(stop, i, n) == j
    decreases j - i
  {
    if i < j { UntilIs(stop, i + 1, j, n); }
  }

  ghost predicate ShowItems(lines: seq<string>, i: nat, items: seq<ListItem>) {
    i + |items| <= |lines| && forall k :: 0 <= k < |items| ==> ShowsItem(lines[i + k], items[k])
  }

  /** Lines that add one item each add all of them. */
  lemma {:induction false} AddedAre(
    add: (seq<ListItem>, string) -> seq<ListItem>, lines: seq<string>, i: nat, items: seq<ListItem>, n: nat,
    j: nat)
    requires n <= |items| && j == i + n <= |lines|
    requires forall k :: 0 <= k < n ==> add(items[..k], lines[i + k]) == items[..k] + [items[k]]
    ensures Added(add, lines, i, j) == items[..n]
    decreases n
  {
    if n > 0 { AddedAre(add, lines, i, items, n - 1, j - 1); }
  }

  lemma ItemsShown(lines: seq<string>, i: nat, j: nat, items: seq<ListItem>)
    requires ShowItems(lines, i, items) && j == i + |items|
    ensures Items(lines, i, j) == items
  {
    var add := AddLine;
    forall k | 0 <= k < |items| ensures add(items[..k], lines[i + k]) == items[..k] + [items[k]] {
      ItemAdded(items[..k], lines[i + k], items[k]);
    }
    AddedAre(add, lines, i, items, |items|, j);
    assert items[..|items|] == items;
  }

  lemma ItemAdded(before: seq<ListItem>, line: string, item: ListItem)
    requires ShowsItem(line, item)
    ensures AddLine(before, line) == before + [item]
  {
    ShownItem(line, item);
  }

  /** Item lines up to the end or a blank line are one list. */
  lemma ListReads(lines: seq<string>, i: nat, j: nat, items: seq<ListItem>)
    requires items != [] && ShowItems(lines, i, items) && j == i + |items| && (j < |lines| ==> lines[j] == "")
    ensures IsItem(lines[i])
    ensures ListTurn(lines, i) == Turn(j, Some(List(Ordered(items), items)))
  {
    ListEnds(lines, i, j, items);
    ItemsShown(lines, i, j, items);
    FirstItem(lines[i], items);
    ListIs(lines, i, j, items);
  }

  lemma ListEnds(lines: seq<string>, i: nat, j: nat, items: seq<ListItem>)
    requires ShowItems(lines, i, items) && j == i + |items| && (j < |lines| ==> lines[j] == "")
    ensures Until(AfterList(lines), i, |lines|) == j
  {
    forall k: nat | i <= k < j ensures !AfterList(lines)(k) { ItemStays(lines, i, items, k); }
    if j < |lines| { BlankStops(lines, j); }
    UntilIs(AfterList(lines), i, j, |lines|);
  }

  /** A blank line ends every group. */
  lemma BlankStops(lines: seq<string>, j: nat)
    requires j < |lines| && lines[j] == ""
    ensures AfterList(lines)(j) && AfterQuote(lines)(j) && AfterRows(lines)(j) && AfterPara(lines)(j)
  {
    BlankEnds(lines[j]);
  }

  lemma ItemStays(lines: seq<string>, i: nat, items: seq<ListItem>, k: nat)
    requires ShowItems(lines, i, items) && i <= k < i + |items|
    ensures !AfterList(lines)(k)
  {
    ShownAt(lines, i, items, k, k - i);
    ItemInList(lines, k, items[k - i]);
  }

  lemma ShownAt(lines: seq<string>, i: nat, items: seq<ListItem>, k: nat, n: nat)
    requires ShowItems(lines, i, items) && n < |items| && k == i + n
    ensures ShowsItem(lines[k], items[n])
  {
    assert ShowsItem(lines[i + n], items[n]);
  }

  lemma ItemInList(lines: seq<string>, k: nat, item: ListItem)
    requires k < |lines| && ShowsItem(lines[k], item)
    ensures !AfterList(lines)(k)
  {
    ShownItem(lines[k], item);
  }

  lemma FirstItem(line: string, items: seq<ListItem>)
    requires items != [] && ShowsItem(line, items[0])
    ensures IsItem(line) && IsDigit(MarkerOf(RStrip(line))[0]) == Ordered(items)
  {
    ShownItem(line, items[0]);
    DigitIs(items[0].marker[0]);
  }

  lemma ListIs(lines: seq<string>, i: nat, j: nat, items: seq<ListItem>)
    requires i < |lines| && i <= j <= |lines| && IsItem(lines[i])
    requires IsDigit(MarkerOf(RStrip(lines[i]))[0]) == Ordered(items)
    requires Until(AfterList(lines), i, |lines|) == j && Items(lines, i, j) == items
    ensures ListTurn(lines, i) == Turn(j, Some(List(Ordered(items), items)))
  {
  }

  lemma BlankEnds(line: string)
    requires line == ""
    ensures Strip(line) == "" && !InList(line) && !IsQuote(line) && !IsRow(line) && !IsFence(line) && !IsSep(line)
  {
    assert RStrip(line) == "" && Strip(line) == "";
    NoMarker(line);
  }

  lemma NoMarker(line: string)
    requires line == ""
    ensures !HasMarker(line)
  {
    assert LStrip(line) == "";
  }

  /**
    A document of item lines is one list of just the entries they show, ordered if the first marker
    starts with a digit, unless its first line is a rule or starts a table.
   */
  lemma ListDocument(lines: seq<string>, items: seq<ListItem>)
    requires lines != [] && |items| == |lines| && ShowItems(lines, 0, items)
    ensures Parsed(lines) == Done([Span(List(Ordered(items), items), 0, |lines|)])
      <==> !RuleLine(lines[0]) && !TableStart(lines, 0)
  {
    ListReads(lines, 0, |lines|, items);
    ItemIsNoOther(lines, 0);
    if RuleLine(lines[0]) || TableStart(lines, 0) {
      OtherFirst(lines);
    } else {
      OneTurn(lines, TakeTurn(lines, 0));
    }
  }

  lemma OtherFirst(lines: seq<string>)
    requires lines != [] && IsItem(lines[0]) && (RuleLine(lines[0]) || TableStart(lines, 0))
    ensures Parsed(lines).spans != [] && !Parsed(lines).spans[0].block.List?
  {
    OtherTurn(lines);
    NoListFirst(Turns(lines), |lines|);
  }

  lemma OtherTurn(lines: seq<string>)
    requires lines != [] && IsItem(lines[0]) && (RuleLine(lines[0]) || TableStart(lines, 0))
    ensures var t := Turns(lines)(0); t.next > 0 && (KindOf(t.block) == RuleBlock || KindOf(t.block) == TableBlock)
  {
    TurnStarts(lines, 0);
    OtherStart(lines);
    TurnAdvances(lines, 0);
  }

  lemma OtherStart(lines: seq<string>)
    requires lines != [] && IsItem(lines[0]) && (RuleLine(lines[0]) || TableStart(lines, 0))
    ensures StartedBy(lines, 0) == if RuleLine(lines[0]) then RuleBlock else TableBlock
  {
    ItemIsNoOther(lines, 0);
  }

  lemma NoListFirst(turn: nat -> Turn, n: nat)
    requires n > 0 && turn(0).next > 0 && (KindOf(turn(0).block) == RuleBlock || KindOf(turn(0).block) == TableBlock)
    ensures var r := ParseFrom(turn, n, 0); r.spans != [] && !r.spans[0].block.List?
  {
  }

  lemma ItemIsNoOther(lines: seq<string>, i: nat)
    requires i < |lines| && IsItem(lines[i])
    ensures !AllSpace(lines[i]) && !FenceLine(lines[i]) && !HashedText(Strip(lines[i])) && !QuoteLine(lines[i])
    ensures !RuleLine(lines[i]) && !TableStart(lines, i) ==> TakeTurn(lines, i) == ListTurn(lines, i)
  {
    LineIffs(lines, i);
    ItemFirstChar(lines[i]);
  }

  lemma ItemFirstChar(line: string)
    requires IsItem(line)
    ensures var s := Strip(line); s != "" && !IsFence(line) && !IsHeading(s) && !IsQuote(line)
  {
    MarkerLooks(Strip(line));
    DigitIs(Strip(line)[0]);
  }

  lemma OneTurn(lines: seq<string>, t: Turn)
    requires lines != [] && t == TakeTurn(lines, 0) && t.next == |lines| && t.block.Some?
    ensures Parsed(lines) == Done([Span(t.block.value, 0, |lines|)])
  {
    assert ParseFrom(Turns(lines), |lines|, |lines|) == Done([]);
  }

  // ---------------------------------------------------------------- writing blocks

  function RowText(cells: seq<string>): string { "|" + Join(cells, "|") + "|" }

  function QuoteText(text: string): string { "> " + text }

  function ItemText(item: ListItem): string {
    (if item.depth == 0 then "" else "  ") + item.marker + " " + item.text
  }

  function BlockLines(b: Block): seq<string> {
    match b
    case Code(lines) => ["```"] + lines + ["```"]
    case Rule => ["---"]
    case Heading(level, text) => [Repeat('#', level) + " " + text]
    case Table(header, rows) => [RowText(header), "|-|"] + Mapped(RowText, rows)
    case Quote(lines) => Mapped(QuoteText, lines)
    case List(_, items) => Mapped(ItemText, items)
    case Para(text) => [text]
  }

  /** Each block's lines, and a blank line after each. */
  function Written(blocks: seq<Block>): seq<string> {
    if blocks == [] then [] else BlockLines(blocks[0]) + ([""] + Written(blocks[1..]))
  }

  predicate IsCells(cells: seq<string>) {
    cells != [] && forall k :: 0 <= k < |cells| ==> '|' !in cells[k] && (cells[k] == "" || IsInk(cells[k]))
  }

  predicate IsEntry(item: ListItem) { item.depth <= 1 && IsMarker(item.marker) && IsInk(item.text) }

  /** A paragraph's line starts no other block. */
  ghost predicate IsPlain(line: string) {
    && IsInk(line) && !FenceLine(line) && !RuleLine(line) && !HashedText(line) && !QuoteLine(line)
    && !MarkedLine(line)
  }

  /** The blocks that can be written: those whose texts cannot be taken for something else. */
  ghost predicate Writable(b: Block) {
    match b
    case Code(lines) => forall k :: 0 <= k < |lines| ==> !FenceLine(lines[k])
    case Rule => true
    case Heading(level, text) => 1 <= level <= 6 && IsInk(text)
    case Table(header, rows) => IsCells(header) && forall k :: 0 <= k < |rows| ==> IsCells(rows[k])
    case Quote(lines) => lines != [] && forall k :: 0 <= k < |lines| ==> lines[k] == "" || IsInk(lines[k])
    case List(ordered, items) =>
      && items != [] && (forall k :: 0 <= k < |items| ==> IsEntry(items[k]))
      && ordered == Ordered(items)
      && !RuleLine(ItemText(items[0]))
      && ('|' in ItemText(items[0]) && |items| > 1 ==> !SepLine(ItemText(items[1])))
    case Para(text) => IsPlain(text)
  }

  /** The lines from `i` on are these, and then a blank one. */
  predicate Placed(lines: seq<string>, i: nat, part: seq<string>) {
    i + |part| < |lines| && lines[i..i + |part|] == part && lines[i + |part|] == ""
  }

  lemma PlacedAt(lines: seq<string>, i: nat, part: seq<string>)
    requires Placed(lines, i, part)
    ensures forall k :: 0 <= k < |part| ==> lines[i + k] == part[k]
  {
    forall k | 0 <= k < |part| ensures lines[i + k] == part[k] { assert lines[i..i + |part|][k] == part[k]; }
  }

  lemma InkStrips(s: string)
    requires IsInk(s)
    ensures Strip(s) == s && RStrip(s) == s
  {
    assert RStrip(s) == s && Indent(s) == 0;
  }

  lemma FenceMark(line: string)
    requires line == "```"
    ensures IsFence(line)
  {
    InkStrips(line);
  }

  lemma Fenced(lines: seq<string>, i: nat, body: seq<string>, mark: string)
    requires i + |body| + 2 <= |lines| && lines[i..i + |body| + 2] == [mark] + body + [mark]
    ensures var j := i + 1 + |body|; lines[i] == mark && lines[i + 1..j] == body && lines[j] == mark
  {
    var all := lines[i..i + |body| + 2];
    assert all[0] == mark && all[1 + |body|] == mark;
    forall k | 0 <= k < |body| ensures lines[i + 1..i + 1 + |body|][k] == body[k] {
      assert all[1 + k] == body[k] && all[1 + k] == lines[i + (1 + k)];
    }
    assert lines[i + 1..i + 1 + |body|] == body;
  }

  lemma CodeReads(lines: seq<string>, i: nat, body: seq<string>)
    requires Placed(lines, i, ["```"] + body + ["```"]) && forall k :: 0 <= k < |body| ==> !FenceLine(body[k])
    ensures TakeTurn(lines, i) == Turn(i + |body| + 2, Some(Code(body)))
  {
    var j := i + 1 + |body|;
    Fenced(lines, i, body, "```");
    FenceMark(lines[i]);
    FenceMark(lines[j]);
    forall k: nat | i + 1 <= k < j ensures !AtFence(lines)(k) {
      assert lines[k] == lines[i + 1..j][k - i - 1];
      IsFenceIff(lines[k]);
    }
    UntilIs(AtFence(lines), i + 1, j, |lines|);
    FenceTurn(lines, i);
  }

  lemma FenceTurn(lines: seq<string>, i: nat)
    requires i < |lines| && IsFence(lines[i])
    ensures TakeTurn(lines, i) == CodeTurn(lines, i)
  {
  }

  lemma RuleReads(lines: seq<string>, i: nat)
    requires Placed(lines, i, ["---"])
    ensures TakeTurn(lines, i) == Turn(i + 1, Some(Rule))
  {
    PlacedAt(lines, i, ["---"]);
    RuleMark(lines[i]);
  }

  lemma {:induction false} CountAll(t: string, mark: char)
    requires forall k :: 0 <= k < |t| ==> t[k] == mark
    ensures Count(t, mark) == |t|
  {
    if t != "" { CountAll(t[1..], mark); }
  }

  lemma RuleMark(line: string)
    requires line == "---"
    ensures Strip(line) == line && IsRule(line) && !IsFence(line)
  {
    InkStrips(line);
    CountAll(line, '-');
  }

  lemma HeadingReads(lines: seq<string>, i: nat, level: nat, text: string)
    requires Placed(lines, i, [Repeat('#', level) + " " + text]) && 1 <= level <= 6 && IsInk(text)
    ensures TakeTurn(lines, i) == Turn(i + 1, Some(Heading(level, text)))
  {
    PlacedAt(lines, i, [Repeat('#', level) + " " + text]);
    HeadingShown(lines[i], level, " ", text);
    TurnIs(lines, i);
  }

  lemma HeadingShown(line: string, level: nat, gap: string, text: string)
    requires gap == " " && line == Repeat('#', level) + gap + text && 1 <= level <= 6 && IsInk(text)
    ensures HeadingLine(line, level, text)
  {
    assert line[0] == '#' && line[|line| - 1] == text[|text| - 1];
    InkStrips(line);
    assert IsHashed(Strip(line), level, gap, text);
  }

  // ---------------------------------------------------------------- tables, quotes, lists, paragraphs

  lemma {:induction false} JoinEnds(cells: seq<string>)
    requires cells != []
    ensures var s := RowText(cells); |s| >= 2 && s[0] == '|' && s[|s| - 1] == '|' && s[1..|s| - 1] == Join(cells, "|")
  {
  }

  lemma RowReads(cells: seq<string>)
    requires IsCells(cells)
    ensures var s := RowText(cells); IsInk(s) && '|' in s && SplitRow(s) == cells && Strip(s) == s && s[0] == '|'
  {
    var s := RowText(cells);
    JoinEnds(cells);
    InkStrips(s);
    assert DropLastPipe(DropFirstPipe(s)) == s[1..|s| - 1];
    SplitJoin(cells, '|');
    CellsStrip(cells);
  }

  lemma CellsStrip(cells: seq<string>)
    requires IsCells(cells)
    ensures forall k :: 0 <= k < |cells| ==> Strip(cells[k]) == cells[k]
  {
    forall k | 0 <= k < |cells| ensures Strip(cells[k]) == cells[k] {
      if cells[k] == "" { BlankEnds(cells[k]); } else { InkStrips(cells[k]); }
    }
  }

  lemma SepMark(line: string)
    requires line == "|-|"
    ensures IsSep(line)
  {
    InkStrips(line);
    assert line[1] == '-' && line[0] == '|';
  }

  lemma TableReads(lines: seq<string>, i: nat, header: seq<string>, rows: seq<seq<string>>)
    requires Placed(lines, i, [RowText(header), "|-|"] + Mapped(RowText, rows))
    requires IsCells(header) && forall k :: 0 <= k < |rows| ==> IsCells(rows[k])
    ensures TakeTurn(lines, i) == Turn(i + |rows| + 2, Some(Table(header, rows)))
  {
    TableLines(lines, i, i + 2, header, rows, [RowText(header), "|-|"] + Mapped(RowText, rows));
    TableReadsAt(lines, i, i + 2, header, rows);
  }

  lemma TableReadsAt(lines: seq<string>, i: nat, at: nat, header: seq<string>, rows: seq<seq<string>>)
    requires at == i + 2 && at + |rows| < |lines| && lines[at + |rows|] == ""
    requires IsCells(header) && lines[i] == RowText(header) && lines[i + 1] == "|-|"
    requires forall k :: 0 <= k < |rows| ==> IsCells(rows[k])
    requires forall k :: at <= k < at + |rows| ==> lines[k] == RowText(rows[k - at])
    ensures TakeTurn(lines, i) == Turn(at + |rows|, Some(Table(header, rows)))
  {
    HeadReads(lines, i, at, header);
    RowsStop(lines, at, rows);
    GatheredTable(lines, AfterRows(lines), SplitRow, at, rows, header, TakeTurn(lines, i));
  }

  lemma HeadReads(lines: seq<string>, i: nat, at: nat, header: seq<string>)
    requires at == i + 2 <= |lines| && IsCells(header) && lines[i] == RowText(header) && lines[i + 1] == "|-|"
    ensures TakeTurn(lines, i) == TableFrom(lines, header, at)
  {
    RowReads(header);
    SepMark(lines[i + 1]);
    TableStarts(lines, i);
  }

  /** The values of the lines up to where a loop stops. */
  lemma Gathered<U>(lines: seq<string>, stop: nat -> bool, f: string -> U, i: nat, values: seq<U>)
    requires i + |values| < |lines| && stop(i + |values|)
    requires forall k: nat :: i <= k < i + |values| ==> !stop(k) && f(lines[k]) == values[k - i]
    ensures Until(stop, i, |lines|) == i + |values| && Mapped(f, lines[i..i + |values|]) == values
  {
    UntilIs(stop, i, i + |values|, |lines|);
  }

  lemma GatheredTable(
    lines: seq<string>, stop: nat -> bool, split: string -> seq<string>, at: nat, rows: seq<seq<string>>,
    header: seq<string>, t: Turn)
    requires at + |rows| < |lines| && stop(at + |rows|)
    requires forall k: nat :: at <= k < at + |rows| ==> !stop(k) && split(lines[k]) == rows[k - at]
    requires var j := Until(stop, at, |lines|); t == Turn(j, Some(Table(header, Mapped(split, lines[at..j]))))
    ensures t == Turn(at + |rows|, Some(Table(header, rows)))
  {
    Gathered(lines, stop, split, at, rows);
  }

  lemma RowsStop(lines: seq<string>, i: nat, rows: seq<seq<string>>)
    requires i + |rows| < |lines| && lines[i + |rows|] == "" && forall k :: 0 <= k < |rows| ==> IsCells(rows[k])
    requires forall k :: i <= k < i + |rows| ==> lines[k] == RowText(rows[k - i])
    ensures AfterRows(lines)(i + |rows|)
    ensures forall k: nat :: i <= k < i + |rows| ==> !AfterRows(lines)(k) && SplitRow(lines[k]) == rows[k - i]
  {
    forall k: nat | i <= k < i + |rows| ensures !AfterRows(lines)(k) && SplitRow(lines[k]) == rows[k - i] {
      RowShown(lines[k], rows[k - i]);
    }
    BlankEnds(lines[i + |rows|]);
  }

  lemma RowShown(line: string, cells: seq<string>)
    requires IsCells(cells) && line == RowText(cells)
    ensures IsRow(line) && SplitRow(line) == cells
  {
    RowReads(cells);
  }

  lemma TableLines(
    lines: seq<string>, i: nat, at: nat, header: seq<string>, rows: seq<seq<string>>, part: seq<string>)
    requires part == [RowText(header), "|-|"] + Mapped(RowText, rows) && Placed(lines, i, part) && at == i + 2
    ensures lines[i] == RowText(header) && lines[i + 1] == "|-|"
    ensures at + |rows| < |lines| && lines[at + |rows|] == ""
    ensures forall k :: at <= k < at + |rows| ==> lines[k] == RowText(rows[k - at])
  {
    PlacedAt(lines, i, part);
    assert |part| == 2 + |rows| && lines[i + 0] == part[0] && lines[i + 1] == part[1];
    forall k | at <= k < at + |rows| ensures lines[k] == RowText(rows[k - at]) {
      assert lines[i + (k - i)] == part[k - i];
    }
  }

  lemma TableStarts(lines: seq<string>, i: nat)
    requires i + 1 < |lines| && lines[i] != "" && lines[i][0] == '|' && Strip(lines[i]) == lines[i]
    requires IsSep(lines[i + 1])
    ensures TakeTurn(lines, i) == TableTurn(lines, i)
  {
    PipeFirst(lines[i]);
    PlainTurn(lines, i);
  }

  lemma PipeFirst(line: string)
    requires line != "" && line[0] == '|' && Strip(line) == line
    ensures '|' in Strip(line) && !IsFence(line) && !IsRule(Strip(line)) && !IsHeading(Strip(line))
  {
    FirstChar(line);
  }

  lemma PlainTurn(lines: seq<string>, i: nat)
    requires i < |lines| && Strip(lines[i]) != "" && !IsFence(lines[i])
    requires !IsRule(Strip(lines[i])) && !IsHeading(Strip(lines[i]))
    ensures StartsTable(lines, i) ==> TakeTurn(lines, i) == TableTurn(lines, i)
    ensures !StartsTable(lines, i) && IsQuote(lines[i]) ==> TakeTurn(lines, i) == QuoteTurn(lines, i)
    ensures !StartsTable(lines, i) && !IsQuote(lines[i]) && !IsItem(lines[i])
      ==> TakeTurn(lines, i) == ParaTurn(lines, i)
  {
  }

  lemma QuoteReads(lines: seq<string>, i: nat, texts: seq<string>)
    requires Placed(lines, i, Mapped(QuoteText, texts)) && texts != []
    requires forall k :: 0 <= k < |texts| ==> texts[k] == "" || IsInk(texts[k])
    ensures TakeTurn(lines, i) == Turn(i + |texts|, Some(Quote(texts)))
  {
    PlacedAt(lines, i, Mapped(QuoteText, texts));
    forall k: nat | i <= k < i + |texts| ensures lines[k] == QuoteText(texts[k - i]) {
      assert lines[i + (k - i)] == QuoteText(texts[k - i]);
    }
    QuotesRead(lines, i, texts);
    QuoteIs(lines, i, i + |texts|, texts);
  }

  lemma QuotesRead(lines: seq<string>, i: nat, texts: seq<string>)
    requires i + |texts| < |lines| && lines[i + |texts|] == "" && texts != []
    requires forall k :: 0 <= k < |texts| ==> texts[k] == "" || IsInk(texts[k])
    requires forall k :: i <= k < i + |texts| ==> lines[k] == QuoteText(texts[k - i])
    ensures IsQuote(lines[i]) && TakeTurn(lines, i) == QuoteTurn(lines, i)
    ensures Until(AfterQuote(lines), i, |lines|) == i + |texts| && Mapped(Unquoted, lines[i..i + |texts|]) == texts
  {
    forall k: nat | i <= k < i + |texts| ensures !AfterQuote(lines)(k) && Unquoted(lines[k]) == texts[k - i] {
      QuoteStays(lines, k, texts[k - i]);
    }
    BlankStops(lines, i + |texts|);
    Gathered(lines, AfterQuote(lines), Unquoted, i, texts);
    FirstQuote(lines, i, texts);
  }

  lemma QuoteStays(lines: seq<string>, k: nat, text: string)
    requires k < |lines| && lines[k] == QuoteText(text) && (text == "" || IsInk(text))
    ensures !AfterQuote(lines)(k) && Unquoted(lines[k]) == text
  {
    QuoteShown(lines[k], text);
  }

  lemma FirstQuote(lines: seq<string>, i: nat, texts: seq<string>)
    requires i + |texts| < |lines| && lines[i + |texts|] == "" && texts != []
    requires forall k :: 0 <= k < |texts| ==> texts[k] == "" || IsInk(texts[k])
    requires forall k :: i <= k < i + |texts| ==> lines[k] == QuoteText(texts[k - i])
    ensures IsQuote(lines[i]) && TakeTurn(lines, i) == QuoteTurn(lines, i)
  {
    QuoteShown(lines[i], texts[0]);
    if |texts| > 1 { QuoteShown(lines[i + 1], texts[1]); } else { BlankEnds(lines[i + 1]); }
    QuoteStarts(lines, i);
  }

  lemma QuoteIs(lines: seq<string>, i: nat, j: nat, texts: seq<string>)
    requires i <= j <= |lines| && i < |lines| && IsQuote(lines[i])
    requires Until(AfterQuote(lines), i, |lines|) == j && Mapped(Unquoted, lines[i..j]) == texts
    ensures QuoteTurn(lines, i) == Turn(j, Some(Quote(texts)))
  {
  }

  lemma QuoteShown(line: string, text: string)
    requires line == QuoteText(text) && (text == "" || IsInk(text))
    ensures IsQuote(line) && Unquoted(line) == text && !IsSep(line)
  {
    var r := if text == "" then line[..1] else line;
    assert line[0] == '>' && line[1] == ' ' && line[2..] == text;
    assert RStrip(line) == r && LStrip(r) == r;
  }

  lemma QuoteStarts(lines: seq<string>, i: nat)
    requires i + 1 < |lines| && IsQuote(lines[i]) && !IsSep(lines[i + 1])
    ensures TakeTurn(lines, i) == QuoteTurn(lines, i)
  {
    FirstChar(lines[i]);
    PlainTurn(lines, i);
  }

  lemma EntryShown(line: string, item: ListItem)
    requires IsEntry(item) && line == ItemText(item)
    ensures ShowsItem(line, item)
  {
    var indent, gap := if item.depth == 0 then "" else "  ", " ";
    assert line == indent + item.marker + gap + item.text;
    assert line[|line| - 1] == item.text[|item.text| - 1];
    assert RStrip(line) == line;
    assert IsItemWith(line, indent, item.marker, gap, item.text);
  }

  lemma ListBlockReads(lines: seq<string>, i: nat, items: seq<ListItem>)
    requires items != [] && (forall k :: 0 <= k < |items| ==> IsEntry(items[k])) && !RuleLine(ItemText(items[0]))
    requires '|' in ItemText(items[0]) && |items| > 1 ==> !SepLine(ItemText(items[1]))
    requires Placed(lines, i, Mapped(ItemText, items))
    ensures TakeTurn(lines, i) == Turn(i + |items|, Some(List(Ordered(items), items)))
  {
    PlacedAt(lines, i, Mapped(ItemText, items));
    forall k | 0 <= k < |items| ensures lines[i + k] == ItemText(items[k]) {
      assert lines[i + k] == Mapped(ItemText, items)[k];
    }
    EntriesShown(lines, i, items);
    ListReads(lines, i, i + |items|, items);
    ListStarts(lines, i, items);
  }

  lemma ListStarts(lines: seq<string>, i: nat, items: seq<ListItem>)
    requires items != [] && i + |items| < |lines| && lines[i + |items|] == "" && IsItem(lines[i])
    requires forall k :: 0 <= k < |items| ==> lines[i + k] == ItemText(items[k])
    requires !RuleLine(ItemText(items[0]))
    requires '|' in ItemText(items[0]) && |items| > 1 ==> !SepLine(ItemText(items[1]))
    ensures TakeTurn(lines, i) == ListTurn(lines, i)
  {
    assert lines[i + 0] == ItemText(items[0]);
    NoTableStart(lines, i, items);
    ItemIsNoOther(lines, i);
  }

  lemma EntriesShown(lines: seq<string>, i: nat, items: seq<ListItem>)
    requires i + |items| <= |lines| && forall k :: 0 <= k < |items| ==> IsEntry(items[k])
    requires forall k :: 0 <= k < |items| ==> lines[i + k] == ItemText(items[k])
    ensures ShowItems(lines, i, items)
  {
    forall k | 0 <= k < |items| ensures ShowsItem(lines[i + k], items[k]) { EntryShown(lines[i + k], items[k]); }
  }

  lemma NoTableStart(lines: seq<string>, i: nat, items: seq<ListItem>)
    requires items != [] && i + |items| < |lines| && lines[i + |items|] == ""
    requires forall k :: 0 <= k < |items| ==> lines[i + k] == ItemText(items[k])
    requires '|' in ItemText(items[0]) && |items| > 1 ==> !SepLine(ItemText(items[1]))
    ensures !TableStart(lines, i)
  {
    if |items| == 1 {
      BlankEnds(lines[i + 1]);
      IsSepIff(lines[i + 1]);
    }
  }

  lemma ParaReads(lines: seq<string>, i: nat, text: string)
    requires Placed(lines, i, [text]) && IsPlain(text)
    ensures TakeTurn(lines, i) == Turn(i + 1, Some(Para(text)))
  {
    PlacedAt(lines, i, [text]);
    assert lines[i + 0] == text;
    ParaReadsAt(lines, i, i + 1, text);
  }

  lemma ParaReadsAt(lines: seq<string>, i: nat, j: nat, text: string)
    requires j == i + 1 < |lines| && lines[i] == text && lines[j] == "" && IsPlain(text)
    ensures TakeTurn(lines, i) == Turn(j, Some(Para(text)))
  {
    ParaStands(lines, i, j);
    ParaUntil(lines, i, j);
    OneMapped(Strip, lines, i, j);
    ParaIs(lines, i, j, text);
  }

  lemma ParaUntil(lines: seq<string>, i: nat, j: nat)
    requires j == i + 1 < |lines| && !AfterPara(lines)(i) && AfterPara(lines)(j)
    ensures Until(AfterPara(lines), i, |lines|) == j
  {
    UntilIs(AfterPara(lines), i, j, |lines|);
  }

  lemma OneMapped<U>(f: string -> U, lines: seq<string>, i: nat, j: nat)
    requires j == i + 1 <= |lines|
    ensures Mapped(f, lines[i..j]) == [f(lines[i])]
  {
  }

  lemma ParaStands(lines: seq<string>, i: nat, j: nat)
    requires j == i + 1 < |lines| && lines[j] == "" && IsPlain(lines[i])
    ensures !AfterPara(lines)(i) && AfterPara(lines)(j) && Strip(lines[i]) == lines[i]
    ensures TakeTurn(lines, i) == ParaTurn(lines, i)
  {
    InkStrips(lines[i]);
    BlankEnds(lines[j]);
    LineIffs(lines, i);
    EndsParaIff(lines, i);
    IsItemImpliesMarked(lines[i]);
    PlainTurn(lines, i);
  }

  lemma IsItemImpliesMarked(line: string)
    requires RStrip(line) == line
    ensures IsItem(line) <==> HasMarker(line)
  {
  }

  lemma ParaIs(lines: seq<string>, i: nat, j: nat, text: string)
    requires i < j <= |lines| && Until(AfterPara(lines), i, |lines|) == j && Mapped(Strip, lines[i..j]) == [text]
    ensures ParaTurn(lines, i) == Turn(j, Some(Para(text)))
  {
  }

  // ---------------------------------------------------------------- the round trip

  ghost predicate AllWritable(blocks: seq<Block>) {
    blocks == [] || (Writable(blocks[0]) && AllWritable(blocks[1..]))
  }

  lemma {:induction false} EachWritable(blocks: seq<Block>)
    ensures AllWritable(blocks) <==> forall k :: 0 <= k < |blocks| ==> Writable(blocks[k])
  {
    if blocks != [] {
      EachWritable(blocks[1..]);
      assert forall k :: 1 <= k < |blocks| ==> blocks[k] == blocks[1..][k - 1];
    }
  }

  /** A block that was written down is read back by one turn. */
  lemma BlockReads(lines: seq<string>, i: nat, blocks: seq<Block>, m: nat)
    requires blocks != [] && AllWritable(blocks) && Placed(lines, i, BlockLines(blocks[0]))
    requires m == i + |BlockLines(blocks[0])|
    ensures m > i && TakeTurn(lines, i) == Turn(m, Some(blocks[0]))
  {
    match blocks[0]
    case Code(body) => CodeReads(lines, i, body);
    case Rule => RuleReads(lines, i);
    case Heading(level, text) => HeadingReads(lines, i, level, text);
    case Table(header, rows) => TableReads(lines, i, header, rows);
    case Quote(texts) => QuoteReads(lines, i, texts);
    case List(_, items) => ListBlockReads(lines, i, items);
    case Para(text) => ParaReads(lines, i, text);
  }

  lemma BlankReads(lines: seq<string>, i: nat)
    requires i < |lines| && lines[i] == ""
    ensures TakeTurn(lines, i) == Turn(i + 1, None)
  {
    BlankEnds(lines[i]);
  }

  /** From line `i` on, a turn makes the block, and the next passes the blank line after it. */
  function Makes(i: nat, m: nat, next: nat, b: Block): (nat -> Turn) -> bool {
    (turn: nat -> Turn) => turn(i) == Turn(m, Some(b)) && turn(m) == Turn(next, None)
  }

  lemma TwoTurns(turn: nat -> Turn, n: nat, i: nat, m: nat, next: nat, b: Block)
    requires i < m < n && m < next && Makes(i, m, next, b)(turn)
    ensures ParseFrom(turn, n, i) == Before([Span(b, i, m)], ParseFrom(turn, n, next))
  {
    BeforeNothing(ParseFrom(turn, n, next));
  }

  /** The parser comes to its end, and these are the blocks. */
  function Gives(blocks: seq<Block>): Outcome -> bool { (r: Outcome) => r.Done? && BlocksOf(r.spans) == blocks }

  lemma ReadsMore(r: Outcome, span: Span, blocks: seq<Block>)
    requires blocks != [] && Gives(blocks[1..])(r) && span.block == blocks[0]
    ensures Gives(blocks)(Before([span], r))
  {
  }

  /** What the parser makes of the lines from `i` on. */
  function ParsedFrom(lines: seq<string>, i: nat): Outcome { ParseFrom(Turns(lines), |lines|, i) }

  lemma ParsedStep(lines: seq<string>, i: nat, m: nat, next: nat, b: Block)
    requires i < m < |lines| && m < next && Makes(i, m, next, b)(Turns(lines))
    ensures ParsedFrom(lines, i) == Before([Span(b, i, m)], ParsedFrom(lines, next))
  {
    TwoTurns(Turns(lines), |lines|, i, m, next, b);
  }

  /** From line `i` on the blocks are read. */
  predicate ReadFrom(lines: seq<string>, i: nat, blocks: seq<Block>) { Gives(blocks)(ParsedFrom(lines, i)) }

  lemma ReadsStep(lines: seq<string>, i: nat, m: nat, next: nat, blocks: seq<Block>)
    requires i < m < |lines| && m < next && blocks != [] && Makes(i, m, next, blocks[0])(Turns(lines))
    requires ReadFrom(lines, next, blocks[1..])
    ensures ReadFrom(lines, i, blocks)
  {
    ParsedStep(lines, i, m, next, blocks[0]);
    ReadsMore(ParsedFrom(lines, next), Span(blocks[0], i, m), blocks);
  }

  lemma FirstPlaced(lines: seq<string>, i: nat, m: nat, next: nat, part: seq<string>, rest: seq<string>)
    requires i <= |lines| && lines[i..] == part + ([""] + rest) && m == i + |part| && next == m + 1
    ensures Placed(lines, i, part) && lines[m] == "" && lines[next..] == rest
  {
    var all := part + ([""] + rest);
    assert all[..|part|] == part && all[|part|] == "" && all[|part| + 1..] == rest;
    assert lines[i..][..|part|] == lines[i..i + |part|];
    assert lines[i..][|part|] == lines[i + |part|];
    assert lines[i..][|part| + 1..] == lines[i + |part| + 1..];
  }

  lemma FirstTurns(lines: seq<string>, i: nat, blocks: seq<Block>, m: nat, next: nat)
    requires i <= |lines| && lines[i..] == Written(blocks) && blocks != [] && AllWritable(blocks)
    requires m == i + |BlockLines(blocks[0])| && next == m + 1
    ensures i < m < |lines| && next <= |lines| && lines[next..] == Written(blocks[1..])
    ensures Makes(i, m, next, blocks[0])(Turns(lines))
  {
    FirstPlaced(lines, i, m, next, BlockLines(blocks[0]), Written(blocks[1..]));
    BlockReads(lines, i, blocks, m);
    BlankReads(lines, m);
  }

  lemma {:induction false} WrittenReadsFrom(lines: seq<string>, i: nat, blocks: seq<Block>)
    requires i <= |lines| && lines[i..] == Written(blocks) && AllWritable(blocks)
    ensures ReadFrom(lines, i, blocks)
    decreases |blocks|
  {
    if blocks != [] {
      var m := i + |BlockLines(blocks[0])|;
      var next := m + 1;
      FirstTurns(lines, i, blocks, m, next);
      WrittenReadsFrom(lines, next, blocks[1..]);
      ReadsStep(lines, i, m, next, blocks);
    }
  }

  /** Blocks written down as lines are read back as they were. */
  lemma WrittenReads(blocks: seq<Block>)
    requires forall k :: 0 <= k < |blocks| ==> Writable(blocks[k])
    ensures Gives(blocks)(Parsed(Written(blocks)))
  {
    assert Written(blocks)[0..] == Written(blocks);
    EachWritable(blocks);
    WrittenReadsFrom(Written(blocks), 0, blocks);
  }

  predicate OneLiners(lines: seq<string>) {
    forall k :: 0 <= k < |lines| ==> '\n' !in lines[k] && '\r' !in lines[k]
  }

  lemma {:induction false} JoinHasNo(parts: seq<string>, sep: string, c: char)
    requires c !in sep && forall k :: 0 <= k < |parts| ==> c !in parts[k]
    ensures c !in Join(parts, sep)
  {
    if |parts| > 1 { JoinHasNo(parts[1..], sep, c); }
  }

  lemma LinesJoined(lines: seq<string>, crlf: string, cr: string, lf: string)
    requires crlf == "\r\n" && cr == "\r" && lf == "\n" && lines != [] && OneLiners(lines)
    ensures LinesOf(Join(lines, lf)) == lines
  {
    var md := Join(lines, lf);
    JoinHasNo(lines, lf, '\r');
    LinesSplitBy(md, crlf, cr, lf);
    assert md + "" == md;
    ReplacePasses(md, "", crlf, lf);
    ReplacePasses(md, "", cr, lf);
    SplitJoin(lines, '\n');
  }

  /** Blocks written down as a text are read back as they were, and the parser comes to its end. */
  lemma DocumentReads(blocks: seq<Block>)
    requires blocks != [] && OneLiners(Written(blocks)) && forall k :: 0 <= k < |blocks| ==> Writable(blocks[k])
    ensures Gives(blocks)(Parsed(LinesOf(Join(Written(blocks), "\n"))))
  {
    LinesJoined(Written(blocks), "\r\n", "\r", "\n");
    WrittenReads(blocks);
  }
}
