/** What the blocks hold: every visible character of the source, in order. */
module BlockInk {
  import opened Options
  import opened Text
  import opened MdLines
  import opened Blocks

  /** `s` without the characters that `drop` picks out. */
  function Kept(drop: char -> bool, s: string): string {
    if s == "" then "" else (if drop(s[0]) then "" else [s[0]]) + Kept(drop, s[1..])
  }

  function KeptAll(drop: char -> bool, parts: seq<string>): string {
    if parts == [] then "" else Kept(drop, parts[0]) + KeptAll(drop, parts[1..])
  }

  predicate SpaceOrPipe(c: char) { IsSpace(c) || c == '|' }

  /** The visible characters of a line, of several lines, and of a table row. */
  function Ink(s: string): string { Kept(IsSpace, s) }

  function InkAll(lines: seq<string>): string { KeptAll(IsSpace, lines) }

  function RowInk(cells: seq<string>): string { KeptAll(SpaceOrPipe, cells) }

  /** The visible characters a list came from: each item's marker, then its text. */
  function InkItems(items: seq<ListItem>): string {
    if items == [] then ""
    else InkItems(items[..|items| - 1]) + items[|items| - 1].marker + Ink(items[|items| - 1].text)
  }

  // ---------------------------------------------------------------- keeping characters

  lemma {:induction false} KeptConcat(drop: char -> bool, a: string, b: string)
    ensures Kept(drop, a + b) == Kept(drop, a) + Kept(drop, b)
  {
    if a == "" {
      assert a + b == b;
    } else {
      assert (a + b)[1..] == a[1..] + b;
      KeptConcat(drop, a[1..], b);
    }
  }

  lemma {:induction false} KeptNothing(drop: char -> bool, s: string)
    requires forall i :: 0 <= i < |s| ==> drop(s[i])
    ensures Kept(drop, s) == ""
  {
    if s != "" { KeptNothing(drop, s[1..]); }
  }

  lemma {:induction false} KeptEverything(drop: char -> bool, s: string)
    requires forall i :: 0 <= i < |s| ==> !drop(s[i])
    ensures Kept(drop, s) == s
  {
    if s != "" { KeptEverything(drop, s[1..]); }
  }

  ghost predicate DropsSpace(drop: char -> bool) { forall c :: IsSpace(c) ==> drop(c) }

  lemma KeptLeft(drop: char -> bool, a: string, b: string)
    requires forall k :: 0 <= k < |a| ==> drop(a[k])
    ensures Kept(drop, a + b) == Kept(drop, b)
  {
    KeptConcat(drop, a, b);
    KeptNothing(drop, a);
  }

  lemma KeptRight(drop: char -> bool, a: string, b: string)
    requires forall k :: 0 <= k < |b| ==> drop(b[k])
    ensures Kept(drop, a + b) == Kept(drop, a)
  {
    KeptConcat(drop, a, b);
    KeptNothing(drop, b);
  }

  lemma KeptRStrip(drop: char -> bool, s: string)
    requires DropsSpace(drop)
    ensures Kept(drop, RStrip(s)) == Kept(drop, s)
  {
    var r := RStrip(s);
    assert s == r + s[|r|..];
    KeptRight(drop, r, s[|r|..]);
  }

  lemma KeptLStrip(drop: char -> bool, s: string)
    requires DropsSpace(drop)
    ensures Kept(drop, LStrip(s)) == Kept(drop, s)
  {
    assert s == s[..Indent(s)] + LStrip(s);
    KeptLeft(drop, s[..Indent(s)], LStrip(s));
  }

  /** Stripping loses no ink. */
  lemma KeptStrip(drop: char -> bool, s: string)
    requires DropsSpace(drop)
    ensures Kept(drop, Strip(s)) == Kept(drop, s)
  {
    KeptRStrip(drop, s);
    KeptLStrip(drop, RStrip(s));
  }

  lemma {:induction false} KeptJoin(drop: char -> bool, parts: seq<string>, sep: string)
    requires Kept(drop, sep) == ""
    ensures Kept(drop, Join(parts, sep)) == KeptAll(drop, parts)
  {
    if |parts| == 1 {
      assert parts[1..] == [];
      assert KeptAll(drop, parts) == Kept(drop, parts[0]) + "";
    } else if |parts| > 1 {
      KeptJoin(drop, parts[1..], sep);
      KeptConcat(drop, parts[0] + sep, Join(parts[1..], sep));
      KeptConcat(drop, parts[0], sep);
    }
  }

  /** Two lists of strings with the same ink, one by one. */
  lemma {:induction false} KeptEach(drop: char -> bool, a: seq<string>, b: seq<string>)
    requires |a| == |b| && forall k :: 0 <= k < |a| ==> Kept(drop, a[k]) == Kept(drop, b[k])
    ensures KeptAll(drop, a) == KeptAll(drop, b)
  {
    if a != [] { KeptEach(drop, a[1..], b[1..]); }
  }

  lemma {:induction false} KeptAllSnoc(drop: char -> bool, parts: seq<string>, last: string)
    ensures KeptAll(drop, parts + [last]) == KeptAll(drop, parts) + Kept(drop, last)
  {
    if parts == [] {
      assert parts + [last] == [last];
      assert KeptAll(drop, [last][1..]) == "";
    } else {
      assert (parts + [last])[1..] == parts[1..] + [last];
      KeptAllSnoc(drop, parts[1..], last);
    }
  }

  // ---------------------------------------------------------------- headings, quotes, rows, paragraphs

  lemma HeadingInk(line: string)
    requires IsHeading(Strip(line))
    ensures var s := Strip(line); Ink(line) == Repeat('#', Hashes(s)) + Ink(Strip(s[Hashes(s)..]))
  {
    var s := Strip(line);
    KeptStrip(IsSpace, line);
    HashesInk(s, Hashes(s));
    KeptStrip(IsSpace, s[Hashes(s)..]);
  }

  lemma HashesInk(s: string, h: nat)
    requires h <= |s| && forall i :: 0 <= i < h ==> s[i] == '#'
    ensures Ink(s) == Repeat('#', h) + Ink(s[h..])
  {
    assert s == s[..h] + s[h..];
    KeptConcat(IsSpace, s[..h], s[h..]);
    assert s[..h] == Repeat('#', h);
    KeptEverything(IsSpace, s[..h]);
  }

  /** The heading's line is its hashes, whitespace, and its text; both ends of the text are visible. */
  ghost predicate IsHeadingOf(line: string, level: nat, text: string) {
    && 1 <= level <= 6 && text != "" && text == Strip(text)
    && exists gap :: IsHeadingWith(Strip(line), level, gap, text)
  }

  predicate IsHeadingWith(s: string, level: nat, gap: string, text: string) {
    gap != "" && AllSpace(gap) && s == Repeat('#', level) + gap + text
  }

  lemma HeadingIs(line: string)
    requires IsHeading(Strip(line))
    ensures var s := Strip(line); IsHeadingOf(line, Hashes(s), Strip(s[Hashes(s)..]))
  {
    var s := Strip(line);
    HeadingText(s, Hashes(s), s[Hashes(s)..], Strip(s[Hashes(s)..]));
  }

  lemma HeadingText(s: string, h: nat, rest: string, text: string)
    requires h < |s| && IsSpace(s[h]) && rest == s[h..] && text == Strip(rest) && forall i :: 0 <= i < h ==> s[i] == '#'
    requires !IsSpace(s[|s| - 1])
    ensures text != "" && text == Strip(text) && exists gap :: IsHeadingWith(s, h, gap, text)
  {
    StrippedRight(rest, s);
    StripTwice(rest);
    HeadingWith(s, h, Indent(rest));
  }

  lemma HeadingWith(s: string, h: nat, n: nat)
    requires h + n <= |s| && n > 0 && n == Indent(s[h..]) && forall i :: 0 <= i < h ==> s[i] == '#'
    ensures IsHeadingWith(s, h, s[h..][..n], s[h..][n..])
  {
    CutInThree(s, h, n);
    assert s[..h] == Repeat('#', h);
  }

  /** The end of a stripped text needs no stripping on its right. */
  lemma StrippedRight(rest: string, s: string)
    requires rest != "" && s != "" && rest[|rest| - 1] == s[|s| - 1] && !IsSpace(s[|s| - 1])
    ensures RStrip(rest) == rest && Strip(rest) == rest[Indent(rest)..] && Strip(rest) != ""
  {
  }

  /** A quote's line is indentation, `>`, at most one space, and its text with any further spaces. */
  ghost predicate IsQuoteOf(line: string, text: string) {
    exists indent, gap :: IsQuotedBy(line, indent, gap, text)
  }

  predicate IsQuotedBy(line: string, indent: string, gap: string, text: string) {
    && AllSpace(indent) && AllSpace(gap) && |gap| <= 1 && (gap == "" ==> text == "" || !IsSpace(text[0]))
    && RStrip(line) == indent + ">" + gap + text
  }

  lemma QuoteIs(line: string)
    requires IsQuote(line)
    ensures IsQuoteOf(line, Unquoted(line))
  {
    var r := RStrip(line);
    var t, n := LStrip(r), Indent(r);
    var m := if |t| > 1 && IsSpace(t[1]) then 2 else 1;
    QuoteParts(r, n, m);
    QuotedBy(line, r[..n], t[1..m], Unquoted(line));
  }

  lemma QuotedBy(line: string, indent: string, gap: string, text: string)
    requires IsQuotedBy(line, indent, gap, text)
    ensures IsQuoteOf(line, text)
  {
  }

  lemma QuoteParts(r: string, n: nat, m: nat)
    requires n + m <= |r| && m >= 1 && r[n] == '>'
    ensures r == r[..n] + ">" + r[n..][1..m] + r[n..][m..]
  {
  }

  lemma QuoteInk(line: string)
    requires IsQuote(line)
    ensures Ink(line) == ">" + Ink(Unquoted(line))
  {
    var t := LStrip(RStrip(line));
    KeptStrip(IsSpace, line);
    QuoteTail(t, Unquoted(line));
  }

  lemma QuoteTail(t: string, u: string)
    requires t != "" && t[0] == '>'
    requires u == t[1..] || (|t| > 1 && IsSpace(t[1]) && u == t[2..])
    ensures Ink(t) == ">" + Ink(u)
  {
    var rest := t[1..];
    assert Ink(t) == ">" + Ink(rest);
    if u != rest {
      assert rest[0] == t[1] && rest[1..] == u;
      assert Ink(rest) == "" + Ink(u);
    }
  }

  /** What is between the outer pipes of a row. */
  function Inner(line: string): string { DropLastPipe(DropFirstPipe(Strip(line))) }

  /** `raw` is the row's inside cut at every pipe, and each cell its part stripped. */
  predicate CutInto(line: string, raw: seq<string>, cells: seq<string>) {
    && raw != [] && Join(raw, ['|']) == Inner(line) && |cells| == |raw|
    && forall k :: 0 <= k < |raw| ==> '|' !in raw[k] && cells[k] == Strip(raw[k])
  }

  ghost predicate RowIs(line: string, cells: seq<string>) { exists raw :: CutInto(line, raw, cells) }

  /** The cells of a row are those parts, and nothing else is. */
  lemma RowIsSplit(line: string, cells: seq<string>)
    ensures RowIs(line, cells) <==> cells == SplitRow(line)
  {
    if cells == SplitRow(line) {
      JoinSplit(Inner(line), '|');
      assert CutInto(line, Split(Inner(line), '|'), cells);
    }
    if RowIs(line, cells) {
      var raw :| CutInto(line, raw, cells);
      SplitJoin(raw, '|');
    }
  }

  lemma RowKeepsInk(line: string)
    ensures RowInk(SplitRow(line)) == Kept(SpaceOrPipe, line)
  {
    var s := Strip(line);
    var raw := Split(Inner(line), '|');
    KeptEach(SpaceOrPipe, SplitRow(line), raw) by { CellsKeepInk(raw); }
    KeptSplit(Inner(line));
    PipesKeepInk(s);
    KeptStrip(SpaceOrPipe, line);
  }

  lemma CellsKeepInk(raw: seq<string>)
    ensures forall k :: 0 <= k < |raw| ==> Kept(SpaceOrPipe, Strip(raw[k])) == Kept(SpaceOrPipe, raw[k])
  {
    forall k | 0 <= k < |raw| ensures Kept(SpaceOrPipe, Strip(raw[k])) == Kept(SpaceOrPipe, raw[k]) {
      KeptStrip(SpaceOrPipe, raw[k]);
    }
  }

  lemma {:induction false} KeptSplit(s: string)
    ensures RowInk(Split(s, '|')) == Kept(SpaceOrPipe, s)
    decreases |s|
  {
    var k := IndexOf(s, '|');
    if k < |s| {
      KeptSplit(s[k + 1..]);
      assert Split(s, '|')[1..] == Split(s[k + 1..], '|');
      KeptPastPipe(s, k);
    } else {
      assert RowInk([s]) == Kept(SpaceOrPipe, s) + RowInk([s][1..]);
    }
  }

  lemma KeptPastPipe(s: string, k: nat)
    requires k < |s| && s[k] == '|'
    ensures Kept(SpaceOrPipe, s) == Kept(SpaceOrPipe, s[..k]) + Kept(SpaceOrPipe, s[k + 1..])
  {
    assert s == s[..k] + s[k..] && s[k..][1..] == s[k + 1..];
    KeptConcat(SpaceOrPipe, s[..k], s[k..]);
  }

  lemma PipesKeepInk(s: string)
    ensures Kept(SpaceOrPipe, DropLastPipe(DropFirstPipe(s))) == Kept(SpaceOrPipe, s)
  {
    var t := DropFirstPipe(s);
    if t != DropLastPipe(t) {
      assert t == DropLastPipe(t) + "|";
      KeptRight(SpaceOrPipe, DropLastPipe(t), "|");
    }
  }

  /** Joining stripped lines by whitespace loses no ink. */
  lemma JoinInk(lines: seq<string>, strip: string -> string, sep: string)
    requires Ink(sep) == "" && forall k :: 0 <= k < |lines| ==> Ink(strip(lines[k])) == Ink(lines[k])
    ensures Ink(Join(Mapped(strip, lines), sep)) == InkAll(lines)
  {
    KeptJoin(IsSpace, Mapped(strip, lines), sep);
    KeptEach(IsSpace, Mapped(strip, lines), lines);
  }

  lemma ParaInk(lines: seq<string>, sep: string)
    requires sep == " "
    ensures Ink(Join(Mapped(Strip, lines), sep)) == InkAll(lines)
  {
    KeptNothing(IsSpace, sep);
    forall k | 0 <= k < |lines| ensures Ink(Strip(lines[k])) == Ink(lines[k]) { KeptStrip(IsSpace, lines[k]); }
    JoinInk(lines, Strip, sep);
  }

  // ---------------------------------------------------------------- lists

  lemma ItemInk(line: string)
    requires IsItem(line)
    ensures Ink(line) == ItemOf(line).marker + Ink(ItemOf(line).text)
  {
    var s := RStrip(line);
    KeptRStrip(IsSpace, line);
    KeptLStrip(IsSpace, s);
    MarkedInk(LStrip(s));
    KeptStrip(IsSpace, AfterMarker(s));
  }

  /** A marker is all ink. */
  lemma MarkedInk(l: string)
    requires MarkerLength(l) > 0
    ensures Ink(l) == l[..MarkerLength(l)] + Ink(l[MarkerLength(l)..])
  {
    var m := MarkerLength(l);
    MarkerInk(l);
    KeptEverything(IsSpace, l[..m]);
    KeptConcat(IsSpace, l[..m], l[m..]);
    assert l == l[..m] + l[m..];
  }

  lemma InkItemsSnoc(items: seq<ListItem>, last: ListItem)
    ensures InkItems(items + [last]) == InkItems(items) + last.marker + Ink(last.text)
  {
    assert (items + [last])[..|items|] == items;
  }

  lemma ExtendInk(items: seq<ListItem>, text: string)
    requires items != []
    ensures InkItems(Extend(items, text)) == InkItems(items) + Ink(text)
  {
    var front, last := items[..|items| - 1], items[|items| - 1];
    var longer := last.(text := last.text + " " + text);
    KeptWord(last.text, text);
    InkItemsSnoc(front, longer);
    assert items == front + [last];
    InkItemsSnoc(front, last);
    Concat(InkItems(front) + last.marker, Ink(last.text), Ink(text));
  }

  lemma KeptWord(a: string, b: string)
    ensures Ink(a + " " + b) == Ink(a) + Ink(b)
  {
    KeptConcat(IsSpace, a + " ", b);
    KeptConcat(IsSpace, a, " ");
    KeptNothing(IsSpace, " ");
  }

  lemma AddLineLists(items: seq<ListItem>, line: string)
    requires items != [] || IsItem(line)
    ensures AddLine(items, line) != []
  {
  }

  lemma CarryOnInk(items: seq<ListItem>, line: string)
    requires items != []
    ensures InkItems(Extend(items, Strip(line))) == InkItems(items) + Ink(line)
  {
    ExtendInk(items, Strip(line));
    KeptStrip(IsSpace, line);
  }

  lemma StartInk(items: seq<ListItem>, line: string)
    requires IsItem(line)
    ensures InkItems(items + [ItemOf(line)]) == InkItems(items) + Ink(line)
  {
    ItemInk(line);
    InkItemsSnoc(items, ItemOf(line));
  }

  lemma AddLineInk(items: seq<ListItem>, line: string)
    requires items != [] || IsItem(line)
    ensures InkItems(AddLine(items, line)) == InkItems(items) + Ink(line)
  {
    if IsItem(line) { StartInk(items, line); } else { CarryOnInk(items, line); }
  }

  lemma ItemsNext(lines: seq<string>, i: nat, j: nat)
    requires i <= j < |lines|
    ensures Items(lines, i, j + 1) == AddLine(Items(lines, i, j), lines[j])
  {
  }

  /** If each step adds a line's ink, all steps add the ink of all lines. */
  lemma {:induction false} InkAddsUp(ink: nat -> string, lines: seq<string>, i: nat, j: nat)
    requires i <= j <= |lines| && ink(i) == ""
    requires forall k: nat :: i <= k < j ==> ink(k + 1) == ink(k) + Ink(lines[k])
    ensures ink(j) == InkAll(lines[i..j])
    decreases j
  {
    if i < j {
      InkAddsUp(ink, lines, i, j - 1);
      assert ink(j - 1 + 1) == ink(j - 1) + Ink(lines[j - 1]);
      KeptAllSnoc(IsSpace, lines[i..j - 1], lines[j - 1]);
      assert lines[i..j] == lines[i..j - 1] + [lines[j - 1]];
    }
  }

  function ItemsInk(lines: seq<string>, i: nat): nat -> string {
    (k: nat) => if i <= k <= |lines| then InkItems(Items(lines, i, k)) else ""
  }

  lemma ItemsInkNext(lines: seq<string>, i: nat, k: nat)
    requires i <= k < |lines|
    ensures ItemsInk(lines, i)(k + 1) == InkItems(AddLine(Items(lines, i, k), lines[k]))
  {
    ItemsNext(lines, i, k);
  }

  lemma ListStep(lines: seq<string>, i: nat, k: nat)
    requires i <= k < |lines| && (Items(lines, i, k) != [] || IsItem(lines[k]))
    ensures ItemsInk(lines, i)(k + 1) == ItemsInk(lines, i)(k) + Ink(lines[k])
  {
    ItemsInkNext(lines, i, k);
    AddLineInk(Items(lines, i, k), lines[k]);
  }

  // ---------------------------------------------------------------- where each entry of a list comes from

  /** The lines from `i` to `j` that start an item. */
  function Starts(lines: seq<string>, i: nat, j: nat): (starts: seq<nat>)
    requires i <= j <= |lines|
    ensures forall k :: 0 <= k < |starts| ==> i <= starts[k] < j
    decreases j
  {
    if i == j then [] else Starts(lines, i, j - 1) + StartAt(lines, j - 1)
  }

  function StartAt(lines: seq<string>, k: nat): seq<nat>
    requires k < |lines|
  {
    if IsItem(lines[k]) then [k] else []
  }

  function StartOr(starts: seq<nat>, k: nat, end: nat): nat { if k < |starts| then starts[k] else end }

  /** What an item line gives its entry: indentation for the depth, the marker, and the first of the text. */
  predicate IsFirstLine(line: string, depth: nat, marker: string, text: string) {
    var r := RStrip(line);
    && depth == (if Indent(r) >= 2 then 1 else 0) && marker == MarkerOf(r)
    && r == r[..Indent(r)] + marker + AfterMarker(r) && text == Strip(AfterMarker(r))
  }

  /** An entry's texts: that of its item line, then its other lines, stripped. */
  function EntryTexts(lines: seq<string>, from: nat, to: nat): seq<string>
    requires from < to <= |lines|
  {
    [Strip(AfterMarker(RStrip(lines[from])))] + Mapped(Strip, lines[from + 1..to])
  }

  /** An entry is made of its own lines: the marker and depth of the first, the texts of all joined by one space. */
  predicate IsEntry(lines: seq<string>, item: ListItem, from: nat, to: nat) {
    && from < to <= |lines| && IsFirstLine(lines[from], item.depth, item.marker, EntryTexts(lines, from, to)[0])
    && item.text == Join(EntryTexts(lines, from, to), " ")
    && item.marker + Ink(item.text) == InkAll(lines[from..to])
  }

  /** Each entry runs from its item line up to the next one. */
  predicate EntriesFrom(lines: seq<string>, items: seq<ListItem>, starts: seq<nat>, end: nat) {
    EntriesBy(EntryOf(lines), items, starts, end)
  }

  function EntryOf(lines: seq<string>): (ListItem, nat, nat) -> bool {
    (item: ListItem, from: nat, to: nat) => IsEntry(lines, item, from, to)
  }

  predicate EntriesBy(entry: (ListItem, nat, nat) -> bool, items: seq<ListItem>, starts: seq<nat>, end: nat) {
    && |items| == |starts|
    && forall k :: 0 <= k < |items| ==> entry(items[k], starts[k], StartOr(starts, k + 1, end))
  }

  lemma FirstLineIs(line: string)
    requires IsItem(line)
    ensures var item := ItemOf(line); IsFirstLine(line, item.depth, item.marker, item.text)
  {
    CutInThree(RStrip(line), Indent(RStrip(line)), MarkerLength(LStrip(RStrip(line))));
  }

  lemma OneLineEntry(lines: seq<string>, j: nat)
    requires j < |lines| && IsItem(lines[j])
    ensures IsEntry(lines, ItemOf(lines[j]), j, j + 1)
  {
    FirstLineIs(lines[j]);
    assert lines[j + 1..j + 1] == [];
    assert EntryTexts(lines, j, j + 1) == [ItemOf(lines[j]).text];
    ItemInk(lines[j]);
    InkOfOne(lines, j);
  }

  lemma NewEntry(lines: seq<string>, items: seq<ListItem>, starts: seq<nat>, j: nat)
    requires j < |lines| && EntriesFrom(lines, items, starts, j) && IsItem(lines[j])
    ensures EntriesFrom(lines, items + [ItemOf(lines[j])], starts + [j], j + 1)
  {
    OneLineEntry(lines, j);
    MoreEntries(EntryOf(lines), items, starts, ItemOf(lines[j]), j, j + 1);
  }

  lemma MoreEntries(
    entry: (ListItem, nat, nat) -> bool, items: seq<ListItem>, starts: seq<nat>, item: ListItem, j: nat, end: nat)
    requires EntriesBy(entry, items, starts, j) && entry(item, j, end)
    ensures EntriesBy(entry, items + [item], starts + [j], end)
  {
    var all, more := items + [item], starts + [j];
    forall k | 0 <= k < |all| ensures entry(all[k], more[k], StartOr(more, k + 1, end)) {
      if k < |items| { assert StartOr(more, k + 1, end) == StartOr(starts, k + 1, j); }
    }
  }

  lemma InkOfOne(lines: seq<string>, j: nat)
    requires j < |lines|
    ensures InkAll(lines[j..j + 1]) == Ink(lines[j])
  {
    assert lines[j..j + 1] == [] + [lines[j]];
    KeptAllSnoc(IsSpace, [], lines[j]);
    assert InkAll([]) + Ink(lines[j]) == Ink(lines[j]);
  }

  lemma InkOfMore(lines: seq<string>, from: nat, j: nat)
    requires from <= j < |lines|
    ensures InkAll(lines[from..j + 1]) == InkAll(lines[from..j]) + Ink(lines[j])
  {
    assert lines[from..j + 1] == lines[from..j] + [lines[j]];
    KeptAllSnoc(IsSpace, lines[from..j], lines[j]);
  }

  lemma LongerEntry(lines: seq<string>, items: seq<ListItem>, starts: seq<nat>, j: nat)
    requires j < |lines| && EntriesFrom(lines, items, starts, j) && items != []
    ensures EntriesFrom(lines, Extend(items, Strip(lines[j])), starts, j + 1)
  {
    var n := |items| - 1;
    assert EntryOf(lines)(items[n], starts[n], StartOr(starts, n + 1, j));
    EntryGrows(lines, items[n], starts[n], j);
    LastGrows(EntryOf(lines), items, starts, items[n].(text := items[n].text + " " + Strip(lines[j])), j, j + 1);
  }

  lemma LastGrows(
    entry: (ListItem, nat, nat) -> bool, items: seq<ListItem>, starts: seq<nat>, last: ListItem, j: nat, end: nat)
    requires items != [] && EntriesBy(entry, items, starts, j) && entry(last, starts[|items| - 1], end)
    ensures EntriesBy(entry, items[..|items| - 1] + [last], starts, end)
  {
    var longer := items[..|items| - 1] + [last];
    forall k | 0 <= k < |longer| ensures entry(longer[k], starts[k], StartOr(starts, k + 1, end)) {
      if k < |items| - 1 { assert StartOr(starts, k + 1, end) == StartOr(starts, k + 1, j); }
    }
  }

  lemma EntryGrows(lines: seq<string>, item: ListItem, from: nat, j: nat)
    requires j < |lines| && IsEntry(lines, item, from, j)
    ensures IsEntry(lines, item.(text := item.text + " " + Strip(lines[j])), from, j + 1)
  {
    TextsGrow(lines, from, j);
    JoinSnoc(EntryTexts(lines, from, j), Strip(lines[j]), " ");
    KeptWord(item.text, Strip(lines[j]));
    KeptStrip(IsSpace, lines[j]);
    InkOfMore(lines, from, j);
    Concat(item.marker, Ink(item.text), Ink(lines[j]));
  }

  lemma TextsGrow(lines: seq<string>, from: nat, j: nat)
    requires from < j < |lines|
    ensures EntryTexts(lines, from, j + 1) == EntryTexts(lines, from, j) + [Strip(lines[j])]
  {
    OneMoreLine(lines, from + 1, j);
    MappedSnoc(Strip, lines[from + 1..j], lines[j]);
    Concat([Strip(AfterMarker(RStrip(lines[from])))], Mapped(Strip, lines[from + 1..j]), [Strip(lines[j])]);
  }

  lemma OneMoreLine(lines: seq<string>, from: nat, j: nat)
    requires from <= j < |lines|
    ensures lines[from..j + 1] == lines[from..j] + [lines[j]]
  {
  }

  lemma NextEntry(lines: seq<string>, items: seq<ListItem>, starts: seq<nat>, j: nat)
    requires j < |lines| && EntriesFrom(lines, items, starts, j) && (items != [] || IsItem(lines[j]))
    ensures EntriesFrom(lines, AddLine(items, lines[j]), starts + StartAt(lines, j), j + 1)
  {
    if IsItem(lines[j]) {
      assert AddLine(items, lines[j]) == items + [ItemOf(lines[j])] && StartAt(lines, j) == [j];
      NewEntry(lines, items, starts, j);
    } else {
      assert AddLine(items, lines[j]) == Extend(items, Strip(lines[j])) && starts + StartAt(lines, j) == starts;
      LongerEntry(lines, items, starts, j);
    }
  }

  lemma StartsNext(lines: seq<string>, i: nat, j: nat)
    requires i <= j < |lines|
    ensures Starts(lines, i, j + 1) == Starts(lines, i, j) + StartAt(lines, j)
    ensures Items(lines, i, j + 1) == AddLine(Items(lines, i, j), lines[j])
  {
    ItemsNext(lines, i, j);
  }

  /** The entries made of lines up to `k`. */
  predicate Entered(lines: seq<string>, items: seq<ListItem>, starts: seq<nat>, k: nat) {
    items != [] && k <= |lines| && EntriesFrom(lines, items, starts, k)
  }

  function EntriesUpTo(lines: seq<string>, i: nat): nat -> bool {
    (k: nat) => i < k <= |lines| && Entered(lines, Items(lines, i, k), Starts(lines, i, k), k)
  }

  lemma EnterNext(lines: seq<string>, items: seq<ListItem>, starts: seq<nat>, k: nat)
    requires k < |lines| && Entered(lines, items, starts, k)
    ensures Entered(lines, AddLine(items, lines[k]), starts + StartAt(lines, k), k + 1)
  {
    NextEntry(lines, items, starts, k);
    AddLineLists(items, lines[k]);
  }

  lemma EnterFirst(lines: seq<string>, k: nat)
    requires k < |lines| && IsItem(lines[k])
    ensures Entered(lines, AddLine([], lines[k]), [] + StartAt(lines, k), k + 1)
  {
    NextEntry(lines, [], [], k);
    AddLineLists([], lines[k]);
  }

  lemma FirstEntry(lines: seq<string>, i: nat)
    requires i < |lines| && IsItem(lines[i])
    ensures EntriesUpTo(lines, i)(i + 1)
  {
    StartsNext(lines, i, i);
    EnterFirst(lines, i);
  }

  lemma EntryStep(lines: seq<string>, i: nat, k: nat)
    requires k < |lines| && EntriesUpTo(lines, i)(k)
    ensures EntriesUpTo(lines, i)(k + 1)
  {
    var items, starts := Items(lines, i, k), Starts(lines, i, k);
    EnterNext(lines, items, starts, k);
    EntriesAt(lines, i, k);
  }

  lemma EntriesAt(lines: seq<string>, i: nat, k: nat)
    requires i <= k < |lines|
    requires Entered(lines, AddLine(Items(lines, i, k), lines[k]), Starts(lines, i, k) + StartAt(lines, k), k + 1)
    ensures EntriesUpTo(lines, i)(k + 1)
  {
    StartsNext(lines, i, k);
  }

  lemma {:induction false} Climb(p: nat -> bool, i: nat, j: nat)
    requires i <= j && p(i) && forall k: nat :: i <= k < j && p(k) ==> p(k + 1)
    ensures p(j)
    decreases j
  {
    if i < j {
      Climb(p, i, j - 1);
      assert p(j - 1 + 1);
    }
  }

  lemma EntriesUp(lines: seq<string>, i: nat, j: nat)
    requires j <= |lines| && EntriesUpTo(lines, i)(j)
    ensures i < j && Items(lines, i, j) != [] && EntriesFrom(lines, Items(lines, i, j), Starts(lines, i, j), j)
  {
  }

  /** No ink crosses from one entry of a list into another. */
  lemma EntriesAre(lines: seq<string>, i: nat, j: nat)
    requires i < j <= |lines| && IsItem(lines[i])
    ensures Items(lines, i, j) != [] && EntriesFrom(lines, Items(lines, i, j), Starts(lines, i, j), j)
  {
    FirstEntry(lines, i);
    forall k: nat | i < k < j && EntriesUpTo(lines, i)(k) ensures EntriesUpTo(lines, i)(k + 1) {
      EntryStep(lines, i, k);
    }
    Climb(EntriesUpTo(lines, i), i + 1, j);
    EntriesUp(lines, i, j);
  }

  lemma ListInk(lines: seq<string>, i: nat, j: nat)
    requires i < j <= |lines| && IsItem(lines[i])
    ensures Items(lines, i, j) != [] && InkItems(Items(lines, i, j)) == InkAll(lines[i..j])
  {
    EntriesAre(lines, i, j);
    forall k: nat | i <= k < j ensures ItemsInk(lines, i)(k + 1) == ItemsInk(lines, i)(k) + Ink(lines[k]) {
      if k > i { EntriesAre(lines, i, k); }
      ListStep(lines, i, k);
    }
    InkAddsUp(ItemsInk(lines, i), lines, i, j);
  }

  // ---------------------------------------------------------------- the main result

  /** A code block is the slice between its fences, verbatim; only at the end of the file is there no second fence. */
  predicate CodeFaithful(lines: seq<string>, from: nat, to: nat, body: seq<string>) {
    && from + 2 <= to <= |lines| + 1 && IsFence(lines[from]) && body == lines[from + 1..to - 1]
    && (forall k :: 0 <= k < |body| ==> !IsFence(body[k]))
    && (to <= |lines| ==> IsFence(lines[to - 1]))
  }

  /** A table's header and rows are the cells of their lines, and keep their ink but for the pipes. */
  ghost predicate TableFaithful(lines: seq<string>, from: nat, to: nat, header: seq<string>, rows: seq<seq<string>>) {
    && to == from + 2 + |rows| <= |lines| && IsSep(lines[from + 1])
    && RowsBy(RowFaithful, lines, from, header, rows)
  }

  /** Header and rows go with their lines. */
  ghost predicate RowsBy(good: (string, seq<string>) -> bool, lines: seq<string>, from: nat, header: seq<string>,
                         rows: seq<seq<string>>)
    requires from + 2 + |rows| <= |lines|
  {
    && good(lines[from], header)
    && forall k :: 0 <= k < |rows| ==> good(lines[from + 2 + k], rows[k])
  }

  ghost predicate RowFaithful(line: string, cells: seq<string>) {
    RowIs(line, cells) && RowInk(cells) == Kept(SpaceOrPipe, line)
  }

  ghost predicate QuoteLineFaithful(line: string, text: string) {
    IsQuoteOf(line, text) && Ink(line) == ">" + Ink(text)
  }

  ghost predicate QuoteFaithful(lines: seq<string>, from: nat, to: nat, body: seq<string>) {
    && to == from + |body| <= |lines|
    && forall k :: 0 <= k < |body| ==> QuoteLineFaithful(lines[from + k], body[k])
  }

  predicate ListFaithful(lines: seq<string>, from: nat, to: nat, ordered: bool, items: seq<ListItem>) {
    && from < to <= |lines| && items != [] && EntriesFrom(lines, items, Starts(lines, from, to), to)
    && InkItems(items) == InkAll(lines[from..to])
    && Ink(lines[from]) != "" && ordered == IsDigit(Ink(lines[from])[0])
  }

  predicate ParaFaithful(lines: seq<string>, from: nat, to: nat, text: string) {
    && from < to <= |lines| && text == Join(Mapped(Strip, lines[from..to]), " ")
    && Ink(text) == InkAll(lines[from..to])
  }

  /** The block says exactly what its lines say. */
  ghost predicate Faithful(lines: seq<string>, from: nat, to: nat, block: Block)
    requires from < |lines|
  {
    match block
    case Code(body) => CodeFaithful(lines, from, to, body)
    case Rule => to == from + 1 && IsRule(Strip(lines[from]))
    case Heading(level, text) =>
      to == from + 1 && IsHeadingOf(lines[from], level, text) && Ink(lines[from]) == Repeat('#', level) + Ink(text)
    case Table(header, rows) => TableFaithful(lines, from, to, header, rows)
    case Quote(body) => QuoteFaithful(lines, from, to, body)
    case List(ordered, items) => ListFaithful(lines, from, to, ordered, items)
    case Para(text) => ParaFaithful(lines, from, to, text)
  }

  lemma FenceAt(lines: seq<string>, i: nat, k: nat)
    requires i < |lines| && i < k <= Until(AtFence(lines), i + 1, |lines|) && k < |lines|
    ensures IsFence(lines[k]) <==> k == Until(AtFence(lines), i + 1, |lines|)
  {
    assert AtFence(lines)(k) <==> IsFence(lines[k]);
  }

  lemma NoFenceIn(lines: seq<string>, i: nat, j: nat, body: seq<string>)
    requires i < |lines| && j == Until(AtFence(lines), i + 1, |lines|) && body == lines[i + 1..j]
    ensures forall k :: 0 <= k < |body| ==> !IsFence(body[k])
  {
    forall k | 0 <= k < |body| ensures !IsFence(body[k]) { FenceAt(lines, i, i + 1 + k); }
  }

  lemma CodeIsFaithful(lines: seq<string>, i: nat)
    requires i < |lines| && IsFence(lines[i])
    ensures var t := CodeTurn(lines, i); CodeFaithful(lines, i, t.next, t.block.value.lines)
  {
    var j := Until(AtFence(lines), i + 1, |lines|);
    if j < |lines| { FenceAt(lines, i, j); }
    NoFenceIn(lines, i, j, lines[i + 1..j]);
  }

  lemma RowIsFaithful(line: string)
    ensures RowFaithful(line, SplitRow(line))
  {
    RowIsSplit(line, SplitRow(line));
    RowKeepsInk(line);
  }

  lemma HeaderIsFaithful(line: string)
    ensures RowFaithful(line, SplitRow(Strip(line)))
  {
    StripTwice(line);
    RowIsFaithful(line);
  }

  lemma StripTwice(line: string)
    ensures Strip(Strip(line)) == Strip(line)
  {
  }

  lemma TableParts(lines: seq<string>, i: nat)
    requires i < |lines| && StartsTable(lines, i)
    ensures var t := TableTurn(lines, i);
      && i + 2 <= t.next <= |lines| && IsSep(lines[i + 1])
      && t.block == Some(Table(SplitRow(Strip(lines[i])), Mapped(SplitRow, lines[i + 2..t.next])))
  {
  }

  ghost predicate Splits(good: (string, seq<string>) -> bool, split: string -> seq<string>) {
    forall line: string :: good(line, split(line))
  }

  lemma RowsAre(good: (string, seq<string>) -> bool, split: string -> seq<string>, lines: seq<string>, i: nat, j: nat,
                header: seq<string>, rows: seq<seq<string>>)
    requires Splits(good, split) && i + 2 <= j <= |lines| && good(lines[i], header)
    requires rows == Mapped(split, lines[i + 2..j])
    ensures |rows| == j - i - 2 && RowsBy(good, lines, i, header, rows)
  {
    var body := lines[i + 2..j];
    forall k | 0 <= k < |rows| ensures good(lines[i + 2 + k], rows[k]) {
      assert body[k] == lines[i + 2 + k];
      assert good(body[k], split(body[k]));
    }
  }

  lemma TableIsFaithful(lines: seq<string>, i: nat)
    requires i < |lines| && StartsTable(lines, i)
    ensures var t := TableTurn(lines, i);
      TableFaithful(lines, i, t.next, t.block.value.header, t.block.value.rows)
  {
    var t := TableTurn(lines, i);
    TableParts(lines, i);
    HeaderIsFaithful(lines[i]);
    forall line: string ensures RowFaithful(line, SplitRow(line)) { RowIsFaithful(line); }
    RowsAre(RowFaithful, SplitRow, lines, i, t.next, t.block.value.header, t.block.value.rows);
  }

  /** Every line from `from` to `to` goes with what `f` makes of it. */
  lemma EachLine(good: (string, string) -> bool, f: string -> string, lines: seq<string>, from: nat, to: nat)
    requires from <= to <= |lines| && forall k :: from <= k < to ==> good(lines[k], f(lines[k]))
    ensures var body := Mapped(f, lines[from..to]);
      |body| == to - from && forall k :: 0 <= k < |body| ==> good(lines[from + k], body[k])
  {
  }

  lemma QuoteIsFaithful(lines: seq<string>, i: nat)
    requires i < |lines| && IsQuote(lines[i])
    ensures var t := QuoteTurn(lines, i); QuoteFaithful(lines, i, t.next, t.block.value.lines)
  {
    var j := QuoteTurn(lines, i).next;
    forall k | i <= k < j ensures QuoteLineFaithful(lines[k], Unquoted(lines[k])) { QuoteLine(lines, i, k); }
    EachLine(QuoteLineFaithful, Unquoted, lines, i, j);
  }

  lemma QuoteLine(lines: seq<string>, i: nat, k: nat)
    requires i < |lines| && i <= k < Until(AfterQuote(lines), i, |lines|)
    ensures QuoteLineFaithful(lines[k], Unquoted(lines[k]))
  {
    assert !AfterQuote(lines)(k);
    QuoteIs(lines[k]);
    QuoteInk(lines[k]);
  }

  lemma ListIsFaithful(lines: seq<string>, i: nat)
    requires i < |lines| && IsItem(lines[i])
    ensures var t := ListTurn(lines, i);
      ListFaithful(lines, i, t.next, t.block.value.ordered, t.block.value.items)
  {
    ListInk(lines, i, ListTurn(lines, i).next);
    EntriesAre(lines, i, ListTurn(lines, i).next);
    ItemInk(lines[i]);
    MarkerFirst(MarkerOf(RStrip(lines[i])), Ink(ItemOf(lines[i]).text));
  }

  lemma MarkerFirst(a: string, b: string)
    requires a != ""
    ensures a + b != "" && (a + b)[0] == a[0]
  {
  }

  /** A span whose block is faithful to its lines; only an unclosed fence runs past the end. */
  ghost function FaithfulTo(lines: seq<string>): Span -> bool {
    (span: Span) =>
      && span.from < |lines| && Faithful(lines, span.from, span.to, span.block)
      && (span.to > |lines| ==> span.to == |lines| + 1 && span.block == Code(lines[span.from + 1..]))
  }

  ghost predicate TurnFaithful(lines: seq<string>, i: nat, t: Turn) {
    t.block.Some? ==> FaithfulTo(lines)(Span(t.block.value, i, t.next))
  }

  lemma IsFaithfulTurn(lines: seq<string>, i: nat, t: Turn, block: Block)
    requires i < |lines| && t.block == Some(block) && Faithful(lines, i, t.next, block)
    requires t.next > |lines| ==> t.next == |lines| + 1 && block == Code(lines[i + 1..])
    ensures TurnFaithful(lines, i, t)
  {
  }

  lemma CodeTurnIsFaithful(lines: seq<string>, i: nat)
    requires i < |lines| && IsFence(lines[i])
    ensures TurnFaithful(lines, i, CodeTurn(lines, i))
  {
    var t := CodeTurn(lines, i);
    CodeIsFaithful(lines, i);
    if t.next > |lines| { assert lines[i + 1..|lines|] == lines[i + 1..]; }
    IsFaithfulTurn(lines, i, t, Code(t.block.value.lines));
  }

  lemma RuleTurnIsFaithful(lines: seq<string>, i: nat)
    requires i < |lines| && IsRule(Strip(lines[i]))
    ensures TurnFaithful(lines, i, Turn(i + 1, Some(Rule)))
  {
    IsFaithfulTurn(lines, i, Turn(i + 1, Some(Rule)), Rule);
  }

  lemma HeadingTurnIsFaithful(lines: seq<string>, i: nat)
    requires i < |lines| && IsHeading(Strip(lines[i]))
    ensures var s := Strip(lines[i]);
      TurnFaithful(lines, i, Turn(i + 1, Some(Heading(Hashes(s), Strip(s[Hashes(s)..])))))
  {
    var s := Strip(lines[i]);
    var block := Heading(Hashes(s), Strip(s[Hashes(s)..]));
    HeadingIs(lines[i]);
    HeadingInk(lines[i]);
    IsFaithfulTurn(lines, i, Turn(i + 1, Some(block)), block);
  }

  lemma TableTurnIsFaithful(lines: seq<string>, i: nat)
    requires i < |lines| && StartsTable(lines, i)
    ensures TurnFaithful(lines, i, TableTurn(lines, i))
  {
    var t := TableTurn(lines, i);
    TableIsFaithful(lines, i);
    IsFaithfulTurn(lines, i, t, Table(t.block.value.header, t.block.value.rows));
  }

  lemma QuoteTurnIsFaithful(lines: seq<string>, i: nat)
    requires i < |lines| && IsQuote(lines[i])
    ensures TurnFaithful(lines, i, QuoteTurn(lines, i))
  {
    var t := QuoteTurn(lines, i);
    QuoteIsFaithful(lines, i);
    IsFaithfulTurn(lines, i, t, Quote(t.block.value.lines));
  }

  lemma ListTurnIsFaithful(lines: seq<string>, i: nat)
    requires i < |lines| && IsItem(lines[i])
    ensures TurnFaithful(lines, i, ListTurn(lines, i))
  {
    var t := ListTurn(lines, i);
    ListIsFaithful(lines, i);
    IsFaithfulTurn(lines, i, t, List(t.block.value.ordered, t.block.value.items));
  }

  lemma ParaTurnIsFaithful(lines: seq<string>, i: nat)
    requires i < |lines|
    ensures TurnFaithful(lines, i, ParaTurn(lines, i))
  {
    var t := ParaTurn(lines, i);
    if t.block.Some? {
      ParaInk(lines[i..t.next], " ");
      IsFaithfulTurn(lines, i, t, Para(t.block.value.text));
    }
  }

  lemma TurnIsFaithful(lines: seq<string>, i: nat)
    requires i < |lines|
    ensures TurnFaithful(lines, i, TakeTurn(lines, i))
  {
    var s := Strip(lines[i]);
    if s == "" {
    } else if IsFence(lines[i]) {
      CodeTurnIsFaithful(lines, i);
    } else if IsRule(s) {
      RuleTurnIsFaithful(lines, i);
    } else if IsHeading(s) {
      HeadingTurnIsFaithful(lines, i);
    } else if StartsTable(lines, i) {
      TableTurnIsFaithful(lines, i);
    } else if IsQuote(lines[i]) {
      QuoteTurnIsFaithful(lines, i);
    } else if IsItem(lines[i]) {
      ListTurnIsFaithful(lines, i);
    } else {
      ParaTurnIsFaithful(lines, i);
    }
  }

  lemma {:induction false} SpansAreTurns(turn: nat -> Turn, n: nat, i: nat, m: nat)
    requires m < |ParseFrom(turn, n, i).spans|
    ensures var span := ParseFrom(turn, n, i).spans[m];
      span.from < n && turn(span.from) == Turn(span.to, Some(span.block))
    decreases n - i
  {
    var t := turn(i);
    if m >= |SpanOf(t, i)| { SpansAreTurns(turn, n, t.next, m - |SpanOf(t, i)|); }
  }

  /** Every block of every document is faithful to its lines. */
  lemma BlocksAreFaithful(lines: seq<string>, m: nat)
    requires m < |Parsed(lines).spans|
    ensures FaithfulTo(lines)(Parsed(lines).spans[m])
  {
    SpansAreTurns(Turns(lines), |lines|, 0, m);
    var span := Parsed(lines).spans[m];
    TurnIsFaithful(lines, span.from);
    assert span == Span(span.block, span.from, span.to);
  }
}
