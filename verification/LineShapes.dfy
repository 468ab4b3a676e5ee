/**
  What kind of block a line of Markdown starts, said by what the line looks like and without the
  tests of the block parser of tools/md-to-pdf.py, which are proved to come to the same.
 */
module LineShapes {
  import opened Options
  import opened Text
  import opened MdLines
  import opened Blocks
  import HeadingScan

  // ---------------------------------------------------------------- shapes

  /** Text without whitespace at either end. */
  predicate IsInk(s: string) { s != "" && !IsSpace(s[0]) && !IsSpace(s[|s| - 1]) }

  predicate IsBullet(m: string) { m == "-" || m == "*" || m == "+" }

  /** One or more digits, and a full stop or a closing parenthesis. */
  predicate IsNumber(m: string) {
    && |m| >= 2 && (m[|m| - 1] == '.' || m[|m| - 1] == ')')
    && forall i :: 0 <= i < |m| - 1 ==> m[i] in "0123456789"
  }

  predicate IsMarker(m: string) { IsBullet(m) || IsNumber(m) }

  /** Indentation, a list marker, whitespace, and anything. */
  predicate IsMarked(s: string, indent: string, marker: string, gap: string, rest: string) {
    && s == indent + marker + gap + rest
    && AllSpace(indent) && IsMarker(marker) && gap != "" && AllSpace(gap)
  }

  ghost predicate MarkedLine(s: string) {
    exists indent, marker, gap, rest :: IsMarked(s, indent, marker, gap, rest)
  }

  /** A list item: up to its last visible character, it is marked and has a text. */
  predicate IsItemWith(line: string, indent: string, marker: string, gap: string, text: string) {
    IsMarked(RStrip(line), indent, marker, gap, text) && IsInk(text)
  }

  ghost predicate ItemLine(line: string) {
    exists indent, marker, gap, text :: IsItemWith(line, indent, marker, gap, text)
  }

  /** What a rule looks like: the same mark again and again, whitespace after each. */
  function RuleText(mark: char, gaps: seq<string>): string {
    if gaps == [] then "" else [mark] + gaps[0] + RuleText(mark, gaps[1..])
  }

  predicate IsRuleWith(s: string, mark: char, gaps: seq<string>) {
    |gaps| >= 3 && (forall k :: 0 <= k < |gaps| ==> AllSpace(gaps[k])) && s == RuleText(mark, gaps)
  }

  ghost predicate RuleOf(s: string, mark: char) { exists gaps :: IsRuleWith(s, mark, gaps) }

  ghost predicate RuleLine(line: string) {
    RuleOf(Strip(line), '*') || RuleOf(Strip(line), '-') || RuleOf(Strip(line), '_')
  }

  /** Hashes, whitespace, and anything. */
  predicate IsHashed(s: string, level: nat, gap: string, rest: string) {
    1 <= level <= 6 && gap != "" && AllSpace(gap) && s == Repeat('#', level) + gap + rest
  }

  ghost predicate HashedText(s: string) { exists level, gap, rest :: IsHashed(s, level, gap, rest) }

  /** A heading of this level and text. */
  ghost predicate HeadingLine(line: string, level: nat, text: string) {
    IsInk(text) && exists gap :: IsHashed(Strip(line), level, gap, text)
  }

  /** What a table's separator is made of. */
  predicate OnlySep(s: string) { forall i :: 0 <= i < |s| ==> s[i] in ":|-" || IsSpace(s[i]) }

  predicate IsSepWith(line: string, first: string, before: string, after: string, last: string) {
    && Strip(line) == first + before + "-" + after + last && OnlySep(before) && OnlySep(after)
    && (first == "" || first == "|") && (last == "" || last == "|") && '|' in line
  }

  ghost predicate SepLine(line: string) {
    exists first, before, after, last :: IsSepWith(line, first, before, after, last)
  }

  ghost predicate FenceLine(line: string) { exists rest :: Strip(line) == "```" + rest }

  ghost predicate QuoteLine(line: string) { exists rest :: Strip(line) == ">" + rest }

  ghost predicate TableStart(lines: seq<string>, i: nat)
    requires i < |lines|
  {
    '|' in lines[i] && i + 1 < |lines| && SepLine(lines[i + 1])
  }

  // ---------------------------------------------------------------- list markers

  lemma DigitIs(c: char)
    ensures IsDigit(c) <==> c in "0123456789"
  {
  }

  lemma NumberLength(marker: string, rest: string)
    requires IsNumber(marker)
    ensures MarkerLength(marker + rest) == |marker|
  {
    var s, n := marker + rest, |marker| - 1;
    forall i | 0 <= i < n ensures IsDigit(s[i]) { DigitIs(marker[i]); }
    DigitsIs(s, n);
  }

  lemma MarkerLengthIs(marker: string, rest: string)
    requires IsMarker(marker)
    ensures MarkerLength(marker + rest) == |marker| && !IsSpace(marker[0])
  {
    if IsNumber(marker) {
      NumberLength(marker, rest);
      DigitIs(marker[0]);
    } else {
      assert (marker + rest)[0] == marker[0];
    }
  }

  /** A marked line is read as it is written. */
  lemma MarkedReads(s: string, indent: string, marker: string, gap: string, rest: string)
    requires IsMarked(s, indent, marker, gap, rest)
    ensures HasMarker(s) && Indent(s) == |indent| && MarkerOf(s) == marker && AfterMarker(s) == gap + rest
  {
    var tail := gap + rest;
    MarkerLengthIs(marker, tail);
    MarkedPieces(s, indent, marker, gap, rest);
    IndentIs(s, |indent|);
    Cut(marker, tail);
    Cut(gap, rest);
  }

  lemma MarkedPieces(s: string, indent: string, marker: string, gap: string, rest: string)
    requires s == indent + marker + gap + rest && marker != ""
    ensures |indent| < |s| && s[|indent|] == marker[0] && s[|indent|..] == marker + (gap + rest)
    ensures forall i :: 0 <= i < |indent| ==> s[i] == indent[i]
  {
  }

  lemma MarkerLooks(l: string)
    requires MarkerLength(l) > 0
    ensures IsMarker(l[..MarkerLength(l)])
  {
    if l[0] in "-*+" {
      assert l[..1] == [l[0]];
    } else {
      var m := l[..MarkerLength(l)];
      forall i | 0 <= i < |m| - 1 ensures m[i] in "0123456789" { DigitIs(l[i]); }
    }
  }

  lemma MarkedParts(s: string, n: nat, m: nat, g: nat)
    requires n + m + g <= |s|
    ensures var a := s[n..][m..]; s == s[..n] + s[n..][..m] + a[..g] + a[g..]
  {
  }

  lemma GapThere(a: string)
    requires a != "" && IsSpace(a[0])
    ensures a[..Indent(a)] != "" && AllSpace(a[..Indent(a)])
  {
  }

  lemma MarkedLooks(s: string)
    requires HasMarker(s)
    ensures var a := AfterMarker(s);
      IsMarked(s, s[..Indent(s)], MarkerOf(s), a[..Indent(a)], a[Indent(a)..])
  {
    MarkerLooks(LStrip(s));
    GapThere(AfterMarker(s));
    MarkedParts(s, Indent(s), MarkerLength(LStrip(s)), Indent(AfterMarker(s)));
  }

  /** `^(\s*)([-*+]|\d+[.)])\s+` */
  lemma HasMarkerIff(s: string)
    ensures HasMarker(s) <==> MarkedLine(s)
  {
    if HasMarker(s) { MarkedLooks(s); }
    if MarkedLine(s) {
      var indent, marker, gap, rest :| IsMarked(s, indent, marker, gap, rest);
      MarkedReads(s, indent, marker, gap, rest);
    }
  }

  // ---------------------------------------------------------------- stripping

  /** `text` with whitespace around it, and none of its own at either end. */
  predicate IsStrippedOf(s: string, before: string, text: string, after: string) {
    s == before + text + after && AllSpace(before) && AllSpace(after) && (text == "" || IsInk(text))
  }

  lemma {:induction false} RStripIs(s: string, n: nat)
    requires n <= |s| && AllSpace(s[n..]) && (n == 0 || !IsSpace(s[n - 1]))
    ensures RStrip(s) == s[..n]
  {
    forall i | n <= i < |s| ensures IsSpace(s[i]) { assert s[n..][i - n] == s[i]; }
    assert |RStrip(s)| == n;
  }

  lemma StripPieces(s: string)
    ensures exists before, after :: IsStrippedOf(s, before, Strip(s), after)
  {
    StripLooks(s, RStrip(s), Indent(RStrip(s)));
  }

  lemma StripLooks(s: string, r: string, n: nat)
    requires r == RStrip(s) && n == Indent(r)
    ensures IsStrippedOf(s, r[..n], Strip(s), s[|r|..])
  {
    StrippedParts(s, r, n, Strip(s));
  }

  lemma StrippedParts(s: string, r: string, n: nat, text: string)
    requires r <= s && n <= |r| && text == r[n..] && (text == "" || IsInk(text))
    requires forall i :: 0 <= i < n ==> IsSpace(r[i])
    requires forall i :: |r| <= i < |s| ==> IsSpace(s[i])
    ensures IsStrippedOf(s, r[..n], text, s[|r|..])
  {
    StripCuts(s, r, n);
  }

  lemma StripCuts(s: string, r: string, n: nat)
    requires r <= s && n <= |r|
    ensures s == r[..n] + r[n..] + s[|r|..]
  {
  }

  /** `s.strip()` */
  lemma StripIs(s: string, before: string, text: string, after: string)
    requires IsStrippedOf(s, before, text, after)
    ensures Strip(s) == text
  {
    if text == "" {
      assert s[0..] == s;
      RStripIs(s, 0);
    } else {
      var n := |before + text|;
      assert s[n..] == after && s[n - 1] == text[|text| - 1] && s[..n] == before + text;
      RStripIs(s, n);
      assert (before + text)[|before|] == text[0];
      IndentIs(before + text, |before|);
    }
  }

  lemma StripIff(s: string, text: string)
    ensures Strip(s) == text <==> exists before, after :: IsStrippedOf(s, before, text, after)
  {
    StripPieces(s);
    if exists before, after :: IsStrippedOf(s, before, text, after) {
      var before, after :| IsStrippedOf(s, before, text, after);
      StripIs(s, before, text, after);
    }
  }

  // ---------------------------------------------------------------- list items

  lemma StripGap(gap: string, text: string)
    requires AllSpace(gap) && IsInk(text)
    ensures Strip(gap + text) == text
  {
    assert gap + text + "" == gap + text;
    StripIs(gap + text, gap, text, "");
  }

  /** An item line makes exactly the entry it shows. */
  lemma ItemEntry(line: string, indent: string, marker: string, gap: string, text: string)
    requires IsItemWith(line, indent, marker, gap, text)
    ensures IsItem(line) && ItemOf(line) == ListItem(if |indent| >= 2 then 1 else 0, marker, text)
  {
    MarkedReads(RStrip(line), indent, marker, gap, text);
    StripGap(gap, text);
  }

  lemma ItemLooks(line: string)
    requires IsItem(line)
    ensures ItemLine(line)
  {
    var r := RStrip(line);
    var a := AfterMarker(r);
    MarkedLooks(r);
    TextIsInk(r);
    ItemIs(line, r[..Indent(r)], MarkerOf(r), a[..Indent(a)], a[Indent(a)..]);
  }

  lemma ItemIs(line: string, indent: string, marker: string, gap: string, text: string)
    requires IsMarked(RStrip(line), indent, marker, gap, text) && IsInk(text)
    ensures ItemLine(line)
  {
    assert IsItemWith(line, indent, marker, gap, text);
  }

  lemma TextIsInk(r: string)
    requires HasMarker(r) && !IsSpace(r[|r| - 1])
    ensures var a := AfterMarker(r); IsInk(a[Indent(a)..])
  {
    SameEnd(r, Indent(r), MarkerLength(LStrip(r)));
    InkAfterGap(AfterMarker(r));
  }

  lemma SameEnd(s: string, n: nat, m: nat)
    requires n + m < |s|
    ensures var a := s[n..][m..]; a != "" && a[|a| - 1] == s[|s| - 1]
  {
  }

  lemma InkAfterGap(a: string)
    requires a != "" && !IsSpace(a[|a| - 1])
    ensures IsInk(a[Indent(a)..])
  {
    InkFrom(a, Indent(a));
  }

  lemma InkFrom(a: string, n: nat)
    requires n < |a| && !IsSpace(a[n]) && !IsSpace(a[|a| - 1])
    ensures IsInk(a[n..])
  {
  }

  /** `^(\s*)([-*+]|\d+[.)])\s+(.*)$` on the line without the whitespace at its end. */
  lemma IsItemIff(line: string)
    ensures IsItem(line) <==> ItemLine(line)
  {
    if IsItem(line) { ItemLooks(line); }
    if ItemLine(line) {
      var indent, marker, gap, text :| IsItemWith(line, indent, marker, gap, text);
      ItemEntry(line, indent, marker, gap, text);
    }
  }

  // ---------------------------------------------------------------- rules

  lemma {:induction false} CountGap(gap: string, rest: string, mark: char)
    requires AllSpace(gap) && !IsSpace(mark)
    ensures Count(gap + rest, mark) == Count(rest, mark)
  {
    if gap == "" {
      assert gap + rest == rest;
    } else {
      assert (gap + rest)[1..] == gap[1..] + rest;
      CountGap(gap[1..], rest, mark);
    }
  }

  predicate OnlyMarks(t: string, mark: char) { forall i :: 0 <= i < |t| ==> t[i] == mark || IsSpace(t[i]) }

  lemma {:induction false} RuleTextReads(mark: char, gaps: seq<string>)
    requires !IsSpace(mark) && forall k :: 0 <= k < |gaps| ==> AllSpace(gaps[k])
    ensures var t := RuleText(mark, gaps);
      OnlyMarks(t, mark) && Count(t, mark) == |gaps| && (gaps != [] ==> t != "" && t[0] == mark)
  {
    if gaps != [] {
      var rest := RuleText(mark, gaps[1..]);
      RuleTextReads(mark, gaps[1..]);
      CountGap(gaps[0], rest, mark);
      assert [mark] + gaps[0] + rest == [mark] + (gaps[0] + rest);
      assert ([mark] + (gaps[0] + rest))[1..] == gaps[0] + rest;
    }
  }

  /** The whitespace after each mark. */
  function Gaps(t: string): seq<string>
    decreases |t|
  {
    if t == "" then [] else [t[1..][..Indent(t[1..])]] + Gaps(LStrip(t[1..]))
  }

  lemma {:induction false} GapsLook(t: string, mark: char)
    requires OnlyMarks(t, mark) && !IsSpace(mark) && (t != "" ==> t[0] == mark)
    ensures RuleText(mark, Gaps(t)) == t && |Gaps(t)| == Count(t, mark)
    ensures forall k :: 0 <= k < |Gaps(t)| ==> AllSpace(Gaps(t)[k])
    decreases |t|
  {
    if t != "" {
      var rest := LStrip(t[1..]);
      RestOnlyMarks(t, mark, Indent(t[1..]));
      GapsLook(rest, mark);
      GapsStep(t, mark, t[1..][..Indent(t[1..])], rest);
    }
  }

  lemma GapsStep(t: string, mark: char, gap: string, rest: string)
    requires t != "" && t[0] == mark && t[1..] == gap + rest && AllSpace(gap) && !IsSpace(mark)
    requires RuleText(mark, Gaps(rest)) == rest && |Gaps(rest)| == Count(rest, mark) && Gaps(t) == [gap] + Gaps(rest)
    requires forall k :: 0 <= k < |Gaps(rest)| ==> AllSpace(Gaps(rest)[k])
    ensures RuleText(mark, Gaps(t)) == t && |Gaps(t)| == Count(t, mark)
    ensures forall k :: 0 <= k < |Gaps(t)| ==> AllSpace(Gaps(t)[k])
  {
    MarkFirst(t, mark, gap, rest);
    RuleTextCons(mark, gap, Gaps(rest));
  }

  lemma RestOnlyMarks(t: string, mark: char, n: nat)
    requires OnlyMarks(t, mark) && t != "" && n <= |t| - 1 && (n < |t| - 1 ==> !IsSpace(t[1..][n]))
    ensures OnlyMarks(t[1..][n..], mark) && (t[1..][n..] != "" ==> t[1..][n..][0] == mark)
  {
    var rest := t[1..][n..];
    forall i | 0 <= i < |rest| ensures rest[i] == mark || IsSpace(rest[i]) { assert rest[i] == t[1 + n + i]; }
  }

  lemma MarkFirst(t: string, mark: char, gap: string, rest: string)
    requires t != "" && t[0] == mark && t[1..] == gap + rest && AllSpace(gap) && !IsSpace(mark)
    ensures t == [mark] + gap + rest && Count(t, mark) == 1 + Count(rest, mark)
  {
    CountGap(gap, rest, mark);
  }

  lemma RuleTextCons(mark: char, gap: string, gaps: seq<string>)
    ensures RuleText(mark, [gap] + gaps) == [mark] + gap + RuleText(mark, gaps)
  {
    assert ([gap] + gaps)[1..] == gaps;
  }

  /** `^(m\s*){3,}$` */
  lemma IsRuleOfIff(t: string, mark: char)
    requires !IsSpace(mark)
    ensures IsRuleOf(t, mark) <==> RuleOf(t, mark)
  {
    if IsRuleOf(t, mark) {
      GapsLook(t, mark);
      assert IsRuleWith(t, mark, Gaps(t));
    }
    if RuleOf(t, mark) {
      var gaps :| IsRuleWith(t, mark, gaps);
      RuleTextReads(mark, gaps);
    }
  }

  lemma IsRuleIff(line: string)
    ensures IsRule(Strip(line)) <==> RuleLine(line)
  {
    IsRuleOfIff(Strip(line), '*');
    IsRuleOfIff(Strip(line), '-');
    IsRuleOfIff(Strip(line), '_');
  }

  // ---------------------------------------------------------------- headings

  lemma {:induction false} HashesIs(t: string, n: nat)
    requires n <= |t| && (n < |t| ==> t[n] != '#') && forall i :: 0 <= i < n ==> t[i] == '#'
    ensures Hashes(t) == n
  {
    if n > 0 { HashesIs(t[1..], n - 1); }
  }

  lemma HashedReads(s: string, level: nat, gap: string, rest: string)
    requires IsHashed(s, level, gap, rest)
    ensures IsHeading(s) && Hashes(s) == level && s[level..] == gap + rest
  {
    HashedPieces(s, level, gap, rest);
    HashesIs(s, level);
  }

  lemma HashedPieces(s: string, level: nat, gap: string, rest: string)
    requires gap != "" && s == Repeat('#', level) + gap + rest
    ensures level < |s| && s[level] == gap[0] && s[level..] == gap + rest
    ensures forall i :: 0 <= i < level ==> s[i] == '#'
  {
  }

  lemma HashedLooks(s: string, n: nat)
    requires IsHeading(s) && 0 < n && Hashes(s) + n <= |s| && AllSpace(s[Hashes(s)..][..n])
    ensures IsHashed(s, Hashes(s), s[Hashes(s)..][..n], s[Hashes(s)..][n..])
  {
    CutInThree(s, Hashes(s), n);
    assert s[..Hashes(s)] == Repeat('#', Hashes(s));
  }

  /** `^#{1,6}\s` */
  lemma IsHeadingIff(s: string)
    ensures IsHeading(s) <==> HashedText(s)
  {
    if IsHeading(s) { HashedLooks(s, 1); }
    if HashedText(s) {
      var level, gap, rest :| IsHashed(s, level, gap, rest);
      HashedReads(s, level, gap, rest);
    }
  }

  /** `^(#{1,6})\s+(.*)$` on the stripped line: its level and text. */
  lemma HeadingIff(line: string, level: nat, text: string)
    ensures var s := Strip(line);
      HeadingLine(line, level, text) <==> IsHeading(s) && Hashes(s) == level && Strip(s[Hashes(s)..]) == text
  {
    var s := Strip(line);
    if HeadingLine(line, level, text) {
      var gap :| IsHashed(s, level, gap, text);
      HashedReads(s, level, gap, text);
      StripGap(gap, text);
    }
    if IsHeading(s) { HeadingLooks(line, s[Hashes(s)..]); }
  }

  lemma HeadingLooks(line: string, rest: string)
    requires IsHeading(Strip(line)) && rest == Strip(line)[Hashes(Strip(line))..]
    ensures HeadingLine(line, Hashes(Strip(line)), Strip(rest))
  {
    var s, n := Strip(line), Indent(rest);
    RestIsInk(s, rest);
    HashedLooks(s, n);
    StripFromLeft(rest, n);
  }

  lemma StripFromLeft(rest: string, n: nat)
    requires n <= |rest| && AllSpace(rest[..n]) && IsInk(rest[n..])
    ensures Strip(rest) == rest[n..]
  {
    assert rest[..n] + rest[n..] == rest;
    StripGap(rest[..n], rest[n..]);
  }

  lemma RestIsInk(s: string, rest: string)
    requires IsHeading(s) && !IsSpace(s[|s| - 1]) && rest == s[Hashes(s)..]
    ensures 0 < Indent(rest) && IsInk(rest[Indent(rest)..])
  {
    assert rest[|rest| - 1] == s[|s| - 1] && rest[0] == s[Hashes(s)];
    InkAfterGap(rest);
  }

  /** The headings of the scanner of tools/verify-pdf.py: `^(#{1,3})\s+(.*)$` */
  lemma IsTitleIff(line: string)
    ensures HeadingScan.IsTitle(line) <==>
      exists level, gap, rest :: level <= 3 && IsHashed(Strip(line), level, gap, rest)
  {
    var s := Strip(line);
    if HeadingScan.IsTitle(line) { HashedLooks(s, 1); }
    if exists level, gap, rest :: level <= 3 && IsHashed(s, level, gap, rest) {
      var level, gap, rest :| level <= 3 && IsHashed(s, level, gap, rest);
      HashedReads(s, level, gap, rest);
    }
  }

  // ---------------------------------------------------------------- separators, fences, quotes

  /** `is_table_sep` */
  lemma IsSepIff(line: string)
    ensures IsSep(line) <==> SepLine(line)
  {
    var s := Strip(line);
    if IsSep(line) {
      var k := IndexOf(s, '-');
      SepLooks(line, s[..k], s[k + 1..], k);
    }
    if SepLine(line) {
      var first, before, after, last :| IsSepWith(line, first, before, after, last);
      SepReads(line, first, before, after, last);
    }
  }

  lemma SepLooks(line: string, before: string, after: string, k: nat)
    requires IsSep(line) && k < |Strip(line)| && Strip(line)[k] == '-'
    requires before == Strip(line)[..k] && after == Strip(line)[k + 1..]
    ensures SepLine(line)
  {
    CutAround(Strip(line), k);
    SepBuilt(line, "", before, after, "");
  }

  lemma SepBuilt(line: string, first: string, before: string, after: string, last: string)
    requires first == "" && last == "" && Strip(line) == before + "-" + after && '|' in line
    requires OnlySep(before) && OnlySep(after)
    ensures SepLine(line)
  {
    assert first + before + "-" + after + last == before + "-" + after;
    assert IsSepWith(line, first, before, after, last);
  }

  lemma SepReads(line: string, first: string, before: string, after: string, last: string)
    requires IsSepWith(line, first, before, after, last)
    ensures IsSep(line)
  {
    var s := Strip(line);
    assert s[|first + before|] == '-';
    StripIn(line, '-');
  }

  /** What a stripped line holds, the line holds; and what is not whitespace is not lost. */
  lemma StripIn(line: string, c: char)
    requires !IsSpace(c)
    ensures c in Strip(line) <==> c in line
  {
    var r := RStrip(line);
    assert line == r[..Indent(r)] + Strip(line) + line[|r|..];
  }

  lemma IsFenceIff(line: string)
    ensures IsFence(line) <==> FenceLine(line)
  {
    if IsFence(line) { assert Strip(line) == "```" + Strip(line)[3..]; }
  }

  lemma IsQuoteIff(line: string)
    ensures IsQuote(line) <==> QuoteLine(line)
  {
    if IsQuote(line) { assert Strip(line) == ">" + Strip(line)[1..]; }
  }

  lemma BlankIff(line: string)
    ensures Blank(line) <==> AllSpace(line)
  {
    if AllSpace(line) && Strip(line) != "" {
      var c := Strip(line)[0];
      StripIn(line, c);
    }
    if Blank(line) {
      var r := RStrip(line);
      assert r == "" || Indent(r) < |r|;
    }
  }

  lemma StartsTableIff(lines: seq<string>, i: nat)
    requires i < |lines|
    ensures StartsTable(lines, i) <==> TableStart(lines, i)
  {
    StripIn(lines[i], '|');
    if i + 1 < |lines| { IsSepIff(lines[i + 1]); }
  }

  // ---------------------------------------------------------------- what a line does

  /** A line that carries on a list item: indented by a space or a tab, and visible. */
  lemma IsContinuationIff(line: string)
    ensures IsContinuation(line) <==> !AllSpace(line) && (" " <= line || "\t" <= line)
  {
    BlankIff(line);
  }

  /** Where a paragraph ends. */
  lemma EndsParaIff(lines: seq<string>, i: nat)
    requires i < |lines|
    ensures var line := lines[i];
      EndsPara(lines, i) <==>
        || AllSpace(line) || HashedText(Strip(line)) || QuoteLine(line) || FenceLine(line) || MarkedLine(line)
        || TableStart(lines, i) || RuleOf(Strip(line), '-') || RuleOf(Strip(line), '*')
  {
    BlankIff(lines[i]);
    IsHeadingIff(Strip(lines[i]));
    IsQuoteIff(lines[i]);
    IsFenceIff(lines[i]);
    HasMarkerIff(lines[i]);
    StartsTableIff(lines, i);
    IsRuleOfIff(Strip(lines[i]), '-');
    IsRuleOfIff(Strip(lines[i]), '*');
  }

  // ---------------------------------------------------------------- what a line starts

  /** Fences and rules are no headings. */
  lemma FirstChar(line: string)
    ensures var s := Strip(line);
      && (IsFence(line) ==> s != "" && s[0] == '`') && (IsRule(s) ==> s != "" && s[0] in "*-_")
      && (IsHeading(s) ==> s != "" && s[0] == '#')
  {
  }

  datatype Kind = NoBlock | CodeBlock | RuleBlock | HeadingBlock | TableBlock | QuoteBlock | ListBlock | ParaBlock

  function KindOf(b: Option<Block>): Kind { if b.None? then NoBlock else BlockKind(b.value) }

  function BlockKind(b: Block): Kind {
    if b.Code? then CodeBlock
    else if b.Rule? then RuleBlock
    else if b.Heading? then HeadingBlock
    else if b.Table? then TableBlock
    else if b.Quote? then QuoteBlock
    else if b.List? then ListBlock
    else ParaBlock
  }

  /** What the first line of a turn starts, by what it looks like; what is only marked starts nothing. */
  ghost function StartedBy(lines: seq<string>, i: nat): Kind
    requires i < |lines|
  {
    var line := lines[i];
    if AllSpace(line) then NoBlock
    else if FenceLine(line) then CodeBlock
    else if RuleLine(line) then RuleBlock
    else if HashedText(Strip(line)) then HeadingBlock
    else if TableStart(lines, i) then TableBlock
    else if QuoteLine(line) then QuoteBlock
    else if ItemLine(line) then ListBlock
    else if MarkedLine(line) then NoBlock
    else ParaBlock
  }

  /** What a turn makes of its first line, for every document. */
  lemma TurnIs(lines: seq<string>, i: nat)
    requires i < |lines|
    ensures KindOf(TakeTurn(lines, i).block) == StartedBy(lines, i)
    ensures AllSpace(lines[i]) ==> TakeTurn(lines, i) == Turn(i + 1, None)
    ensures forall level: nat, text :: HeadingLine(lines[i], level, text) ==>
      TakeTurn(lines, i) == Turn(i + 1, Some(Heading(level, text)))
  {
    TurnStarts(lines, i);
    LineIffs(lines, i);
    forall level: nat, text: string | HeadingLine(lines[i], level, text)
      ensures TakeTurn(lines, i) == Turn(i + 1, Some(Heading(level, text)))
    {
      HeadingIff(lines[i], level, text);
      FirstChar(lines[i]);
    }
  }

  lemma TurnStarts(lines: seq<string>, i: nat)
    requires i < |lines|
    ensures KindOf(TakeTurn(lines, i).block) == StartedBy(lines, i)
  {
    LineIffs(lines, i);
    TurnKind(lines, i);
  }

  /** The same by the tests of the source. */
  function TestedAs(lines: seq<string>, i: nat): Kind
    requires i < |lines|
  {
    var line, s := lines[i], Strip(lines[i]);
    if Blank(line) then NoBlock
    else if IsFence(line) then CodeBlock
    else if IsRule(s) then RuleBlock
    else if IsHeading(s) then HeadingBlock
    else GroupedAs(lines, i)
  }

  function GroupedAs(lines: seq<string>, i: nat): Kind
    requires i < |lines|
  {
    if StartsTable(lines, i) then TableBlock
    else if IsQuote(lines[i]) then QuoteBlock
    else if IsItem(lines[i]) then ListBlock
    else if HasMarker(lines[i]) then NoBlock
    else ParaBlock
  }

  lemma TurnKind(lines: seq<string>, i: nat)
    requires i < |lines|
    ensures KindOf(TakeTurn(lines, i).block) == TestedAs(lines, i)
  {
    var s := Strip(lines[i]);
    OtherKinds(Hashes(s), Strip(s[Hashes(s)..]));
    if s != "" && IsFence(lines[i]) {
      OneKind(CodeTurn(lines, i));
    } else if s != "" && !IsRule(s) && !IsHeading(s) {
      GroupKind(lines, i, TakeTurn(lines, i));
    }
  }

  lemma OtherKinds(level: nat, text: string)
    ensures KindOf(None) == NoBlock && KindOf(Some(Rule)) == RuleBlock
    ensures KindOf(Some(Heading(level, text))) == HeadingBlock
  {
  }

  lemma OneKind(t: Turn)
    requires t.block.Some?
    ensures t.block.value.Code? ==> KindOf(t.block) == CodeBlock
    ensures t.block.value.Table? ==> KindOf(t.block) == TableBlock
    ensures t.block.value.Quote? ==> KindOf(t.block) == QuoteBlock
    ensures t.block.value.List? ==> KindOf(t.block) == ListBlock
    ensures t.block.value.Para? ==> KindOf(t.block) == ParaBlock
  {
  }

  lemma GroupKind(lines: seq<string>, i: nat, t: Turn)
    requires i < |lines| && !Blank(lines[i]) && !IsFence(lines[i])
    requires !IsRule(Strip(lines[i])) && !IsHeading(Strip(lines[i])) && t == TakeTurn(lines, i)
    ensures KindOf(t.block) == GroupedAs(lines, i)
  {
    if t.block.Some? { OneKind(t); }
    if !StartsTable(lines, i) && !IsQuote(lines[i]) && !IsItem(lines[i]) { OnlyMarkersEnd(lines, i); }
  }

  lemma OnlyMarkersEnd(lines: seq<string>, i: nat)
    requires i < |lines| && !Blank(lines[i]) && !IsFence(lines[i]) && !IsRule(Strip(lines[i]))
    requires !IsHeading(Strip(lines[i])) && !StartsTable(lines, i) && !IsQuote(lines[i])
    ensures EndsPara(lines, i) <==> HasMarker(lines[i])
  {
  }

  lemma LineIffs(lines: seq<string>, i: nat)
    requires i < |lines|
    ensures var line := lines[i];
      && (IsFence(line) <==> FenceLine(line)) && (IsRule(Strip(line)) <==> RuleLine(line))
      && (IsHeading(Strip(line)) <==> HashedText(Strip(line))) && (StartsTable(lines, i) <==> TableStart(lines, i))
      && (IsQuote(line) <==> QuoteLine(line)) && (IsItem(line) <==> ItemLine(line))
      && (Blank(line) <==> AllSpace(line)) && (HasMarker(line) <==> MarkedLine(line))
  {
    HasMarkerIff(lines[i]);
    IsFenceIff(lines[i]);
    IsRuleIff(lines[i]);
    IsHeadingIff(Strip(lines[i]));
    StartsTableIff(lines, i);
    IsQuoteIff(lines[i]);
    IsItemIff(lines[i]);
    BlankIff(lines[i]);
  }
}
