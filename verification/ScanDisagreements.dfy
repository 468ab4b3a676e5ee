/**
  Documents on which the scanner of tools/verify-pdf.py and the block parser of tools/md-to-pdf.py
  disagree, one for each way to disagree.
 */
module ScanDisagreements {
  import opened MdLines
  import opened Blocks
  import opened LineReader
  import opened HeadingScan

  // ---------------------------------------------------------------- the first lines

  lemma PlainItem(line: string)
    requires line == "- a"
    ensures IsItem(line) && Strip(line) == line && line != "" && '|' !in line
    ensures !IsFence(line) && !IsRule(line) && !IsHeading(line) && !IsQuote(line) && !IsTitle(line)
  {
    assert RStrip(line) == line;
    assert !IsSpace(line[0]) && !IsSpace(line[2]) && Indent(line) == 0 && LStrip(line) == line;
    assert MarkerOf(line) == line[..1] && AfterMarker(line) == line[1..] && IsSpace(line[1]);
    assert Hashes(line) == 0;
    NoRuleFrom(line, 2);
  }

  lemma NoRuleFrom(s: string, k: nat)
    requires k < |s| && s[k] !in "*-_" && !IsSpace(s[k])
    ensures !IsRule(s)
  {
  }

  lemma PlainHeader(line: string)
    requires line == "a | b"
    ensures Strip(line) == line && line != "" && '|' in line
    ensures !IsFence(line) && !IsRule(line) && !IsHeading(line) && !IsTitle(line)
  {
    assert RStrip(line) == line;
    assert !IsSpace(line[0]) && Indent(line) == 0 && LStrip(line) == line;
    assert Hashes(line) == 0 && line[2] == '|';
    NoRuleFrom(line, 0);
  }

  lemma PlainSep(line: string)
    requires line == "-|-"
    ensures IsSep(line) && !IsFence(line) && !IsTitle(line)
  {
    assert RStrip(line) == line;
    assert !IsSpace(line[0]) && Indent(line) == 0 && LStrip(line) == line;
    assert line[1] == '|' && line[2] == '-' && Hashes(line) == 0;
  }

  /** After a list item a list is open. */
  lemma ListIsOpen(lines: seq<string>)
    requires |lines| >= 1 && lines[0] == "- a"
    ensures OpenAt(lines, 1) == Listed && !Inside(lines, 1) && !TitleCarried(lines)(0) && FenceStands(lines)(0)
  {
    PlainItem(lines[0]);
    FirstStartsAnew(lines);
    OpensNext(lines, 0);
  }

  lemma HeadIsOpen(lines: seq<string>)
    requires |lines| >= 2 && lines[0] == "a | b" && lines[1] == "-|-"
    ensures OpenAt(lines, 1) == Head && !Inside(lines, 1)
    ensures !IsFence(lines[0]) && !IsTitle(lines[0]) && !IsFence(lines[1]) && !IsTitle(lines[1])
  {
    PlainHeader(lines[0]);
    PlainSep(lines[1]);
    FirstStartsAnew(lines);
    OpensNext(lines, 0);
  }

  /** After a header and its separator the rows of a table are. */
  lemma RowsAreOpen(lines: seq<string>)
    requires |lines| >= 2 && lines[0] == "a | b" && lines[1] == "-|-"
    ensures OpenAt(lines, 2) == Rows && !Inside(lines, 2) && OpenAt(lines, 1) == Head && !Inside(lines, 1)
    ensures !IsFence(lines[0]) && !IsTitle(lines[0]) && !IsFence(lines[1]) && !IsTitle(lines[1])
  {
    HeadIsOpen(lines);
    StaysOpen(lines, 1, Head);
    InsideNext(lines, 1);
  }

  // ---------------------------------------------------------------- headings

  /** A document the parser gets through whose last line is a heading that carries something on. */
  lemma CarriedTitleDisagrees(lines: seq<string>, plain: string -> string, k: nat)
    requires k < |lines| && TitleCarried(lines)(k) && FencesStand(lines, |lines|) && OpenAt(lines, |lines|) != Stopped
    ensures ParsedTo(lines) == |lines|
      && ScanTo(lines, plain, |lines|).headings != AllTitles(Parsed(lines).spans, plain)
  {
    StuckIff(lines);
    ScannersAgreeIff(lines, plain);
  }

  lemma TitleInList(lines: seq<string>)
    requires |lines| == 2 && lines[0] == "- a" && lines[1] == " # b"
    ensures TitleCarried(lines)(1) && FencesStand(lines, 2) && OpenAt(lines, 2) != Stopped
  {
    ListIsOpen(lines);
    PlainItem(lines[0]);
    IndentedHeading(lines[1]);
    TwoLines(lines);
    NoFencesStand(lines);
    LastCarries(lines, 1, Listed);
  }

  /** An indented heading after a list item. */
  lemma IndentedHeadingDisagrees(plain: string -> string)
    ensures var lines := ["- a", " # b"];
      ScanTo(lines, plain, 2).headings != AllTitles(Parsed(lines).spans, plain)
  {
    var lines := ["- a", " # b"];
    TitleInList(lines);
    CarriedTitleDisagrees(lines, plain, 1);
  }

  lemma IndentedHeading(line: string)
    requires line == " # b"
    ensures IsTitle(line) && !IsFence(line) && InList(line)
  {
    var s := line[1..];
    assert RStrip(line) == line && Indent(line) == 1 && Strip(line) == s;
    assert s[0] == '#' && s[1] == ' ' && Hashes(s) == 1;
  }

  lemma TitleInRows(lines: seq<string>)
    requires |lines| == 3 && lines[0] == "a | b" && lines[1] == "-|-" && lines[2] == "# c | d"
    ensures TitleCarried(lines)(2) && FencesStand(lines, 3) && OpenAt(lines, 3) != Stopped
  {
    RowsAreOpen(lines);
    PipedHeading(lines[2]);
    ThreeLines(lines);
    NoFencesStand(lines);
    LastCarries(lines, 2, Rows);
  }

  lemma TwoLines(lines: seq<string>)
    requires |lines| == 2 && !IsFence(lines[0]) && !IsFence(lines[1])
    ensures forall k: nat :: k < |lines| ==> !IsFence(lines[k])
  {
  }

  lemma ThreeLines(lines: seq<string>)
    requires |lines| == 3 && !IsFence(lines[0]) && !IsFence(lines[1]) && !IsFence(lines[2])
    ensures forall k: nat :: k < |lines| ==> !IsFence(lines[k])
  {
  }

  lemma LastCarries(lines: seq<string>, k: nat, c: Context)
    requires |lines| == k + 1 && OpenAt(lines, k) == c && Carries(lines, k, c) && IsTitle(lines[k])
      && (c == Rows || c == Listed)
    ensures TitleCarried(lines)(k) && OpenAt(lines, k + 1) == c
  {
    StaysOpen(lines, k, c);
  }

  lemma NoFencesStand(lines: seq<string>)
    requires forall k: nat :: k < |lines| ==> !IsFence(lines[k])
    ensures FencesStand(lines, |lines|)
  {
  }

  /** A heading with a pipe among table rows. */
  lemma PipedHeadingDisagrees(plain: string -> string)
    ensures var lines := ["a | b", "-|-", "# c | d"];
      ScanTo(lines, plain, 3).headings != AllTitles(Parsed(lines).spans, plain)
  {
    var lines := ["a | b", "-|-", "# c | d"];
    TitleInRows(lines);
    CarriedTitleDisagrees(lines, plain, 2);
  }

  lemma PipedHeading(line: string)
    requires line == "# c | d"
    ensures IsTitle(line) && !IsFence(line) && IsRow(line)
  {
    assert RStrip(line) == line;
    assert !IsSpace(line[0]) && Indent(line) == 0 && Strip(line) == line;
    assert line[0] == '#' && line[1] == ' ' && Hashes(line) == 1 && line[4] == '|';
  }

  // ---------------------------------------------------------------- fences

  lemma PlainLine(line: string)
    requires line == "c"
    ensures Strip(line) == line && line != "" && !IsFence(line) && !IsTitle(line) && '|' !in line && !InList(line)
    ensures !HasMarker(line) && !IsQuote(line) && !IsRule(line) && !IsHeading(line)
  {
    assert RStrip(line) == line;
    assert !IsSpace(line[0]) && Indent(line) == 0 && LStrip(line) == line;
    assert Hashes(line) == 0 && MarkerOf(line) == "";
    NoRuleFrom(line, 0);
  }

  lemma CarriedFenceContexts(lines: seq<string>, k: nat)
    requires |lines| == k + 2 && IsFence(lines[k]) && lines[k + 1] == "c" && !Inside(lines, k)
    requires Carried(lines, k) && (OpenAt(lines, k) == Listed || OpenAt(lines, k) == Rows)
    ensures OpenAt(lines, k + 1) == OpenAt(lines, k) && !Carried(lines, k + 1) && Inside(lines, k + 1)
    ensures OpenAt(lines, k + 2) == Wrapped
  {
    PlainLine(lines[k + 1]);
    StaysOpen(lines, k, OpenAt(lines, k));
    StaysOpen(lines, k + 1, OpenAt(lines, k));
    OpensNext(lines, k + 1);
    InsideNext(lines, k);
  }

  lemma CarriedFenceFinds(lines: seq<string>, plain: string -> string, k: nat)
    requires |lines| == k + 2 && IsFence(lines[k]) && lines[k + 1] == "c"
    requires !Carried(lines, k + 1) && Inside(lines, k + 1)
    requires UpTo(HeldAt(lines, plain), k) == NOTHING && UpTo(ScannedAt(lines, plain), k) == NOTHING
    ensures UpTo(ScannedAt(lines, plain), k + 2) == Found([], ["c"]) && UpTo(HeldAt(lines, plain), k + 2) == NOTHING
  {
    PlainLine(lines[k + 1]);
    assert ScannedAt(lines, plain)(k) == NOTHING && ScannedAt(lines, plain)(k + 1) == Found([], ["c"]);
    HeldIs(lines, plain, k);
    HeldIs(lines, plain, k + 1);
    BothNothing(NOTHING, []);
    NothingBoth(Found([], ["c"]));
    assert UpTo(ScannedAt(lines, plain), k + 1) == NOTHING && UpTo(HeldAt(lines, plain), k + 1) == NOTHING;
  }

  /**
    A fence line that carries on a list or a table, and a plain line after it: the scanner takes
    that line for code, to the block parser it is a paragraph.
   */
  lemma CarriedFenceDisagrees(lines: seq<string>, plain: string -> string, k: nat)
    requires |lines| == k + 2 && IsFence(lines[k]) && lines[k + 1] == "c" && !Inside(lines, k)
    requires Carried(lines, k) && (OpenAt(lines, k) == Listed || OpenAt(lines, k) == Rows)
    requires UpTo(HeldAt(lines, plain), k) == NOTHING && UpTo(ScannedAt(lines, plain), k) == NOTHING
    ensures ParsedTo(lines) == |lines|
    ensures ScanTo(lines, plain, k + 2).code == ["c"] && AllCode(Parsed(lines).spans) == []
  {
    CarriedFenceContexts(lines, k);
    CarriedFenceFinds(lines, plain, k);
    StuckIff(lines);
    BlocksAreSum(lines, plain);
    ScanIsSum(lines, plain, k + 2);
  }

  /** A fence line that carries on a list item. */
  lemma FenceInListDisagrees(plain: string -> string)
    ensures var lines := ["- a", " ```", "c"];
      ScanTo(lines, plain, 3).code == ["c"] && AllCode(Parsed(lines).spans) == []
  {
    var lines := ["- a", " ```", "c"];
    ListIsOpen(lines);
    IndentedFence(lines[1]);
    FoundNothing(lines, plain, 0);
    StaysOpen(lines, 1, Listed);
    CarriedFenceDisagrees(lines, plain, 1);
  }

  lemma IndentedFence(line: string)
    requires line == " ```"
    ensures IsFence(line) && InList(line)
  {
    assert !IsSpace(line[3]) && RStrip(line) == line;
    assert IsSpace(line[0]) && !IsSpace(line[1]) && Indent(line) == 1;
    assert Strip(line) == line[1..];
  }

  /** A fence line with a pipe among table rows. */
  lemma FenceInTableDisagrees(plain: string -> string)
    ensures var lines := ["a | b", "-|-", "``` | x", "c"];
      ScanTo(lines, plain, 4).code == ["c"] && AllCode(Parsed(lines).spans) == []
  {
    var lines := ["a | b", "-|-", "``` | x", "c"];
    RowsAreOpen(lines);
    PipedFence(lines[2]);
    FoundNothing(lines, plain, 0);
    FoundNothing(lines, plain, 1);
    StaysOpen(lines, 2, Rows);
    CarriedFenceDisagrees(lines, plain, 2);
  }

  lemma PipedFence(line: string)
    requires line == "``` | x"
    ensures IsFence(line) && IsRow(line)
  {
    assert RStrip(line) == line;
    assert line[4] == '|' && !IsSpace(line[0]) && Indent(line) == 0;
    assert Strip(line) == line;
  }

  /** The plain lines above hold nothing, and nothing is found in them. */
  lemma FoundNothing(lines: seq<string>, plain: string -> string, k: nat)
    requires k < |lines| && !Inside(lines, k) && OpenAt(lines, k) != Fenced && !IsTitle(lines[k])
    requires UpTo(HeldAt(lines, plain), k) == NOTHING && UpTo(ScannedAt(lines, plain), k) == NOTHING
    ensures UpTo(HeldAt(lines, plain), k + 1) == NOTHING && UpTo(ScannedAt(lines, plain), k + 1) == NOTHING
  {
    HeldIs(lines, plain, k);
    BothNothing(NOTHING, []);
  }
}
