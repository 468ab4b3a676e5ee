/**
  The heading and code scanner of tools/verify-pdf.py, written without regard to blocks,
  and exactly when it agrees with the block parser.
 */
module HeadingScan {
  import opened Options
  import opened Text
  import opened MdLines
  import opened Blocks
  import opened BlockRuns
  import opened LineReader

  datatype Title = Title(level: nat, text: string)

  datatype Scan = Scan(inFence: bool, headings: seq<Title>, code: seq<string>)

  /** A heading the scanner collects: `^(#{1,3})\s+(.*)$`. */
  predicate IsTitle(line: string) { IsHeading(Strip(line)) && Hashes(Strip(line)) <= 3 }

  /** One line of the scanner; `plain` stands for `strip_md`, which cleans a heading's text. */
  function ScanLine(sc: Scan, line: string, plain: string -> string): Scan {
    var s := Strip(line);
    if IsFence(line) then sc.(inFence := !sc.inFence)
    else if sc.inFence then if s == "" then sc else sc.(code := sc.code + [s])
    else if IsTitle(line) then sc.(headings := sc.headings + [Title(Hashes(s), plain(Strip(s[Hashes(s)..])))])
    else sc
  }

  /** The scanner's state before line `k`. */
  function ScanTo(lines: seq<string>, plain: string -> string, k: nat): Scan
    requires k <= |lines|
  {
    if k == 0 then Scan(false, [], []) else ScanLine(ScanTo(lines, plain, k - 1), lines[k - 1], plain)
  }

  method ScanDocument(lines: seq<string>, plain: string -> string)
    returns (headings: seq<Title>, code: seq<string>)
    ensures var sc := ScanTo(lines, plain, |lines|); headings == sc.headings && code == sc.code
  {
    var inFence := false;
    headings, code := [], [];
    for k := 0 to |lines|
      invariant Scan(inFence, headings, code) == ScanTo(lines, plain, k)
    {
      var s := Strip(lines[k]);
      if IsFence(lines[k]) {
        inFence := !inFence;
      } else if inFence {
        if s != "" { code := code + [s]; }
      } else if IsTitle(lines[k]) {
        headings := headings + [Title(Hashes(s), plain(Strip(s[Hashes(s)..])))];
      }
    }
  }

  // ---------------------------------------------------------------- the same, read off the blocks

  function TitlesOf(block: Block, plain: string -> string): seq<Title> {
    if block.Heading? && block.level <= 3 then [Title(block.level, plain(block.text))] else []
  }

  function VisibleLine(line: string): seq<string> { if Strip(line) == "" then [] else [Strip(line)] }

  /** The lines that are not blank, stripped. */
  function Visible(lines: seq<string>): seq<string> {
    if lines == [] then [] else Visible(lines[..|lines| - 1]) + VisibleLine(lines[|lines| - 1])
  }

  function CodeOf(block: Block): seq<string> { if block.Code? then Visible(block.lines) else [] }

  function AllTitles(spans: seq<Span>, plain: string -> string): seq<Title> {
    if spans == [] then [] else TitlesOf(spans[0].block, plain) + AllTitles(spans[1..], plain)
  }

  function AllCode(spans: seq<Span>): seq<string> {
    if spans == [] then [] else CodeOf(spans[0].block) + AllCode(spans[1..])
  }

  // ---------------------------------------------------------------- one line at a time

  /** What is found in a line, or in several. */
  datatype Found = Found(headings: seq<Title>, code: seq<string>)

  const NOTHING := Found([], [])

  function TitleOf(line: string, plain: string -> string): Title {
    Title(Hashes(Strip(line)), plain(Strip(Strip(line)[Hashes(Strip(line))..])))
  }

  /** What the scanner finds in a line. */
  function Scanned(line: string, inFence: bool, plain: string -> string): Found {
    if IsFence(line) then NOTHING
    else if inFence then Found([], VisibleLine(line))
    else if IsTitle(line) then Found([TitleOf(line, plain)], [])
    else NOTHING
  }

  /** What the blocks hold of a line: only a line that starts anew can be a heading. */
  function Held(line: string, c: Context, carried: bool, plain: string -> string): Found {
    if IsFence(line) then NOTHING
    else if carried then if c.Fenced? then Found([], VisibleLine(line)) else NOTHING
    else if IsTitle(line) then Found([TitleOf(line, plain)], [])
    else NOTHING
  }

  function ScannedAt(lines: seq<string>, plain: string -> string): nat -> Found {
    (k: nat) => if k < |lines| then Scanned(lines[k], Inside(lines, k), plain) else NOTHING
  }

  function HeldAt(lines: seq<string>, plain: string -> string): nat -> Found {
    (k: nat) => if k < |lines| then Held(lines[k], OpenAt(lines, k), Carried(lines, k), plain) else NOTHING
  }

  function Both(a: Found, b: Found): Found { Found(a.headings + b.headings, a.code + b.code) }

  /** What is found in the first `k` lines. */
  function UpTo(found: nat -> Found, k: nat): Found {
    if k == 0 then NOTHING else Both(UpTo(found, k - 1), found(k - 1))
  }

  /** Whether line `k` is inside a fence: an odd number of fence lines comes before it. */
  predicate Inside(lines: seq<string>, k: nat)
    requires k <= |lines|
  {
    k > 0 && if IsFence(lines[k - 1]) then !Inside(lines, k - 1) else Inside(lines, k - 1)
  }

  lemma ScanLineFence(sc: Scan, line: string, plain: string -> string)
    ensures ScanLine(sc, line, plain).inFence == (IsFence(line) != sc.inFence)
  {
  }

  function Fences(lines: seq<string>, plain: string -> string): nat -> bool {
    (k: nat) => k <= |lines| && ScanTo(lines, plain, k).inFence
  }

  function InsideAt(lines: seq<string>): nat -> bool { (k: nat) => k <= |lines| && Inside(lines, k) }

  predicate SameNext(a: nat -> bool, b: nat -> bool, k: nat) { a(k) == b(k) ==> a(k + 1) == b(k + 1) }

  lemma {:induction false} SameAlong(a: nat -> bool, b: nat -> bool, m: nat)
    requires a(0) == b(0) && forall k: nat :: k < m ==> SameNext(a, b, k)
    ensures a(m) == b(m)
  {
    if m > 0 {
      SameAlong(a, b, m - 1);
      assert SameNext(a, b, m - 1);
    }
  }

  lemma InsideIs(lines: seq<string>, plain: string -> string, k: nat)
    requires k <= |lines|
    ensures ScanTo(lines, plain, k).inFence == Inside(lines, k)
  {
    forall m: nat | m < k ensures SameNext(Fences(lines, plain), InsideAt(lines), m) {
      InsideNext(lines, m);
      ScanLineFence(ScanTo(lines, plain, m), lines[m], plain);
    }
    SameAlong(Fences(lines, plain), InsideAt(lines), k);
    assert Fences(lines, plain)(k) == InsideAt(lines)(k);
  }

  lemma InsideNext(lines: seq<string>, k: nat)
    requires k < |lines|
    ensures Inside(lines, k + 1) == (IsFence(lines[k]) != Inside(lines, k))
  {
  }

  /** The scanner collects what it finds in each line. */
  lemma {:induction false} ScanIsSum(lines: seq<string>, plain: string -> string, k: nat)
    requires k <= |lines|
    ensures Found(ScanTo(lines, plain, k).headings, ScanTo(lines, plain, k).code) == UpTo(ScannedAt(lines, plain), k)
  {
    if k > 0 {
      ScanIsSum(lines, plain, k - 1);
      InsideIs(lines, plain, k - 1);
      ScanLineAdds(ScanTo(lines, plain, k - 1), lines[k - 1], plain);
    }
  }

  lemma ScanLineAdds(sc: Scan, line: string, plain: string -> string)
    ensures var now := ScanLine(sc, line, plain);
      Found(now.headings, now.code) == Both(Found(sc.headings, sc.code), Scanned(line, sc.inFence, plain))
  {
    assert sc.headings + [] == sc.headings && sc.code + [] == sc.code;
  }

  // ---------------------------------------------------------------- what a turn holds

  lemma VisibleSlice(lines: seq<string>, i: nat, j: nat)
    requires i < j <= |lines|
    ensures Visible(lines[i..j]) == Visible(lines[i..j - 1]) + VisibleLine(lines[j - 1])
  {
    SliceSnoc(lines, i, j);
    VisibleSnoc(lines[i..j - 1], lines[j - 1]);
  }

  lemma VisibleSnoc(lines: seq<string>, last: string)
    ensures Visible(lines + [last]) == Visible(lines) + VisibleLine(last)
  {
    assert (lines + [last])[..|lines|] == lines;
  }

  function AddCode(a: Found, more: seq<string>): Found { Found(a.headings, a.code + more) }

  /** `sum` grows by what is visible of line `k`. */
  predicate Collects(sum: nat -> Found, lines: seq<string>, k: nat)
    requires k < |lines|
  {
    sum(k + 1) == AddCode(sum(k), VisibleLine(lines[k]))
  }

  /** What is visible of the lines from `a` on. */
  function VisibleFrom(lines: seq<string>, a: nat): nat -> seq<string> {
    (j: nat) => if a <= j <= |lines| then Visible(lines[a..j]) else []
  }

  ghost predicate Grow(sum: nat -> Found, code: nat -> seq<string>, k: nat) {
    exists more: seq<string> :: sum(k + 1) == AddCode(sum(k), more) && code(k + 1) == code(k) + more
  }

  lemma {:induction false} GrowRun(sum: nat -> Found, code: nat -> seq<string>, a: nat, j: nat)
    requires a <= j && code(a) == [] && forall k: nat :: a <= k < j ==> Grow(sum, code, k)
    ensures sum(j) == AddCode(sum(a), code(j))
    decreases j
  {
    if a < j {
      GrowRun(sum, code, a, j - 1);
      assert Grow(sum, code, j - 1);
      var more :| sum(j - 1 + 1) == AddCode(sum(j - 1), more) && code(j - 1 + 1) == code(j - 1) + more;
      AddCodeTwice(sum(a), code(j - 1), more);
    } else {
      assert sum(a).code + [] == sum(a).code;
    }
  }

  lemma VisibleGrows(lines: seq<string>, a: nat, k: nat)
    requires a <= k < |lines|
    ensures VisibleFrom(lines, a)(k + 1) == VisibleFrom(lines, a)(k) + VisibleLine(lines[k])
  {
    VisibleSlice(lines, a, k + 1);
  }

  lemma GrowsBy(sum: nat -> Found, code: nat -> seq<string>, k: nat, more: seq<string>)
    requires sum(k + 1) == AddCode(sum(k), more) && code(k + 1) == code(k) + more
    ensures Grow(sum, code, k)
  {
  }

  /** Between `a` and `j` a sum collects just the visible lines. */
  function Collected(lines: seq<string>, a: nat, j: nat): (nat -> Found) -> bool
    requires a <= j <= |lines|
  {
    (sum: nat -> Found) => sum(j) == AddCode(sum(a), Visible(lines[a..j]))
  }

  lemma CollectRun(sum: nat -> Found, lines: seq<string>, a: nat, j: nat)
    requires a <= j <= |lines| && forall k: nat :: a <= k < j ==> Collects(sum, lines, k)
    ensures Collected(lines, a, j)(sum)
  {
    var code := VisibleFrom(lines, a);
    forall k: nat | a <= k < j ensures Grow(sum, code, k) {
      assert Collects(sum, lines, k);
      VisibleGrows(lines, a, k);
      GrowsBy(sum, code, k, VisibleLine(lines[k]));
    }
    assert lines[a..a] == [] && code(a) == [];
    GrowRun(sum, code, a, j);
  }

  lemma AddCodeTwice(a: Found, b: seq<string>, c: seq<string>)
    ensures AddCode(AddCode(a, b), c) == AddCode(a, b + c)
  {
    Concat(a.code, b, c);
  }

  lemma BothCode(a: Found, more: seq<string>)
    ensures Both(a, Found([], more)) == AddCode(a, more)
  {
    assert a.headings + [] == a.headings;
  }

  function SumTo(found: nat -> Found): nat -> Found { (k: nat) => UpTo(found, k) }

  lemma BothTwice(a: Found, b: Found, c: Found)
    ensures Both(Both(a, b), c) == Both(a, Both(b, c))
  {
  }

  lemma BothNothing(a: Found, none: seq<string>)
    requires none == []
    ensures Both(a, Found([], Visible(none))) == a && Both(a, NOTHING) == a
  {
    assert a.headings + [] == a.headings && a.code + [] == a.code;
  }

  /** From `a` on, no line adds anything. */
  lemma {:induction false} EmptySum(found: nat -> Found, a: nat, j: nat)
    requires a <= j && forall k: nat :: a <= k < j ==> found(k) == NOTHING
    ensures UpTo(found, j) == UpTo(found, a)
    decreases j
  {
    if a < j {
      EmptySum(found, a, j - 1);
      assert found(j - 1) == NOTHING;
      BothNothing(UpTo(found, a), []);
    }
  }

  function TitlesIn(block: Option<Block>, plain: string -> string): seq<Title> {
    if block.Some? then TitlesOf(block.value, plain) else []
  }

  function CodeIn(block: Option<Block>): seq<string> { if block.Some? then CodeOf(block.value) else [] }

  function FoundIn(block: Option<Block>, plain: string -> string): Found {
    Found(TitlesIn(block, plain), CodeIn(block))
  }

  /** The lines of a turn at `i` hold what its block holds. */
  function Holds(found: nat -> Found, n: nat, plain: string -> string, i: nat): Turn -> bool {
    (t: Turn) => UpTo(found, End(t.next, n)) == Both(UpTo(found, i), FoundIn(t.block, plain))
  }

  /** A line that means nothing to the scanner outside a fence. */
  predicate Prose(line: string) { !IsFence(line) && !IsTitle(line) }

  lemma SepIsProse(line: string)
    requires IsSep(line)
    ensures Prose(line) && '|' in line
  {
    var s := Strip(line);
    assert s[0] in ":|-" && s[0] != '`' && s[0] != '#';
  }

  lemma QuoteIsProse(line: string)
    requires IsQuote(line)
    ensures Prose(line)
  {
    assert Strip(line)[0] == '>';
  }

  lemma ItemIsProse(line: string)
    requires IsItem(line)
    ensures Prose(line)
  {
    StripOfRStrip(line);
    MarkerHead(RStrip(line));
    StripOfItem(line);
  }

  lemma MarkerHead(r: string)
    requires HasMarker(r)
    ensures LStrip(r) != "" && (LStrip(r)[0] in "-*+" || IsDigit(LStrip(r)[0]))
  {
    MarkerInk(LStrip(r));
  }

  lemma StripOfItem(line: string)
    ensures Strip(line) == LStrip(RStrip(line))
  {
  }

  lemma HeldIs(lines: seq<string>, plain: string -> string, k: nat)
    requires k < |lines|
    ensures HeldAt(lines, plain)(k) == Held(lines[k], Contexts(lines)(k), CarriedAt(lines)(k), plain)
  {
  }

  /** What a line that starts anew holds, by the block it starts. */
  lemma StartHolds(lines: seq<string>, plain: string -> string, i: nat)
    requires i < |lines| && Opens(lines, i) != Fenced && Opens(lines, i) != Stopped
    ensures TakeTurn(lines, i).next <= |lines|
    ensures FoundIn(TakeTurn(lines, i).block, plain) == Held(lines[i], Fresh, false, plain)
  {
    StartKind(lines, i);
    KindHolds(lines[i], Strip(lines[i]), TakeTurn(lines, i).block, plain);
  }

  lemma KindHolds(line: string, s: string, block: Option<Block>, plain: string -> string)
    requires s == Strip(line)
    requires if !IsFence(line) && IsHeading(s) then block == Some(Heading(Hashes(s), Strip(s[Hashes(s)..])))
             else block.None? || (!block.value.Heading? && !block.value.Code?)
    ensures FoundIn(block, plain) == Held(line, Fresh, false, plain)
  {
  }

  /** The block of such a line is a heading if the line looks like one, and never code. */
  lemma StartKind(lines: seq<string>, i: nat)
    requires i < |lines| && Opens(lines, i) != Fenced && Opens(lines, i) != Stopped
    ensures var t, s := TakeTurn(lines, i), Strip(lines[i]);
      && t.next <= |lines|
      && if !IsFence(lines[i]) && IsHeading(s) then t.block == Some(Heading(Hashes(s), Strip(s[Hashes(s)..])))
         else t.block.None? || (!t.block.value.Heading? && !t.block.value.Code?)
  {
    var s := Strip(lines[i]);
    if s != "" && IsRule(s) { RuleIsNoHeading(s); }
  }

  lemma RuleIsNoHeading(s: string)
    requires IsRule(s)
    ensures !IsHeading(s)
  {
    assert s[0] in "*-_";
  }

  lemma PlainTurnHolds(lines: seq<string>, plain: string -> string, i: nat, t: Turn)
    requires i < t.next <= |lines| && !CarriedAt(lines)(i) && Contexts(lines)(i + 1) != Fenced
    requires Covers(CarriedAt(lines), |lines|, i)(t.next)
    requires FoundIn(t.block, plain) == Held(lines[i], Fresh, false, plain)
    ensures Holds(HeldAt(lines, plain), |lines|, plain, i)(t)
  {
    var found := HeldAt(lines, plain);
    HeldIs(lines, plain, i);
    forall k: nat | i < k < t.next ensures found(k) == NOTHING { CarriedHoldsNothing(lines, plain, i, t.next, k); }
    HoldsFirst(found, |lines|, plain, i, t);
  }

  /** Only the first line of the turn holds anything. */
  lemma HoldsFirst(found: nat -> Found, n: nat, plain: string -> string, i: nat, t: Turn)
    requires i < t.next <= n && found(i) == FoundIn(t.block, plain)
    requires forall k: nat :: i < k < t.next ==> found(k) == NOTHING
    ensures Holds(found, n, plain, i)(t)
  {
    EmptySum(found, i + 1, t.next);
  }

  lemma CarriedHoldsNothing(lines: seq<string>, plain: string -> string, i: nat, next: nat, k: nat)
    requires i < k < next <= |lines| && !CarriedAt(lines)(i) && Contexts(lines)(i + 1) != Fenced
    requires Covers(CarriedAt(lines), |lines|, i)(next)
    ensures HeldAt(lines, plain)(k) == NOTHING
  {
    NeverOpened(lines, i, k, Fenced);
    HeldIs(lines, plain, k);
  }

  lemma FenceOpens(lines: seq<string>, i: nat)
    requires i < |lines| && Opens(lines, i) == Fenced
    ensures var j := Until(AtFence(lines), i + 1, |lines|);
      IsFence(lines[i]) && TakeTurn(lines, i) == Turn(j + 1, Some(Code(lines[i + 1..j])))
  {
  }

  predicate ShowsLine(found: Found, line: string) { found == Found([], VisibleLine(line)) }

  lemma HeldFenced(lines: seq<string>, plain: string -> string, k: nat)
    requires FencedLine(lines)(k)
    ensures ShowsLine(HeldAt(lines, plain)(k), lines[k])
  {
    HeldIs(lines, plain, k);
    StaysOpen(lines, k, Fenced);
  }

  lemma SumCollects(found: nat -> Found, lines: seq<string>, k: nat)
    requires k < |lines| && ShowsLine(found(k), lines[k])
    ensures Collects(SumTo(found), lines, k)
  {
    BothCode(UpTo(found, k), VisibleLine(lines[k]));
  }

  lemma SumSkips(found: nat -> Found, k: nat)
    requires found(k) == NOTHING
    ensures SumTo(found)(k + 1) == SumTo(found)(k)
  {
    BothNothing(UpTo(found, k), []);
  }

  lemma FenceHoldsNothing(lines: seq<string>, plain: string -> string, k: nat)
    requires k < |lines| && IsFence(lines[k])
    ensures HeldAt(lines, plain)(k) == NOTHING
  {
    HeldIs(lines, plain, k);
  }

  /** A line inside a fence. */
  function FencedLine(lines: seq<string>): nat -> bool {
    (k: nat) => k < |lines| && Contexts(lines)(k) == Fenced && !AtFence(lines)(k)
  }

  lemma FencedLinesRun(lines: seq<string>, i: nat, j: nat)
    requires i < |lines| && Contexts(lines)(i + 1) == Fenced && j == Until(AtFence(lines), i + 1, |lines|)
    ensures forall k: nat :: i < k < j ==> FencedLine(lines)(k)
  {
    CodeStaysOpen(lines, i, j);
  }

  /** What a fence that opens at line `i` and runs up to line `j` adds to a sum. */
  function AddsFence(lines: seq<string>, i: nat, j: nat): (nat -> Found) -> bool
    requires i < j <= |lines|
  {
    (sum: nat -> Found) => sum(End(j + 1, |lines|)) == AddCode(sum(i), Visible(lines[i + 1..j]))
  }

  lemma HoldsCode(found: nat -> Found, lines: seq<string>, plain: string -> string, i: nat, j: nat)
    requires i < j <= |lines| && AddsFence(lines, i, j)(SumTo(found))
    ensures Holds(found, |lines|, plain, i)(Turn(j + 1, Some(Code(lines[i + 1..j]))))
  {
    BothCode(UpTo(found, i), Visible(lines[i + 1..j]));
  }

  lemma FencedSum(sum: nat -> Found, lines: seq<string>, i: nat, j: nat)
    requires i < j <= |lines| && sum(i + 1) == sum(i) && (j < |lines| ==> sum(j + 1) == sum(j))
    requires forall k: nat :: i < k < j ==> Collects(sum, lines, k)
    ensures AddsFence(lines, i, j)(sum)
  {
    CollectRun(sum, lines, i + 1, j);
  }

  lemma HoldsFenced(found: nat -> Found, lines: seq<string>, plain: string -> string, i: nat, t: Turn, j: nat)
    requires i < j <= |lines| && t == Turn(j + 1, Some(Code(lines[i + 1..j])))
    requires found(i) == NOTHING && (j < |lines| ==> found(j) == NOTHING)
    requires forall k: nat :: i < k < j ==> ShowsLine(found(k), lines[k])
    ensures Holds(found, |lines|, plain, i)(t)
  {
    SumSkips(found, i);
    forall k: nat | i + 1 <= k < j ensures Collects(SumTo(found), lines, k) { SumCollects(found, lines, k); }
    if j < |lines| { SumSkips(found, j); }
    FencedSum(SumTo(found), lines, i, j);
    HoldsCode(found, lines, plain, i, j);
  }

  lemma FencedTurnHolds(lines: seq<string>, plain: string -> string, i: nat, t: Turn, j: nat)
    requires i < |lines| && IsFence(lines[i]) && Contexts(lines)(i + 1) == Fenced
    requires !CarriedAt(lines)(i) && j == Until(AtFence(lines), i + 1, |lines|)
    requires t == Turn(j + 1, Some(Code(lines[i + 1..j])))
    ensures Holds(HeldAt(lines, plain), |lines|, plain, i)(t)
  {
    FenceHoldsNothing(lines, plain, i);
    if j < |lines| { FenceHoldsNothing(lines, plain, j); }
    FencedLinesRun(lines, i, j);
    forall k: nat | i < k < j ensures ShowsLine(HeldAt(lines, plain)(k), lines[k]) { HeldFenced(lines, plain, k); }
    HoldsFenced(HeldAt(lines, plain), lines, plain, i, t, j);
  }

  lemma OtherTurnHolds(lines: seq<string>, plain: string -> string, i: nat, t: Turn)
    requires i < |lines| && !CarriedAt(lines)(i) && Opens(lines, i) != Fenced && Opens(lines, i) != Stopped
    requires TakeTurn(lines, i) == t
    ensures Holds(HeldAt(lines, plain), |lines|, plain, i)(t)
  {
    TurnCovers(lines, i);
    OpensNext(lines, i);
    StartHolds(lines, plain, i);
    PlainTurnHolds(lines, plain, i, t);
  }

  lemma TurnHolds(lines: seq<string>, plain: string -> string, i: nat)
    requires i < |lines| && !CarriedAt(lines)(i) && Opens(lines, i) != Stopped
    ensures Holds(HeldAt(lines, plain), |lines|, plain, i)(TakeTurn(lines, i))
  {
    var t := TakeTurn(lines, i);
    if Opens(lines, i) == Fenced {
      FenceOpens(lines, i);
      OpensNext(lines, i);
      FencedTurnHolds(lines, plain, i, t, Until(AtFence(lines), i + 1, |lines|));
    } else {
      OtherTurnHolds(lines, plain, i, t);
    }
  }

  // ---------------------------------------------------------------- whole documents

  function AllFound(spans: seq<Span>, plain: string -> string): Found {
    Found(AllTitles(spans, plain), AllCode(spans))
  }

  /**
    A turn at a line that starts anew either never advances, or ends where another one can start and holds
    what its lines hold.
   */
  ghost predicate Adds(turn: nat -> Turn, found: nat -> Found, carried: nat -> bool, plain: string -> string, n: nat) {
    forall i: nat :: i < n && !carried(i) && turn(i).next > i ==>
      && Covers(carried, n, i)(turn(i).next) && Holds(found, n, plain, i)(turn(i))
  }

  lemma {:induction false} AddsUp(
    turn: nat -> Turn, found: nat -> Found, carried: nat -> bool, plain: string -> string, n: nat, i: nat)
    requires Adds(turn, found, carried, plain, n) && i <= n && (i < n ==> !carried(i))
    ensures var r := ParseFrom(turn, n, i);
      && UpTo(found, Reach(r, n)) == Both(UpTo(found, i), AllFound(r.spans, plain))
      && (r.Stuck? ==> r.at < n && !carried(r.at))
    decreases n - i
  {
    var r := ParseFrom(turn, n, i);
    if i == n || turn(i).next <= i {
      assert r.spans == [];
      BothNothing(UpTo(found, i), []);
    } else {
      var t := turn(i);
      assert Covers(carried, n, i)(t.next) && Holds(found, n, plain, i)(t);
      SpanAndRest(t, i, ParseFrom(turn, n, t.next).spans, plain);
      if t.next <= n {
        AddsUp(turn, found, carried, plain, n, t.next);
        BothTwice(UpTo(found, i), FoundIn(t.block, plain), AllFound(ParseFrom(turn, n, t.next).spans, plain));
      } else {
        BothNothing(FoundIn(t.block, plain), []);
      }
    }
  }

  lemma SpanAndRest(t: Turn, i: nat, later: seq<Span>, plain: string -> string)
    ensures AllTitles(SpanOf(t, i) + later, plain) == TitlesIn(t.block, plain) + AllTitles(later, plain)
    ensures AllCode(SpanOf(t, i) + later) == CodeIn(t.block) + AllCode(later)
  {
    var all := SpanOf(t, i) + later;
    if t.block.Some? { assert all[1..] == later; } else { assert all == later; }
  }

  lemma TurnsAdd(lines: seq<string>, plain: string -> string)
    ensures Adds(Turns(lines), HeldAt(lines, plain), CarriedAt(lines), plain, |lines|)
  {
    forall i: nat | i < |lines| && !CarriedAt(lines)(i) && Turns(lines)(i).next > i
      ensures Covers(CarriedAt(lines), |lines|, i)(Turns(lines)(i).next)
      ensures Holds(HeldAt(lines, plain), |lines|, plain, i)(Turns(lines)(i))
    {
      TurnCovers(lines, i);
      OpensNext(lines, i);
      TurnHolds(lines, plain, i);
    }
  }

  /**
    The headings and code of the blocks, for every document: what is found by a scanner that goes
    line by line and asks of each whether it carries on what is open.
   */
  lemma BlocksAreSum(lines: seq<string>, plain: string -> string)
    ensures AllFound(Parsed(lines).spans, plain) == UpTo(HeldAt(lines, plain), ParsedTo(lines))
  {
    TurnsAdd(lines, plain);
    FirstStartsAnew(lines);
    AddsUp(Turns(lines), HeldAt(lines, plain), CarriedAt(lines), plain, |lines|, 0);
    NothingBoth(AllFound(Parsed(lines).spans, plain));
  }

  lemma NothingBoth(a: Found)
    ensures Both(NOTHING, a) == a
  {
    assert [] + a.headings == a.headings && [] + a.code == a.code;
  }

  // ---------------------------------------------------------------- where the two agree

  /** A line on which the scanner and the blocks find the same. */
  predicate Unremarkable(lines: seq<string>, k: nat)
    requires k < |lines|
  {
    SameOn(lines[k], Inside(lines, k), OpenAt(lines, k), Carried(lines, k))
  }

  predicate SameOn(line: string, inside: bool, c: Context, carried: bool) {
    || IsFence(line) || Blank(line)
    || (inside && c == Fenced)
    || (!inside && c != Fenced && (IsTitle(line) ==> !carried))
  }

  lemma SameOnIff(line: string, inside: bool, c: Context, carried: bool, plain: string -> string)
    requires c == Fenced && !IsFence(line) ==> carried
    ensures Scanned(line, inside, plain) == Held(line, c, carried, plain) <==> SameOn(line, inside, c, carried)
  {
    if IsTitle(line) { assert Strip(line) != ""; }
  }

  /** For every document: line by line the two find the same exactly on unremarkable lines. */
  lemma SameIffUnremarkable(lines: seq<string>, plain: string -> string, k: nat)
    requires k < |lines|
    ensures ScannedAt(lines, plain)(k) == HeldAt(lines, plain)(k) <==> Unremarkable(lines, k)
  {
    StaysOpen(lines, k, OpenAt(lines, k));
    SameOnIff(lines[k], Inside(lines, k), OpenAt(lines, k), Carried(lines, k), plain);
  }

  /** A fence line at `k` starts or ends a fence. */
  function FenceStands(lines: seq<string>): nat -> bool {
    (k: nat) => k < |lines| && IsFence(lines[k]) && Carried(lines, k) ==> OpenAt(lines, k) == Fenced
  }

  /** No fence line up to `m` carries on anything but a fence. */
  ghost predicate FencesStand(lines: seq<string>, m: nat) { forall k: nat :: k < m ==> FenceStands(lines)(k) }

  /** The scanner is inside a fence just when one is open. */
  function InStep(lines: seq<string>): nat -> bool {
    (k: nat) => k <= |lines| && (Inside(lines, k) <==> OpenAt(lines, k) == Fenced)
  }

  lemma StepsTogether(lines: seq<string>, k: nat)
    requires k < |lines| && InStep(lines)(k)
    ensures InStep(lines)(k + 1) <==> FenceStands(lines)(k)
  {
    InsideNext(lines, k);
    StaysOpen(lines, k, OpenAt(lines, k));
    if !Carried(lines, k) { OpensNext(lines, k); }
  }

  predicate PassedOn(p: nat -> bool, good: nat -> bool, k: nat) { p(k) ==> (p(k + 1) <==> good(k)) }

  lemma {:induction false} AllAlong(p: nat -> bool, good: nat -> bool, m: nat)
    requires p(0) && forall k: nat :: k < m ==> PassedOn(p, good, k)
    ensures (forall k: nat :: k <= m ==> p(k)) <==> (forall k: nat :: k < m ==> good(k))
  {
    if m > 0 {
      AllAlong(p, good, m - 1);
      assert PassedOn(p, good, m - 1);
      if forall k: nat :: k <= m ==> p(k) { assert p(m - 1) && p(m - 1 + 1); }
      if forall k: nat :: k < m ==> good(k) { assert p(m - 1) && good(m - 1); }
    }
  }

  /** The scanner knows what is inside a fence exactly as long as no fence line carries on something else. */
  lemma InStepIff(lines: seq<string>, m: nat)
    requires m <= |lines|
    ensures (forall k: nat :: k <= m ==> InStep(lines)(k)) <==> FencesStand(lines, m)
  {
    forall k: nat | k < m ensures PassedOn(InStep(lines), FenceStands(lines), k) {
      if InStep(lines)(k) { StepsTogether(lines, k); }
    }
    AllAlong(InStep(lines), FenceStands(lines), m);
  }

  /** A heading that carries on a table or a list. */
  function TitleCarried(lines: seq<string>): nat -> bool {
    (k: nat) => k < |lines| && IsTitle(lines[k]) && OpenAt(lines, k) != Fenced && Carried(lines, k)
  }

  function Count(p: nat -> bool, m: nat): nat {
    if m == 0 then 0 else Count(p, m - 1) + if p(m - 1) then 1 else 0
  }

  lemma {:induction false} CountIsNone(p: nat -> bool, m: nat)
    ensures Count(p, m) == 0 <==> forall k: nat :: k < m ==> !p(k)
  {
    if m > 0 { CountIsNone(p, m - 1); }
  }

  /** The same code, and one heading more if `extra`. */
  predicate Exceeds(a: Found, b: Found, extra: nat) {
    a.code == b.code && |a.headings| == |b.headings| + extra && (extra == 0 ==> a == b)
  }

  lemma InStepFinds(lines: seq<string>, plain: string -> string, k: nat)
    requires k < |lines| && InStep(lines)(k)
    ensures Exceeds(ScannedAt(lines, plain)(k), HeldAt(lines, plain)(k), if TitleCarried(lines)(k) then 1 else 0)
  {
    StaysOpen(lines, k, OpenAt(lines, k));
  }

  lemma {:induction false} SumsCompare(a: nat -> Found, b: nat -> Found, extra: nat -> bool, m: nat)
    requires forall k: nat :: k < m ==> Exceeds(a(k), b(k), if extra(k) then 1 else 0)
    ensures Exceeds(UpTo(a, m), UpTo(b, m), Count(extra, m))
  {
    if m > 0 {
      SumsCompare(a, b, extra, m - 1);
      assert Exceeds(a(m - 1), b(m - 1), if extra(m - 1) then 1 else 0);
      BothExceed(UpTo(a, m - 1), UpTo(b, m - 1), Count(extra, m - 1), a(m - 1), b(m - 1),
        if extra(m - 1) then 1 else 0);
    }
  }

  lemma BothExceed(a: Found, b: Found, m: nat, c: Found, d: Found, n: nat)
    requires Exceeds(a, b, m) && Exceeds(c, d, n)
    ensures Exceeds(Both(a, c), Both(b, d), m + n)
  {
  }

  /**
    When the two scanners agree, up to where the block parser ends (or stalls).  As long as every
    fence line starts or ends a fence, the code lines are always the same, and the headings are if
    and only if no heading line carries on a table or a list.
   */
  lemma ScannersAgreeIff(lines: seq<string>, plain: string -> string)
    requires FencesStand(lines, ParsedTo(lines))
    ensures ParsedTo(lines) <= |lines|
    ensures var sc, spans := ScanTo(lines, plain, ParsedTo(lines)), Parsed(lines).spans;
      && sc.code == AllCode(spans)
      && (sc.headings == AllTitles(spans, plain) <==> forall k: nat :: k < ParsedTo(lines) ==> !TitleCarried(lines)(k))
  {
    var m := ParsedTo(lines);
    ParserGoesTo(lines);
    BlocksAreSum(lines, plain);
    ScanIsSum(lines, plain, m);
    SumsAre(lines, plain, m);
    CountIsNone(TitleCarried(lines), m);
  }

  lemma SumsAre(lines: seq<string>, plain: string -> string, m: nat)
    requires m <= |lines| && FencesStand(lines, m)
    ensures Exceeds(UpTo(ScannedAt(lines, plain), m), UpTo(HeldAt(lines, plain), m), Count(TitleCarried(lines), m))
  {
    InStepIff(lines, m);
    forall k: nat | k < m
      ensures Exceeds(ScannedAt(lines, plain)(k), HeldAt(lines, plain)(k), if TitleCarried(lines)(k) then 1 else 0)
    {
      assert InStep(lines)(k);
      InStepFinds(lines, plain, k);
    }
    SumsCompare(ScannedAt(lines, plain), HeldAt(lines, plain), TitleCarried(lines), m);
  }

  // ---------------------------------------------------------------- read off the text

  /** No fence line outside fences has a pipe or an indentation. */
  predicate TidyFences(lines: seq<string>) {
    forall k: nat :: k < |lines| && !Inside(lines, k) && IsFence(lines[k]) ==> '|' !in lines[k] && !Indented(lines[k])
  }

  /** And no heading line. */
  predicate TidyTitles(lines: seq<string>) {
    forall k: nat :: k < |lines| && !Inside(lines, k) && IsTitle(lines[k]) ==> '|' !in lines[k] && !Indented(lines[k])
  }

  /** What a line looks like that carries on anything but a fence, if the scanner takes note of it. */
  lemma CarriedLooks(lines: seq<string>, k: nat)
    requires k < |lines| && Carried(lines, k) && OpenAt(lines, k) != Fenced && OpenAt(lines, k) != Stopped
    requires IsFence(lines[k]) || IsTitle(lines[k])
    ensures '|' in lines[k] || Indented(lines[k])
  {
    var c := OpenAt(lines, k);
    if c == Head { HeadIsSep(lines, k); SepIsProse(lines[k]); }
    if c == Quoted { QuoteIsProse(lines[k]); }
    if c == Listed && IsItem(lines[k]) { ItemIsProse(lines[k]); }
  }

  lemma HeadIsSep(lines: seq<string>, k: nat)
    requires k < |lines| && OpenAt(lines, k) == Head
    ensures IsSep(lines[k])
  {
    OpensTable(lines, k - 1);
  }

  lemma OpensTable(lines: seq<string>, k: nat)
    requires k < |lines| && After(lines, k, OpenAt(lines, k)) == Head
    ensures k + 1 < |lines| && IsSep(lines[k + 1])
  {
  }

  lemma TidyFenceStands(lines: seq<string>, k: nat)
    requires TidyFences(lines) && k < |lines| && Contexts(lines)(k) != Stopped && InStep(lines)(k)
    ensures FenceStands(lines)(k)
  {
    if IsFence(lines[k]) && Carried(lines, k) && OpenAt(lines, k) != Fenced { CarriedLooks(lines, k); }
  }

  predicate Follows(p: nat -> bool, good: nat -> bool, k: nat) { p(k) ==> good(k) && p(k + 1) }

  lemma {:induction false} AllFollow(p: nat -> bool, good: nat -> bool, m: nat)
    requires p(0) && forall k: nat :: k < m ==> Follows(p, good, k)
    ensures p(m) && forall k: nat :: k < m ==> good(k)
  {
    if m > 0 {
      AllFollow(p, good, m - 1);
      assert Follows(p, good, m - 1);
    }
  }

  /** Tidy fence lines start and end fences. */
  lemma TidyFencesStand(lines: seq<string>, m: nat)
    requires TidyFences(lines) && m <= |lines| && Going(Contexts(lines), 0, m)
    ensures FencesStand(lines, m)
  {
    forall k: nat | k < m ensures Follows(InStep(lines), FenceStands(lines), k) {
      if InStep(lines)(k) {
        TidyFenceStands(lines, k);
        StepsTogether(lines, k);
      }
    }
    AllFollow(InStep(lines), FenceStands(lines), m);
  }

  lemma TidyTitleStands(lines: seq<string>, k: nat)
    requires TidyTitles(lines) && k < |lines| && Contexts(lines)(k) != Stopped && InStep(lines)(k)
    ensures !TitleCarried(lines)(k)
  {
    if TitleCarried(lines)(k) { CarriedLooks(lines, k); }
  }

  /** Where headings and fences have no pipe and no indentation, the two scanners agree. */
  lemma ScannersAgree(lines: seq<string>, plain: string -> string)
    requires TidyFences(lines) && TidyTitles(lines)
    ensures ParsedTo(lines) <= |lines|
    ensures var sc, spans := ScanTo(lines, plain, ParsedTo(lines)), Parsed(lines).spans;
      sc.headings == AllTitles(spans, plain) && sc.code == AllCode(spans)
  {
    ParserGoesTo(lines);
    TidyFencesStand(lines, ParsedTo(lines));
    InStepIff(lines, ParsedTo(lines));
    forall k: nat | k < ParsedTo(lines) ensures !TitleCarried(lines)(k) {
      assert InStep(lines)(k);
      TidyTitleStands(lines, k);
    }
    ScannersAgreeIff(lines, plain);
  }
}
