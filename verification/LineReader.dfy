/**
  The block structure of a document read one line at a time: what each line leaves open for the
  next.  The nested loops of the block parser of tools/md-to-pdf.py come to the same.
 */
module LineReader {
  import opened MdLines
  import opened Blocks
  import opened BlockRuns

  /**
    What is open before a line: nothing, a fence, a table whose separator line is next, its rows,
    a quote, a list, a paragraph, or a bare marker that the parser never gets past.
   */
  datatype Context = Fresh | Fenced | Head | Rows | Quoted | Listed | Wrapped | Stopped

  /** Whether line `k` goes on with what is open. */
  predicate Carries(lines: seq<string>, k: nat, c: Context)
    requires k < |lines|
  {
    match c
    case Fresh => false
    case Rows => IsRow(lines[k])
    case Quoted => IsQuote(lines[k])
    case Listed => InList(lines[k])
    case Wrapped => !EndsPara(lines, k)
    case _ => true
  }

  /** What a line leaves open that goes on with `c`. */
  function Stays(line: string, c: Context): Context {
    if c.Head? then Rows else if c.Fenced? && IsFence(line) then Fresh else c
  }

  /** What a line leaves open that starts anew. */
  function Opens(lines: seq<string>, k: nat): Context
    requires k < |lines|
  {
    var s := Strip(lines[k]);
    if s == "" then Fresh
    else if IsFence(lines[k]) then Fenced
    else if IsRule(s) || IsHeading(s) then Fresh
    else if StartsTable(lines, k) then Head
    else if IsQuote(lines[k]) then Quoted
    else if IsItem(lines[k]) then Listed
    else if EndsPara(lines, k) then Stopped
    else Wrapped
  }

  function After(lines: seq<string>, k: nat, c: Context): Context
    requires k < |lines|
  {
    if Carries(lines, k, c) then Stays(lines[k], c) else Opens(lines, k)
  }

  /** What is open before line `k`. */
  function OpenAt(lines: seq<string>, k: nat): Context
    requires k <= |lines|
  {
    if k == 0 then Fresh else After(lines, k - 1, OpenAt(lines, k - 1))
  }

  /** Line `k` goes on with a block that began earlier. */
  predicate Carried(lines: seq<string>, k: nat)
    requires k < |lines|
  {
    Carries(lines, k, OpenAt(lines, k))
  }

  // ---------------------------------------------------------------- loops

  /** The same as functions of the line's number. */
  function Contexts(lines: seq<string>): nat -> Context { (k: nat) => if k <= |lines| then OpenAt(lines, k) else Fresh }

  function CarriedAt(lines: seq<string>): nat -> bool { (k: nat) => k < |lines| && Carried(lines, k) }

  /** What a turn covers that starts at `i`: all lines that carry on, up to the next that starts anew. */
  function Covers(carried: nat -> bool, n: nat, i: nat): nat -> bool {
    (next: nat) =>
      && i < next <= n + 1
      && (forall k: nat :: i < k < next && k < n ==> carried(k))
      && (next < n ==> !carried(next))
  }

  predicate KeepsOpen(before: nat -> Context, c: Context, a: nat, j: nat) {
    forall k: nat :: a <= k <= j ==> before(k) == c
  }

  /** At a line before which `c` is open, a loop stops just when the line does not carry `c` on. */
  predicate LoopStep(before: nat -> Context, carried: nat -> bool, c: Context, stop: nat -> bool, k: nat) {
    before(k) == c ==> (carried(k) <==> !stop(k)) && (!stop(k) ==> before(k + 1) == c)
  }

  lemma {:induction false} LoopKeepsOpen(
    before: nat -> Context, carried: nat -> bool, c: Context, stop: nat -> bool, a: nat, j: nat)
    requires a <= j && before(a) == c
    requires forall k: nat :: a <= k < j ==> LoopStep(before, carried, c, stop, k) && !stop(k)
    ensures KeepsOpen(before, c, a, j)
    decreases j
  {
    if a < j {
      LoopKeepsOpen(before, carried, c, stop, a, j - 1);
      assert LoopStep(before, carried, c, stop, j - 1) && before(j - 1) == c;
    }
  }

  lemma LoopCovers(
    before: nat -> Context, carried: nat -> bool, c: Context, stop: nat -> bool, n: nat, i: nat, a: nat, j: nat)
    requires i < a <= n && j == Until(stop, a, n)
    requires before(a) == c && forall k: nat :: i < k < a ==> carried(k)
    requires forall k: nat :: a <= k < n ==> LoopStep(before, carried, c, stop, k)
    ensures Covers(carried, n, i)(j) && KeepsOpen(before, c, a, j)
  {
    LoopKeepsOpen(before, carried, c, stop, a, j);
    forall k: nat | i < k < j ensures carried(k) {
      if k >= a { assert LoopStep(before, carried, c, stop, k) && before(k) == c; }
    }
    if j < n { assert LoopStep(before, carried, c, stop, j) && before(j) == c; }
  }

  lemma CoversOneMore(carried: nat -> bool, n: nat, i: nat, next: nat)
    requires carried(i + 1) && Covers(carried, n, i + 1)(next)
    ensures Covers(carried, n, i)(next)
  {
  }

  /** A first line that the loop itself would take. */
  lemma UntilPast(stop: nat -> bool, i: nat, n: nat)
    requires i < n && !stop(i)
    ensures Until(stop, i, n) == Until(stop, i + 1, n)
  {
  }

  // ---------------------------------------------------------------- the loops of the parser

  lemma OpensNext(lines: seq<string>, i: nat)
    requires i < |lines| && !CarriedAt(lines)(i)
    ensures Contexts(lines)(i + 1) == Opens(lines, i)
  {
  }

  lemma StaysOpen(lines: seq<string>, k: nat, c: Context)
    requires k < |lines| && Contexts(lines)(k) == c
    ensures CarriedAt(lines)(k) == Carries(lines, k, c)
    ensures Carries(lines, k, c) ==> Contexts(lines)(k + 1) == Stays(lines[k], c)
  {
  }

  lemma RowsStep(lines: seq<string>, k: nat)
    requires k < |lines|
    ensures LoopStep(Contexts(lines), CarriedAt(lines), Rows, AfterRows(lines), k)
  {
    if Contexts(lines)(k) == Rows { StaysOpen(lines, k, Rows); }
  }

  lemma RowsSteps(lines: seq<string>)
    ensures forall k: nat :: k < |lines| ==> LoopStep(Contexts(lines), CarriedAt(lines), Rows, AfterRows(lines), k)
  {
    forall k: nat | k < |lines| ensures LoopStep(Contexts(lines), CarriedAt(lines), Rows, AfterRows(lines), k) {
      RowsStep(lines, k);
    }
  }

  lemma QuoteStep(lines: seq<string>, k: nat)
    requires k < |lines|
    ensures LoopStep(Contexts(lines), CarriedAt(lines), Quoted, AfterQuote(lines), k)
  {
    if Contexts(lines)(k) == Quoted { StaysOpen(lines, k, Quoted); }
  }

  lemma QuoteSteps(lines: seq<string>)
    ensures forall k: nat :: k < |lines| ==> LoopStep(Contexts(lines), CarriedAt(lines), Quoted, AfterQuote(lines), k)
  {
    forall k: nat | k < |lines| ensures LoopStep(Contexts(lines), CarriedAt(lines), Quoted, AfterQuote(lines), k) {
      QuoteStep(lines, k);
    }
  }

  lemma ListStep(lines: seq<string>, k: nat)
    requires k < |lines|
    ensures LoopStep(Contexts(lines), CarriedAt(lines), Listed, AfterList(lines), k)
  {
    if Contexts(lines)(k) == Listed { StaysOpen(lines, k, Listed); }
  }

  lemma ListSteps(lines: seq<string>)
    ensures forall k: nat :: k < |lines| ==> LoopStep(Contexts(lines), CarriedAt(lines), Listed, AfterList(lines), k)
  {
    forall k: nat | k < |lines| ensures LoopStep(Contexts(lines), CarriedAt(lines), Listed, AfterList(lines), k) {
      ListStep(lines, k);
    }
  }

  lemma ParaStep(lines: seq<string>, k: nat)
    requires k < |lines|
    ensures LoopStep(Contexts(lines), CarriedAt(lines), Wrapped, AfterPara(lines), k)
  {
    if Contexts(lines)(k) == Wrapped { StaysOpen(lines, k, Wrapped); }
  }

  lemma ParaSteps(lines: seq<string>)
    ensures forall k: nat :: k < |lines| ==> LoopStep(Contexts(lines), CarriedAt(lines), Wrapped, AfterPara(lines), k)
  {
    forall k: nat | k < |lines| ensures LoopStep(Contexts(lines), CarriedAt(lines), Wrapped, AfterPara(lines), k) {
      ParaStep(lines, k);
    }
  }

  lemma HeadStep(lines: seq<string>, k: nat, next: nat)
    requires k < |lines| && next == k + 1 && Contexts(lines)(k) == Head
    ensures CarriedAt(lines)(k) && Contexts(lines)(next) == Rows
  {
    StaysOpen(lines, k, Head);
  }

  lemma TableCovers(lines: seq<string>, i: nat, next: nat)
    requires i + 1 < |lines| && !CarriedAt(lines)(i) && Contexts(lines)(i + 1) == Head
    requires next == Until(AfterRows(lines), i + 2, |lines|)
    ensures Covers(CarriedAt(lines), |lines|, i)(next)
  {
    HeadStep(lines, i + 1, i + 2);
    RowsSteps(lines);
    LoopCovers(Contexts(lines), CarriedAt(lines), Rows, AfterRows(lines), |lines|, i + 1, i + 2, next);
    CoversOneMore(CarriedAt(lines), |lines|, i, next);
  }

  lemma QuoteCovers(lines: seq<string>, i: nat, next: nat)
    requires i < |lines| && !CarriedAt(lines)(i) && Contexts(lines)(i + 1) == Quoted && IsQuote(lines[i])
    requires next == Until(AfterQuote(lines), i, |lines|)
    ensures Covers(CarriedAt(lines), |lines|, i)(next)
  {
    QuoteSteps(lines);
    UntilPast(AfterQuote(lines), i, |lines|);
    LoopCovers(Contexts(lines), CarriedAt(lines), Quoted, AfterQuote(lines), |lines|, i, i + 1, next);
  }

  lemma ListCovers(lines: seq<string>, i: nat, next: nat)
    requires i < |lines| && !CarriedAt(lines)(i) && Contexts(lines)(i + 1) == Listed && IsItem(lines[i])
    requires next == Until(AfterList(lines), i, |lines|)
    ensures Covers(CarriedAt(lines), |lines|, i)(next)
  {
    ListSteps(lines);
    UntilPast(AfterList(lines), i, |lines|);
    LoopCovers(Contexts(lines), CarriedAt(lines), Listed, AfterList(lines), |lines|, i, i + 1, next);
  }

  lemma ParaCovers(lines: seq<string>, i: nat, next: nat)
    requires i < |lines| && !CarriedAt(lines)(i) && Contexts(lines)(i + 1) == Wrapped && !EndsPara(lines, i)
    requires next == Until(AfterPara(lines), i, |lines|)
    ensures Covers(CarriedAt(lines), |lines|, i)(next)
  {
    ParaSteps(lines);
    UntilPast(AfterPara(lines), i, |lines|);
    LoopCovers(Contexts(lines), CarriedAt(lines), Wrapped, AfterPara(lines), |lines|, i, i + 1, next);
  }

  /** Inside a fence every line carries on, and the next fence line is the last to do so. */
  predicate FenceRun(before: nat -> Context, carried: nat -> bool, fence: nat -> bool, k: nat) {
    before(k) == Fenced ==> carried(k) && before(k + 1) == if fence(k) then Fresh else Fenced
  }

  lemma FenceStep(lines: seq<string>, k: nat)
    requires k < |lines|
    ensures Contexts(lines)(k) == Fenced ==>
      CarriedAt(lines)(k) && Contexts(lines)(k + 1) == if AtFence(lines)(k) then Fresh else Fenced
  {
    if Contexts(lines)(k) == Fenced { StaysOpen(lines, k, Fenced); }
  }

  lemma FenceSteps(lines: seq<string>)
    ensures forall k: nat :: k < |lines| ==> FenceRun(Contexts(lines), CarriedAt(lines), AtFence(lines), k)
    ensures forall k: nat :: Contexts(lines)(k) == Fresh ==> !CarriedAt(lines)(k)
  {
    forall k: nat | k < |lines| ensures FenceRun(Contexts(lines), CarriedAt(lines), AtFence(lines), k) {
      FenceStep(lines, k);
    }
  }

  lemma FenceCovers(
    before: nat -> Context, carried: nat -> bool, fence: nat -> bool, n: nat, i: nat, j: nat, next: nat)
    requires i < n && before(i + 1) == Fenced && j == Until(fence, i + 1, n) && next == j + 1
    requires forall k: nat :: k < n ==> FenceRun(before, carried, fence, k)
    requires forall k: nat :: before(k) == Fresh ==> !carried(k)
    ensures Covers(carried, n, i)(next)
  {
    StaysFenced(before, carried, fence, n, i + 1, j);
    forall k: nat | i < k <= j && k < n ensures carried(k) { assert FenceRun(before, carried, fence, k); }
    if j < n { assert FenceRun(before, carried, fence, j); }
  }

  lemma {:induction false} StaysFenced(
    before: nat -> Context, carried: nat -> bool, fence: nat -> bool, n: nat, a: nat, j: nat)
    requires a <= j <= n && before(a) == Fenced && forall k: nat :: a <= k < j ==> !fence(k)
    requires forall k: nat :: k < n ==> FenceRun(before, carried, fence, k)
    ensures KeepsOpen(before, Fenced, a, j)
    decreases j
  {
    if a < j {
      StaysFenced(before, carried, fence, n, a, j - 1);
      assert FenceRun(before, carried, fence, j - 1) && !fence(j - 1);
    }
  }

  lemma CodeCovers(lines: seq<string>, i: nat, next: nat)
    requires i < |lines| && Contexts(lines)(i + 1) == Fenced && next == Until(AtFence(lines), i + 1, |lines|) + 1
    ensures Covers(CarriedAt(lines), |lines|, i)(next)
  {
    FenceSteps(lines);
    FenceCovers(Contexts(lines), CarriedAt(lines), AtFence(lines), |lines|, i, next - 1, next);
  }

  lemma CodeStaysOpen(lines: seq<string>, i: nat, j: nat)
    requires i < |lines| && Contexts(lines)(i + 1) == Fenced && j == Until(AtFence(lines), i + 1, |lines|)
    ensures KeepsOpen(Contexts(lines), Fenced, i + 1, j)
  {
    FenceSteps(lines);
    StaysFenced(Contexts(lines), CarriedAt(lines), AtFence(lines), |lines|, i + 1, j);
  }

  lemma LineCovers(lines: seq<string>, i: nat)
    requires i < |lines| && !CarriedAt(lines)(i) && Contexts(lines)(i + 1) == Fresh
    ensures Covers(CarriedAt(lines), |lines|, i)(i + 1)
  {
  }

  /** Where the turn ends that starts at `i` and opens `c`. */
  function EndsAt(lines: seq<string>, i: nat, c: Context): nat -> bool
    requires i < |lines|
  {
    (next: nat) =>
      match c
      case Fresh => next == i + 1
      case Fenced => next == Until(AtFence(lines), i + 1, |lines|) + 1
      case Head => i + 1 < |lines| && next == Until(AfterRows(lines), i + 2, |lines|)
      case Rows => false
      case Quoted => IsQuote(lines[i]) && next == Until(AfterQuote(lines), i, |lines|)
      case Listed => IsItem(lines[i]) && next == Until(AfterList(lines), i, |lines|)
      case Wrapped => !EndsPara(lines, i) && next == Until(AfterPara(lines), i, |lines|)
      case Stopped => next == i
  }

  lemma WhichTurn(lines: seq<string>, i: nat)
    requires i < |lines|
    ensures EndsAt(lines, i, Opens(lines, i))(TakeTurn(lines, i).next)
  {
    var s := Strip(lines[i]);
    if s != "" && !IsFence(lines[i]) && !IsRule(s) && !IsHeading(s) { WhichGroup(lines, i); }
  }

  lemma WhichGroup(lines: seq<string>, i: nat)
    requires i < |lines| && Strip(lines[i]) != "" && !IsFence(lines[i]) && !IsRule(Strip(lines[i]))
      && !IsHeading(Strip(lines[i]))
    ensures EndsAt(lines, i, Opens(lines, i))(TakeTurn(lines, i).next)
  {
    if StartsTable(lines, i) {
      assert TakeTurn(lines, i) == TableTurn(lines, i);
    } else if IsQuote(lines[i]) {
      assert TakeTurn(lines, i) == QuoteTurn(lines, i);
    } else if IsItem(lines[i]) {
      assert TakeTurn(lines, i) == ListTurn(lines, i);
    } else {
      assert TakeTurn(lines, i) == ParaTurn(lines, i);
    }
  }

  /** A turn that ends there covers what carries its first line on. */
  function TurnCovering(lines: seq<string>, i: nat, next: nat): Context -> bool
    requires i < |lines|
  {
    (c: Context) => EndsAt(lines, i, c)(next) ==> Covers(CarriedAt(lines), |lines|, i)(next)
  }

  lemma FreshCovering(lines: seq<string>, i: nat, next: nat)
    requires i < |lines| && !CarriedAt(lines)(i) && Contexts(lines)(i + 1) == Fresh
    ensures TurnCovering(lines, i, next)(Fresh)
  {
    if EndsAt(lines, i, Fresh)(next) { LineCovers(lines, i); }
  }

  lemma FencedCovering(lines: seq<string>, i: nat, next: nat)
    requires i < |lines| && !CarriedAt(lines)(i) && Contexts(lines)(i + 1) == Fenced
    ensures TurnCovering(lines, i, next)(Fenced)
  {
    if EndsAt(lines, i, Fenced)(next) { CodeCovers(lines, i, next); }
  }

  lemma HeadCovering(lines: seq<string>, i: nat, next: nat)
    requires i < |lines| && !CarriedAt(lines)(i) && Contexts(lines)(i + 1) == Head
    ensures TurnCovering(lines, i, next)(Head)
  {
    if EndsAt(lines, i, Head)(next) { TableCovers(lines, i, next); }
  }

  lemma QuotedCovering(lines: seq<string>, i: nat, next: nat)
    requires i < |lines| && !CarriedAt(lines)(i) && Contexts(lines)(i + 1) == Quoted
    ensures TurnCovering(lines, i, next)(Quoted)
  {
    if EndsAt(lines, i, Quoted)(next) { QuoteCovers(lines, i, next); }
  }

  lemma ListedCovering(lines: seq<string>, i: nat, next: nat)
    requires i < |lines| && !CarriedAt(lines)(i) && Contexts(lines)(i + 1) == Listed
    ensures TurnCovering(lines, i, next)(Listed)
  {
    if EndsAt(lines, i, Listed)(next) { ListCovers(lines, i, next); }
  }

  lemma WrappedCovering(lines: seq<string>, i: nat, next: nat)
    requires i < |lines| && !CarriedAt(lines)(i) && Contexts(lines)(i + 1) == Wrapped
    ensures TurnCovering(lines, i, next)(Wrapped)
  {
    if EndsAt(lines, i, Wrapped)(next) { ParaCovers(lines, i, next); }
  }

  lemma TurnCoversTo(lines: seq<string>, i: nat, c: Context, next: nat)
    requires i < |lines| && !CarriedAt(lines)(i) && Contexts(lines)(i + 1) == c && c != Stopped
    ensures TurnCovering(lines, i, next)(c)
  {
    match c
    case Fresh => FreshCovering(lines, i, next);
    case Fenced => FencedCovering(lines, i, next);
    case Head => HeadCovering(lines, i, next);
    case Quoted => QuotedCovering(lines, i, next);
    case Listed => ListedCovering(lines, i, next);
    case Wrapped => WrappedCovering(lines, i, next);
  }

  /**
    Every turn starts at a line that starts anew, covers what carries that on, and advances unless it stops
    for ever.
   */
  lemma TurnCovers(lines: seq<string>, i: nat)
    requires i < |lines| && !CarriedAt(lines)(i)
    ensures Contexts(lines)(i + 1) == Stopped ==> TakeTurn(lines, i).next == i
    ensures Contexts(lines)(i + 1) != Stopped ==> Covers(CarriedAt(lines), |lines|, i)(TakeTurn(lines, i).next)
  {
    WhichTurn(lines, i);
    OpensNext(lines, i);
    if Contexts(lines)(i + 1) != Stopped { TurnCoversTo(lines, i, Contexts(lines)(i + 1), TakeTurn(lines, i).next); }
  }

  // ---------------------------------------------------------------- whole runs

  function End(next: nat, n: nat): nat { if next <= n then next else n }

  /** Only a line that starts anew opens a fence or stops the parser. */
  predicate OpensAnew(before: nat -> Context, carried: nat -> bool, x: Context, k: nat) {
    carried(k) && before(k) != x ==> before(k + 1) != x
  }

  lemma OnlyOpened(lines: seq<string>, k: nat, x: Context)
    requires k < |lines| && (x == Fenced || x == Stopped)
    ensures OpensAnew(Contexts(lines), CarriedAt(lines), x, k)
  {
    if CarriedAt(lines)(k) { StaysOpen(lines, k, Contexts(lines)(k)); }
  }

  lemma {:induction false} NeverFrom(before: nat -> Context, carried: nat -> bool, x: Context, i: nat, k: nat)
    requires i < k && before(i + 1) != x && forall m: nat :: i < m < k ==> carried(m)
    requires forall m: nat :: m < k ==> OpensAnew(before, carried, x, m)
    ensures before(k) != x
  {
    if i + 1 < k {
      NeverFrom(before, carried, x, i, k - 1);
      assert carried(k - 1) && OpensAnew(before, carried, x, k - 1);
    }
  }

  lemma NeverOpened(lines: seq<string>, i: nat, k: nat, x: Context)
    requires i < k <= |lines| && Contexts(lines)(i + 1) != x && (x == Fenced || x == Stopped)
    requires forall m: nat :: i < m < k ==> CarriedAt(lines)(m)
    ensures Contexts(lines)(k) != x
  {
    forall m: nat | m < k ensures OpensAnew(Contexts(lines), CarriedAt(lines), x, m) { OnlyOpened(lines, m, x); }
    NeverFrom(Contexts(lines), CarriedAt(lines), x, i, k);
  }

  /** The lines from `i` up to `j` leave the parser going. */
  predicate Going(before: nat -> Context, i: nat, j: nat) {
    forall k: nat :: i <= k <= j ==> before(k) != Stopped
  }

  /** What holds of the turn at a line that starts anew. */
  predicate Proceeds(turn: nat -> Turn, before: nat -> Context, carried: nat -> bool, n: nat, i: nat) {
    !carried(i) ==>
      if turn(i).next <= i then before(i + 1) == Stopped
      else Covers(carried, n, i)(turn(i).next) && Going(before, i + 1, End(turn(i).next, n))
  }

  lemma TurnProceeds(lines: seq<string>, i: nat)
    requires i < |lines|
    ensures Proceeds(Turns(lines), Contexts(lines), CarriedAt(lines), |lines|, i)
  {
    if !CarriedAt(lines)(i) {
      TurnCovers(lines, i);
      if Contexts(lines)(i + 1) != Stopped { TurnGoesOn(lines, i, TakeTurn(lines, i).next); }
    }
  }

  lemma TurnGoesOn(lines: seq<string>, i: nat, next: nat)
    requires i < |lines| && Contexts(lines)(i + 1) != Stopped && Covers(CarriedAt(lines), |lines|, i)(next)
    ensures next > i && Going(Contexts(lines), i + 1, End(next, |lines|))
  {
    forall k: nat | i + 1 <= k <= End(next, |lines|) ensures Contexts(lines)(k) != Stopped {
      NeverOpened(lines, i, k, Stopped);
    }
  }

  lemma AllProceed(lines: seq<string>)
    ensures forall k: nat :: k < |lines| ==> Proceeds(Turns(lines), Contexts(lines), CarriedAt(lines), |lines|, k)
  {
    forall k: nat | k < |lines| ensures Proceeds(Turns(lines), Contexts(lines), CarriedAt(lines), |lines|, k) {
      TurnProceeds(lines, k);
    }
  }

  lemma {:induction false} GoesTo(turn: nat -> Turn, before: nat -> Context, carried: nat -> bool, n: nat, i: nat)
    requires forall k: nat :: k < n ==> Proceeds(turn, before, carried, n, k)
    requires i <= n && before(i) != Stopped && (i < n ==> !carried(i))
    ensures var r := ParseFrom(turn, n, i);
      && Reach(r, n) <= n && Going(before, i, Reach(r, n))
      && (r.Stuck? ==> r.at < n && !carried(r.at) && before(r.at + 1) == Stopped)
    decreases n - i
  {
    if i < n {
      assert Proceeds(turn, before, carried, n, i);
      if i < turn(i).next <= n { GoesTo(turn, before, carried, n, turn(i).next); }
    }
  }

  /** Whether a line stops the parser. */
  function StopsAt(before: nat -> Context): nat -> bool { (k: nat) => before(k + 1) == Stopped }

  /** How far the parser gets. */
  function ParsedTo(lines: seq<string>): nat { Reach(Parsed(lines), |lines|) }

  /** The parser goes on as long as nothing has stopped it, and is stuck exactly at the line that does. */
  lemma ParserGoesTo(lines: seq<string>)
    ensures ParsedTo(lines) <= |lines| && Going(Contexts(lines), 0, ParsedTo(lines))
    ensures Parsed(lines).Stuck? ==> !CarriedAt(lines)(ParsedTo(lines)) && ParsedTo(lines) < |lines|
    ensures Parsed(lines).Stuck? ==> StopsAt(Contexts(lines))(ParsedTo(lines))
  {
    AllProceed(lines);
    FirstStartsAnew(lines);
    RunGoesTo(Turns(lines), Contexts(lines), CarriedAt(lines), |lines|, Parsed(lines));
  }

  lemma RunGoesTo(turn: nat -> Turn, before: nat -> Context, carried: nat -> bool, n: nat, r: Outcome)
    requires forall k: nat :: k < n ==> Proceeds(turn, before, carried, n, k)
    requires r == ParseFrom(turn, n, 0) && before(0) != Stopped && !carried(0)
    ensures Reach(r, n) <= n && Going(before, 0, Reach(r, n))
    ensures r.Stuck? ==> !carried(Reach(r, n)) && Reach(r, n) < n
    ensures r.Stuck? ==> StopsAt(before)(Reach(r, n))
  {
    GoesTo(turn, before, carried, n, 0);
  }

  lemma FirstStartsAnew(lines: seq<string>)
    ensures !CarriedAt(lines)(0) && Contexts(lines)(0) == Fresh
  {
  }

  function Never(): nat -> bool { (k: nat) => false }

  lemma StoppedStep(lines: seq<string>, k: nat)
    requires k < |lines|
    ensures LoopStep(Contexts(lines), CarriedAt(lines), Stopped, Never(), k)
  {
    if Contexts(lines)(k) == Stopped { StaysOpen(lines, k, Stopped); }
  }

  lemma StopsForGood(lines: seq<string>, k: nat)
    requires k < |lines| && StopsAt(Contexts(lines))(k)
    ensures Contexts(lines)(|lines|) == Stopped
  {
    forall m: nat | m < |lines| ensures LoopStep(Contexts(lines), CarriedAt(lines), Stopped, Never(), m) {
      StoppedStep(lines, m);
    }
    StaysStopped(Contexts(lines), CarriedAt(lines), k, |lines|);
  }

  lemma StaysStopped(before: nat -> Context, carried: nat -> bool, k: nat, n: nat)
    requires k < n && StopsAt(before)(k) && forall m: nat :: m < n ==> LoopStep(before, carried, Stopped, Never(), m)
    ensures before(n) == Stopped
  {
    LoopKeepsOpen(before, carried, Stopped, Never(), k + 1, n);
  }

  lemma DoneGoesOn(lines: seq<string>)
    requires Parsed(lines).Done?
    ensures Contexts(lines)(|lines|) != Stopped
  {
    ParserGoesTo(lines);
    assert ParsedTo(lines) == |lines|;
  }

  lemma StuckStops(lines: seq<string>)
    requires Parsed(lines).Stuck?
    ensures Contexts(lines)(|lines|) == Stopped
  {
    ParserGoesTo(lines);
    StopsForGood(lines, ParsedTo(lines));
  }

  /** For every document: the parser never ends if and only if the line reader ends at a stop. */
  lemma StuckIff(lines: seq<string>)
    ensures Parsed(lines).Stuck? <==> Contexts(lines)(|lines|) == Stopped
    ensures Contexts(lines)(|lines|) == OpenAt(lines, |lines|)
  {
    if Parsed(lines).Done? { DoneGoesOn(lines); } else { StuckStops(lines); }
  }
}
