/** `col_widths` of tools/md-to-pdf.py, over the reals: proportional column widths with a floor. */
module ColWidths {
  import opened Reals
  import opened Text

  /** Points in a millimetre, the width between the margins of an A4 page, and the floor. */
  const MM: real := 72.0 / 25.4
  const CONTENT_W: real := 210.0 * MM - 2.0 * (18.0 * MM)
  const FLOOR: real := 15.0 * MM

  // ---------------------------------------------------------------- weights

  /** What is left of a cell: `re.sub(r"[*`\[\]]|\(.*?\)", "", t)`. */
  function Clean(t: string): string
    decreases |t|
  {
    if t == "" then ""
    else if t[0] in "*`[]" then Clean(t[1..])
    else if t[0] == '(' && ')' in t then Clean(t[IndexOf(t, ')') + 1..])
    else [t[0]] + Clean(t[1..])
  }

  /** Text without the four marks. */
  function Unmarked(t: string): string {
    if t == "" then "" else (if t[0] in "*`[]" then "" else [t[0]]) + Unmarked(t[1..])
  }

  /** Up to the first parenthesis exactly the marks go. */
  lemma {:induction false} CleanText(a: string, b: string)
    requires '(' !in a
    ensures Clean(a + b) == Unmarked(a) + Clean(b)
  {
    if a == "" {
      assert a + b == b;
    } else {
      var kept := if a[0] in "*`[]" then "" else [a[0]];
      assert a + b == [a[0]] + (a[1..] + b);
      CleanChar(a[0], a[1..] + b);
      CleanText(a[1..], b);
      Concat(kept, Unmarked(a[1..]), Clean(b));
    }
  }

  lemma CleanChar(c: char, t: string)
    requires c != '('
    ensures Clean([c] + t) == (if c in "*`[]" then "" else [c]) + Clean(t)
  {
    assert ([c] + t)[1..] == t;
  }

  /** A parenthesis goes with everything up to the first that closes it. */
  lemma CleanClosed(a: string, b: string)
    requires ')' !in a
    ensures Clean("(" + (a + (")" + b))) == Clean(b)
  {
    ClosedText("(", a, ")", b);
    ClosedAt("(" + (a + (")" + b)), 1 + |a|);
  }

  lemma ClosedText(o: string, a: string, c: string, b: string)
    requires o == "(" && c == ")" && ')' !in a
    ensures var t, n := o + (a + (c + b)), 1 + |a|;
      n < |t| && t[0] == '(' && t[n] == ')' && ')' !in t[..n] && t[n + 1..] == b
  {
    var t, n := o + (a + (c + b)), 1 + |a|;
    assert t[..n] == o + a;
  }

  lemma ClosedAt(t: string, n: nat)
    requires n < |t| && t[0] == '(' && t[n] == ')' && ')' !in t[..n]
    ensures Clean(t) == Clean(t[n + 1..])
  {
    IndexIs(t, ')', n);
  }

  /** One that is never closed stays. */
  lemma CleanUnclosed(b: string)
    requires ')' !in b
    ensures Clean("(" + b) == "(" + Clean(b)
  {
    var t := "(" + b;
    assert t[0] == '(' && t[1..] == b && ')' !in t;
  }

  /** Nothing in `t` that `Clean` would take out. */
  predicate Bare(t: string) {
    forall i :: 0 <= i < |t| ==> t[i] !in "*`[]" && (t[i] == '(' ==> ')' !in t[i + 1..])
  }

  lemma BareStep(c: char, t: string)
    requires Bare(t) && c !in "*`[]" && (c == '(' ==> ')' !in t)
    ensures Bare([c] + t)
  {
    var s := [c] + t;
    forall i | 0 <= i < |s| ensures s[i] !in "*`[]" && (s[i] == '(' ==> ')' !in s[i + 1..]) {
      if i > 0 { assert s[i] == t[i - 1] && s[i + 1..] == t[i..]; } else { assert s[1..] == t; }
    }
  }

  /** Cleaning leaves no markup behind, and adds nothing. */
  lemma {:induction false} CleanIsBare(t: string)
    ensures Bare(Clean(t)) && |Clean(t)| <= |t|
    ensures forall c :: c in Clean(t) ==> c in t
    decreases |t|
  {
    if t != "" {
      if t[0] in "*`[]" {
        CleanIsBare(t[1..]);
      } else if t[0] == '(' && ')' in t {
        CleanIsBare(t[IndexOf(t, ')') + 1..]);
      } else {
        CleanIsBare(t[1..]);
        BareStep(t[0], Clean(t[1..]));
      }
    }
  }

  /** Text without markup stays as it is, so cleaning twice is cleaning once. */
  lemma {:induction false} CleanKeepsBare(t: string)
    requires Bare(t)
    ensures Clean(t) == t
  {
    if t != "" {
      assert t == [t[0]] + t[1..];
      forall i | 0 <= i < |t[1..]| ensures t[1..][i] !in "*`[]" && (t[1..][i] == '(' ==> ')' !in t[1..][i + 1..]) {
        assert t[1..][i] == t[i + 1] && t[1..][i + 1..] == t[i + 1 + 1..];
      }
      CleanKeepsBare(t[1..]);
    }
  }

  function Max(a: nat, b: nat): nat { if a >= b then a else b }

  function Min(a: nat, b: nat): nat { if a <= b then a else b }

  /** The number of columns: that of the longest row. */
  function Columns(header: seq<string>, rows: seq<seq<string>>): (n: nat)
    ensures n >= |header| && forall r :: 0 <= r < |rows| ==> n >= |rows[r]|
    ensures n == |header| || exists r :: 0 <= r < |rows| && n == |rows[r]|
  {
    if rows == [] then |header| else Max(Columns(header, rows[..|rows| - 1]), |rows[|rows| - 1]|)
  }

  /** The longest cell of column `c`; cells below the header count for at most 64. */
  function Longest(header: seq<string>, rows: seq<seq<string>>, c: nat): nat {
    if rows == [] then if c < |header| then |Clean(header[c])| else 1
    else
      var before, row := Longest(header, rows[..|rows| - 1], c), rows[|rows| - 1];
      if c < |row| then Max(before, Min(|Clean(row[c])|, 64)) else before
  }

  /** What a cell of column `c` counts for: the header in full, cells below it up to 64 characters. */
  function HeaderCounts(header: seq<string>, c: nat): nat { if c < |header| then |Clean(header[c])| else 1 }

  function CellCounts(row: seq<string>, c: nat): nat { if c < |row| then Min(|Clean(row[c])|, 64) else 0 }

  /** No cell counts for more, and some cell counts for as much. */
  lemma {:induction false} LongestIsMaximum(header: seq<string>, rows: seq<seq<string>>, c: nat)
    ensures var m := Longest(header, rows, c);
      && m >= HeaderCounts(header, c)
      && (forall r :: 0 <= r < |rows| ==> m >= CellCounts(rows[r], c))
      && (m == HeaderCounts(header, c) || exists r :: 0 <= r < |rows| && m == CellCounts(rows[r], c))
  {
    if rows != [] {
      var front := rows[..|rows| - 1];
      LongestIsMaximum(header, front, c);
      var m := Longest(header, front, c);
      if Longest(header, rows, c) == m && m != HeaderCounts(header, c) {
        var r :| 0 <= r < |front| && m == CellCounts(front[r], c);
        assert rows[r] == front[r];
      }
    }
  }

  function Weights(header: seq<string>, rows: seq<seq<string>>): (ws: seq<nat>)
    ensures |ws| == Columns(header, rows) && forall c :: 0 <= c < |ws| ==> ws[c] == Max(Longest(header, rows, c), 4)
  {
    seq(Columns(header, rows), c requires c >= 0 => Max(Longest(header, rows, c), 4))
  }

  function Sum(ws: seq<nat>): nat {
    if ws == [] then 0 else Sum(ws[..|ws| - 1]) + ws[|ws| - 1]
  }

  // ---------------------------------------------------------------- widths

  function Total(w: seq<real>): real {
    if w == [] then 0.0 else Total(w[..|w| - 1]) + w[|w| - 1]
  }

  /** Every weight times the same scale. */
  function Scaled(ws: seq<nat>, scale: real): (w: seq<real>)
    ensures |w| == |ws| && forall k :: 0 <= k < |w| ==> w[k] == ws[k] as real * scale
  {
    seq(|ws|, k requires 0 <= k < |ws| => ws[k] as real * scale)
  }

  predicate Ascending(ks: seq<nat>, n: nat) {
    && (forall a :: 0 <= a < |ks| ==> ks[a] < n)
    && (forall a, b :: 0 <= a < b < |ks| ==> ks[a] < ks[b])
  }

  /** The columns whose width satisfies `p`. */
  function Where(p: real -> bool, w: seq<real>): (ks: seq<nat>)
    ensures Ascending(ks, |w|)
    ensures forall a :: 0 <= a < |ks| ==> p(w[ks[a]])
  {
    if w == [] then []
    else
      var ks := Where(p, w[..|w| - 1]);
      if p(w[|w| - 1]) then ks + [|w| - 1] else ks
  }

  /** How many columns satisfy `p`, and the width they have together. */
  function CountWhere(p: real -> bool, w: seq<real>): nat { |Where(p, w)| }

  function SumWhere(p: real -> bool, w: seq<real>): real {
    if w == [] then 0.0 else SumWhere(p, w[..|w| - 1]) + if p(w[|w| - 1]) then w[|w| - 1] else 0.0
  }

  function Short(floor: real): real -> bool { (x: real) => x < floor }

  function Donor(floor: real): real -> bool { (x: real) => x >= floor }

  /** `n` times `x`, as a sum. */
  function Copies(n: nat, x: real): real { if n == 0 then 0.0 else Copies(n - 1, x) + x }

  /** The width that the short columns take once each has the floor. */
  function Taken(w: seq<real>, floor: real): real { Copies(CountWhere(Short(floor), w), floor) }

  /** What the columns below the floor lack. */
  function Deficit(w: seq<real>, floor: real): real { Taken(w, floor) - SumWhere(Short(floor), w) }

  /** Whether some columns, but not all, are below the floor. */
  predicate Redistributes(w: seq<real>, floor: real) { 0 < CountWhere(Short(floor), w) < |w| }

  function Paid(x: real, deficit: real, pool: real): real
    requires pool != 0.0
  {
    x - deficit * (x / pool)
  }

  function Pay(deficit: real, pool: real): real -> real
    requires pool != 0.0
  {
    (x: real) => Paid(x, deficit, pool)
  }

  /** The widths after redistribution. */
  function Settled(w: seq<real>, floor: real): (v: seq<real>)
    requires Redistributes(w, floor) ==> SumWhere(Donor(floor), w) != 0.0
    ensures |v| == |w|
  {
    if !Redistributes(w, floor) then w
    else
      var pay := Pay(Deficit(w, floor), SumWhere(Donor(floor), w));
      seq(|w|, k requires 0 <= k < |w| => if w[k] < floor then floor else pay(w[k]))
  }

  // ---------------------------------------------------------------- facts about sums

  lemma {:induction false} WhereAll(p: real -> bool, w: seq<real>, k: nat)
    requires k < |w| && p(w[k])
    ensures k in Where(p, w)
  {
    if k < |w| - 1 { WhereAll(p, w[..|w| - 1], k); }
  }

  lemma {:induction false} WhereSplits(w: seq<real>, floor: real)
    ensures CountWhere(Short(floor), w) + CountWhere(Donor(floor), w) == |w|
    ensures SumWhere(Short(floor), w) + SumWhere(Donor(floor), w) == Total(w)
  {
    if w != [] { WhereSplits(w[..|w| - 1], floor); }
  }

  lemma {:induction false} CopiesIs(n: nat, x: real)
    ensures Copies(n, x) == n as real * x
  {
    if n > 0 {
      CopiesIs(n - 1, x);
      CountStep(n - 1, x);
    }
  }

  lemma {:induction false} CopiesGrow(m: nat, n: nat, x: real)
    requires m <= n && x >= 0.0
    ensures Copies(m, x) <= Copies(n, x)
  {
    if m < n { CopiesGrow(m, n - 1, x); }
  }

  lemma {:induction false} CopiesSign(n: nat, x: real)
    requires x >= 0.0
    ensures Copies(n, x) >= 0.0 && (n > 0 ==> Copies(n, x) >= x)
  {
    if n > 0 { CopiesSign(n - 1, x); }
  }

  lemma {:induction false} SumAtLeast(p: real -> bool, w: seq<real>, low: real)
    requires forall k :: 0 <= k < |w| && p(w[k]) ==> w[k] >= low
    ensures SumWhere(p, w) >= Copies(CountWhere(p, w), low)
  {
    if w != [] {
      var front := w[..|w| - 1];
      SumAtLeast(p, front, low);
      assert CountWhere(p, w) == CountWhere(p, front) + if p(w[|w| - 1]) then 1 else 0;
    }
  }

  /** Every column positive: what each selection sums to is not negative. */
  lemma {:induction false} SumNotNegative(p: real -> bool, w: seq<real>)
    requires forall k :: 0 <= k < |w| ==> w[k] > 0.0
    ensures SumWhere(p, w) >= 0.0
  {
    if w != [] { SumNotNegative(p, w[..|w| - 1]); }
  }

  lemma {:induction false} TotalScaled(ws: seq<nat>, scale: real)
    ensures Total(Scaled(ws, scale)) == Sum(ws) as real * scale
  {
    if ws != [] {
      var front := ws[..|ws| - 1];
      TotalScaled(front, scale);
      ScaledFront(ws, scale);
      Distribute(Sum(front) as real, ws[|ws| - 1] as real, scale);
    }
  }

  lemma ScaledFront(ws: seq<nat>, scale: real)
    requires ws != []
    ensures Scaled(ws, scale)[..|ws| - 1] == Scaled(ws[..|ws| - 1], scale)
  {
    var front := ws[..|ws| - 1];
    forall k | 0 <= k < |front| ensures Scaled(ws, scale)[k] == Scaled(front, scale)[k] {
      assert front[k] == ws[k];
    }
  }

  /** Taking a share of the deficit in proportion to its width scales a donor. */
  lemma PaidIsScaled(x: real, deficit: real, pool: real)
    requires pool != 0.0
    ensures Paid(x, deficit, pool) == x * ((pool - deficit) / pool)
  {
    var y := x / pool;
    Unscale(x, pool);
    QuotientSplit(pool, deficit, pool);
    Distribute(pool, -deficit, y);
    Unscale(deficit, pool);
    assert x * ((pool - deficit) / pool) == y * (pool * ((pool - deficit) / pool));
    Unscale(pool - deficit, pool);
  }

  // ---------------------------------------------------------------- what redistribution does

  /** Multiplication by a factor. */
  function By(factor: real): real -> real { (x: real) => x * factor }

  /** The widths `v` that replace `w`: the floor for a short column, what `pay` says for a donor. */
  predicate Replaces(v: seq<real>, w: seq<real>, floor: real, pay: real -> real) {
    |v| == |w| && forall k :: 0 <= k < |w| ==> v[k] == if w[k] < floor then floor else pay(w[k])
  }

  /** The sum of the donors' new widths. */
  function PaidSum(v: seq<real>, w: seq<real>, floor: real): real
    requires |v| == |w|
  {
    if w == [] then 0.0
    else PaidSum(v[..|v| - 1], w[..|w| - 1], floor) + if w[|w| - 1] < floor then 0.0 else v[|v| - 1]
  }

  predicate Adds(g: real -> real, a: real, b: real) { g(a + b) == g(a) + g(b) }

  /** If each donor pays by an additive rule, the donors together pay by it. */
  lemma {:induction false} PaidSumIs(v: seq<real>, w: seq<real>, floor: real, g: real -> real)
    requires g(0.0) == 0.0 && forall a, b :: Adds(g, a, b)
    requires |v| == |w| && forall k :: 0 <= k < |w| && w[k] >= floor ==> v[k] == g(w[k])
    ensures PaidSum(v, w, floor) == g(SumWhere(Donor(floor), w))
  {
    if w != [] {
      var front, last := w[..|w| - 1], w[|w| - 1];
      PaidSumIs(v[..|v| - 1], front, floor, g);
      assert Adds(g, SumWhere(Donor(floor), front), last);
    }
  }

  lemma ByAdds(factor: real)
    ensures By(factor)(0.0) == 0.0 && forall a, b :: Adds(By(factor), a, b)
  {
    forall a, b ensures Adds(By(factor), a, b) { Distribute(a, b, factor); }
  }

  lemma {:induction false} TotalReplaced(v: seq<real>, w: seq<real>, floor: real)
    requires |v| == |w| && forall k :: 0 <= k < |w| && w[k] < floor ==> v[k] == floor
    ensures Total(v) == Taken(w, floor) + PaidSum(v, w, floor)
  {
    if w != [] {
      var front := w[..|w| - 1];
      TotalReplaced(v[..|v| - 1], front, floor);
      assert CountWhere(Short(floor), w) == CountWhere(Short(floor), front) + if w[|w| - 1] < floor then 1 else 0;
    }
  }

  /** What is left of the total once every short column has the floor. */
  function Left(w: seq<real>, floor: real): real { Total(w) - Taken(w, floor) }

  /** The pool is positive when it is used. */
  lemma PoolIsPositive(w: seq<real>, floor: real)
    requires floor > 0.0 && Redistributes(w, floor)
    ensures SumWhere(Donor(floor), w) >= floor
    ensures SumWhere(Donor(floor), w) - Deficit(w, floor) == Left(w, floor)
  {
    WhereSplits(w, floor);
    SumAtLeast(Donor(floor), w, floor);
    CopiesSign(CountWhere(Donor(floor), w), floor);
  }

  /** What each donor is scaled by. */
  function Factor(w: seq<real>, floor: real): real
    requires floor > 0.0 && Redistributes(w, floor)
  {
    PoolIsPositive(w, floor);
    Left(w, floor) / SumWhere(Donor(floor), w)
  }

  /** Each short column gets exactly the floor, and every donor is scaled by the same factor. */
  lemma SettledReplaces(w: seq<real>, floor: real)
    requires floor > 0.0 && Redistributes(w, floor)
    ensures SumWhere(Donor(floor), w) != 0.0
    ensures Replaces(Settled(w, floor), w, floor, By(Factor(w, floor)))
  {
    PoolIsPositive(w, floor);
    var deficit, pool := Deficit(w, floor), SumWhere(Donor(floor), w);
    forall k | 0 <= k < |w| && w[k] >= floor ensures Pay(deficit, pool)(w[k]) == By(Factor(w, floor))(w[k]) {
      PayIsBy(w[k], deficit, pool, Factor(w, floor));
    }
  }

  lemma PayIsBy(x: real, deficit: real, pool: real, factor: real)
    requires pool != 0.0 && factor == (pool - deficit) / pool
    ensures Pay(deficit, pool)(x) == By(factor)(x)
  {
    PaidIsScaled(x, deficit, pool);
  }

  lemma FactorTimesPool(w: seq<real>, floor: real)
    requires floor > 0.0 && Redistributes(w, floor)
    ensures By(Factor(w, floor))(SumWhere(Donor(floor), w)) == Left(w, floor)
  {
    PoolIsPositive(w, floor);
    Unscale(Left(w, floor), SumWhere(Donor(floor), w));
  }

  lemma ReplacedKeepsTotal(v: seq<real>, w: seq<real>, floor: real, pay: real -> real)
    requires Replaces(v, w, floor, pay) && pay(SumWhere(Donor(floor), w)) == Left(w, floor)
    requires pay(0.0) == 0.0 && forall a, b :: Adds(pay, a, b)
    ensures Total(v) == Total(w)
  {
    TotalReplaced(v, w, floor);
    PaidSumIs(v, w, floor, pay);
  }

  /** Redistribution neither adds nor loses width. */
  lemma SettledKeepsTotal(w: seq<real>, floor: real)
    requires floor > 0.0
    ensures Redistributes(w, floor) ==> SumWhere(Donor(floor), w) != 0.0
    ensures Total(Settled(w, floor)) == Total(w)
  {
    if Redistributes(w, floor) {
      SettledReplaces(w, floor);
      FactorTimesPool(w, floor);
      ByAdds(Factor(w, floor));
      ReplacedKeepsTotal(Settled(w, floor), w, floor, By(Factor(w, floor)));
    }
  }

  /** Every width ends positive unless the short columns alone fill the page, or more. */
  lemma AllPositiveIff(w: seq<real>, floor: real)
    requires floor > 0.0 && forall k :: 0 <= k < |w| ==> w[k] > 0.0
    ensures Redistributes(w, floor) ==> SumWhere(Donor(floor), w) != 0.0
    ensures (forall k :: 0 <= k < |w| ==> Settled(w, floor)[k] > 0.0)
      <==> (Redistributes(w, floor) ==> Taken(w, floor) < Total(w))
  {
    if Redistributes(w, floor) {
      SettledReplaces(w, floor);
      PoolIsPositive(w, floor);
      QuotientSign(Left(w, floor), SumWhere(Donor(floor), w));
      DonorExists(w, floor);
      SignOfReplaced(Settled(w, floor), w, floor, Factor(w, floor));
    }
  }

  lemma SignOfReplaced(v: seq<real>, w: seq<real>, floor: real, factor: real)
    requires floor > 0.0 && Replaces(v, w, floor, By(factor))
    requires exists d :: 0 <= d < |w| && w[d] >= floor
    ensures (forall k :: 0 <= k < |w| ==> v[k] > 0.0) <==> factor > 0.0
  {
    var d :| 0 <= d < |w| && w[d] >= floor;
    if factor > 0.0 {
      forall k | 0 <= k < |w| ensures v[k] > 0.0 {
        if w[k] >= floor { Positive(w[k], factor); }
      }
    } else {
      NonNegative(w[d], -factor);
      assert v[d] <= 0.0;
    }
  }

  lemma DonorExists(w: seq<real>, floor: real)
    requires Redistributes(w, floor)
    ensures exists d :: 0 <= d < |w| && w[d] >= floor
  {
    WhereSplits(w, floor);
    var ks := Where(Donor(floor), w);
    assert Donor(floor)(w[ks[0]]);
  }

  lemma PoolBounds(w: seq<real>, floor: real)
    requires floor > 0.0 && Redistributes(w, floor) && forall i :: 0 <= i < |w| ==> w[i] > 0.0
    ensures 0.0 < SumWhere(Donor(floor), w) <= Total(w)
  {
    PoolIsPositive(w, floor);
    WhereSplits(w, floor);
    SumNotNegative(Short(floor), w);
  }

  /** The widths whose share of what is left, `x * left / pool`, is as large as the floor. */
  function Affords(left: real, pool: real, floor: real): real -> bool { (x: real) => x * left >= floor * pool }

  lemma ScaledAbove(x: real, floor: real, factor: real, pool: real, left: real)
    requires pool > 0.0 && By(factor)(pool) == left
    ensures By(factor)(x) >= floor <==> Affords(left, pool, floor)(x)
  {
    assert (x * factor) * pool == x * left by { Regroup(x, factor, pool); }
    if x * factor >= floor { TimesGrows(floor, x * factor, pool); }
    if x * left >= floor * pool { Cancel(floor, x * factor, pool); }
  }

  predicate AboveIff(x: real, floor: real, pay: real -> real, affords: real -> bool) { pay(x) >= floor <==> affords(x) }

  lemma ReplacedAboveIff(v: seq<real>, w: seq<real>, floor: real, pay: real -> real, affords: real -> bool)
    requires Replaces(v, w, floor, pay) && forall x :: AboveIff(x, floor, pay, affords)
    ensures (forall k :: 0 <= k < |w| ==> v[k] >= floor)
      <==> (forall k :: 0 <= k < |w| && w[k] >= floor ==> affords(w[k]))
  {
    assert forall k :: 0 <= k < |w| ==> AboveIff(w[k], floor, pay, affords);
  }

  predicate AllAbove(v: seq<real>, floor: real) { forall k :: 0 <= k < |v| ==> v[k] >= floor }

  /** Every donor affords the floor. */
  predicate AllAfford(w: seq<real>, floor: real) {
    var affords := Affords(Left(w, floor), SumWhere(Donor(floor), w), floor);
    forall k :: 0 <= k < |w| && w[k] >= floor ==> affords(w[k])
  }

  lemma ReplacedKeepsFloor(v: seq<real>, w: seq<real>, floor: real)
    requires floor > 0.0 && Redistributes(w, floor) && Replaces(v, w, floor, By(Factor(w, floor)))
    ensures AllAbove(v, floor) <==> AllAfford(w, floor)
  {
    var pay, affords := By(Factor(w, floor)), Affords(Left(w, floor), SumWhere(Donor(floor), w), floor);
    PoolIsPositive(w, floor);
    FactorTimesPool(w, floor);
    forall x ensures AboveIff(x, floor, pay, affords) {
      ScaledAbove(x, floor, Factor(w, floor), SumWhere(Donor(floor), w), Left(w, floor));
    }
    ReplacedAboveIff(v, w, floor, pay, affords);
  }

  /**
    After redistribution every column has the floor or more if and only if every donor affords it;
    without redistribution, if and only if no column was below it.
   */
  lemma KeepsFloorIff(w: seq<real>, floor: real)
    requires floor > 0.0
    ensures Redistributes(w, floor) ==> SumWhere(Donor(floor), w) != 0.0
    ensures AllAbove(Settled(w, floor), floor)
      <==> if Redistributes(w, floor) then AllAfford(w, floor) else AllAbove(w, floor)
  {
    if Redistributes(w, floor) {
      SettledReplaces(w, floor);
      ReplacedKeepsFloor(Settled(w, floor), w, floor);
    }
  }

  lemma ShareOf(x: real, total: real)
    requires total != 0.0
    ensures By(x / total)(total) == x
  {
    Unscale(x, total);
  }

  /** A donor ends with at least the floor, less the share of the page that the short columns take. */
  lemma DonorKeeps(w: seq<real>, floor: real, k: nat)
    requires floor > 0.0 && Redistributes(w, floor) && k < |w| && w[k] >= floor
    requires forall i :: 0 <= i < |w| ==> w[i] > 0.0
    requires Taken(w, floor) <= Total(w)
    ensures SumWhere(Donor(floor), w) != 0.0 && Total(w) != 0.0
    ensures Settled(w, floor)[k] >= By(1.0 - Taken(w, floor) / Total(w))(floor)
  {
    PoolBounds(w, floor);
    SettledReplaces(w, floor);
    FactorTimesPool(w, floor);
    var share := Taken(w, floor) / Total(w);
    ShareOf(Taken(w, floor), Total(w));
    LessPool(w[k], floor, Total(w), SumWhere(Donor(floor), w), Taken(w, floor), Factor(w, floor), share);
  }

  lemma LessPool(x: real, floor: real, total: real, pool: real, taken: real, factor: real, share: real)
    requires x >= floor > 0.0 && 0.0 < pool <= total && taken <= total
    requires By(factor)(pool) == total - taken && By(share)(total) == taken
    ensures By(factor)(x) >= By(1.0 - share)(floor)
  {
    var rest := 1.0 - share;
    Distribute(1.0, -share, total);
    Cancel(0.0, factor, pool);
    TimesGrows(pool, total, factor);
    Cancel(rest, factor, total);
    TimesGrows(floor, x, factor);
    TimesGrows(rest, factor, floor);
  }

  // ---------------------------------------------------------------- the computation

  /** The widths at the columns listed in `ks`, added up. */
  function SumAt(w: seq<real>, ks: seq<nat>): real
    requires forall i :: 0 <= i < |ks| ==> ks[i] < |w|
  {
    if ks == [] then 0.0 else SumAt(w, ks[..|ks| - 1]) + w[ks[|ks| - 1]]
  }

  lemma {:induction false} SumAtPrefix(w: seq<real>, m: nat, ks: seq<nat>)
    requires m <= |w| && forall i :: 0 <= i < |ks| ==> ks[i] < m
    ensures SumAt(w[..m], ks) == SumAt(w, ks)
  {
    if ks != [] { SumAtPrefix(w, m, ks[..|ks| - 1]); }
  }

  lemma {:induction false} SumAtIs(p: real -> bool, w: seq<real>)
    ensures SumAt(w, Where(p, w)) == SumWhere(p, w)
  {
    if w != [] {
      var m := |w| - 1;
      var ks := Where(p, w[..m]);
      SumAtIs(p, w[..m]);
      SumAtPrefix(w, m, ks);
      assert (ks + [m])[..|ks|] == ks;
    }
  }

  /** `sum(widths[k] for k in ks)` */
  method AddUp(w: seq<real>, ks: seq<nat>) returns (sum: real)
    requires forall i :: 0 <= i < |ks| ==> ks[i] < |w|
    ensures sum == SumAt(w, ks)
  {
    sum := 0.0;
    for i := 0 to |ks|
      invariant sum == SumAt(w, ks[..i])
    {
      sum := sum + w[ks[i]];
      assert ks[..i + 1][..i] == ks[..i];
    }
    assert ks[..|ks|] == ks;
  }

  /** `sum(floor - widths[k] for k in ks)` */
  method AddUpLack(w: seq<real>, ks: seq<nat>, floor: real) returns (sum: real)
    requires forall i :: 0 <= i < |ks| ==> ks[i] < |w|
    ensures sum == Copies(|ks|, floor) - SumAt(w, ks)
  {
    sum := 0.0;
    for i := 0 to |ks|
      invariant sum == Copies(i, floor) - SumAt(w, ks[..i])
    {
      sum := sum + (floor - w[ks[i]]);
      assert ks[..i + 1][..i] == ks[..i];
    }
    assert ks[..|ks|] == ks;
  }

  method Weigh(header: seq<string>, rows: seq<seq<string>>) returns (weights: seq<nat>)
    ensures weights == Weights(header, rows)
  {
    weights := [];
    var ncols := Columns(header, rows);
    for c := 0 to ncols
      invariant |weights| == c && forall k :: 0 <= k < c ==> weights[k] == Max(Longest(header, rows, k), 4)
    {
      var longest := if c < |header| then |Clean(header[c])| else 1;
      for r := 0 to |rows|
        invariant longest == Longest(header, rows[..r], c)
      {
        if c < |rows[r]| { longest := Max(longest, Min(|Clean(rows[r][c])|, 64)); }
        assert rows[..r + 1][..r] == rows[..r];
      }
      assert rows[..|rows|] == rows;
      weights := weights + [Max(longest, 4)];
    }
  }

  method ListColumns(w: seq<real>, floor: real) returns (short: seq<nat>, donors: seq<nat>)
    ensures short == Where(Short(floor), w) && donors == Where(Donor(floor), w)
  {
    short, donors := [], [];
    for k := 0 to |w|
      invariant short == Where(Short(floor), w[..k]) && donors == Where(Donor(floor), w[..k])
    {
      assert w[..k + 1][..k] == w[..k];
      if w[k] < floor { short := short + [k]; } else { donors := donors + [k]; }
    }
    assert w[..|w|] == w;
  }

  /** The floor step, when some columns but not all are below the floor. */
  method Redistribute(w: seq<real>, floor: real) returns (widths: seq<real>)
    requires floor > 0.0
    ensures Redistributes(w, floor) ==> SumWhere(Donor(floor), w) != 0.0
    ensures widths == Settled(w, floor)
  {
    widths := w;
    var short, donors := ListColumns(w, floor);
    if short != [] && |short| < |w| {
      PoolIsPositive(w, floor);
      widths := Settle(w, floor, short, donors);
    }
  }

  /** The list of widths is changed in place, the short columns first, then the donors. */
  method Settle(w: seq<real>, floor: real, short: seq<nat>, donors: seq<nat>) returns (widths: seq<real>)
    requires Redistributes(w, floor) && SumWhere(Donor(floor), w) != 0.0
    requires short == Where(Short(floor), w) && donors == Where(Donor(floor), w)
    ensures widths == Settled(w, floor)
  {
    SumAtIs(Short(floor), w);
    SumAtIs(Donor(floor), w);
    var deficit := AddUpLack(w, short, floor);
    var pool := AddUp(w, donors);
    widths := Raise(w, short, floor);
    widths := Charge(widths, donors, deficit, pool);
    SettledIs(w, widths, floor, deficit, pool);
  }

  /** `for k in short: widths[k] = floor` */
  method Raise(w: seq<real>, short: seq<nat>, floor: real) returns (widths: seq<real>)
    requires Ascending(short, |w|)
    ensures |widths| == |w|
    ensures forall k :: 0 <= k < |w| ==> widths[k] == if k in short then floor else w[k]
  {
    widths := w;
    for i := 0 to |short|
      invariant |widths| == |w|
      invariant forall k :: 0 <= k < |w| ==> widths[k] == if k in short[..i] then floor else w[k]
    {
      widths := widths[short[i] := floor];
      assert short[..i + 1] == short[..i] + [short[i]];
    }
    assert short[..|short|] == short;
  }

  /** `for k in donors: widths[k] -= deficit * (widths[k] / pool)` */
  method Charge(w: seq<real>, donors: seq<nat>, deficit: real, pool: real) returns (widths: seq<real>)
    requires Ascending(donors, |w|) && pool != 0.0
    ensures |widths| == |w|
    ensures forall k :: 0 <= k < |w| ==> widths[k] == if k in donors then Pay(deficit, pool)(w[k]) else w[k]
  {
    widths := w;
    for i := 0 to |donors|
      invariant |widths| == |w|
      invariant forall k :: 0 <= k < |w| ==>
        widths[k] == if k in donors[..i] then Pay(deficit, pool)(w[k]) else w[k]
    {
      var k := donors[i];
      assert k !in donors[..i];
      widths := widths[k := widths[k] - deficit * (widths[k] / pool)];
      assert donors[..i + 1] == donors[..i] + [k];
    }
    assert donors[..|donors|] == donors;
  }

  lemma SettledIs(w: seq<real>, v: seq<real>, floor: real, deficit: real, pool: real)
    requires Redistributes(w, floor) && deficit == Deficit(w, floor) && pool == SumWhere(Donor(floor), w) != 0.0
    requires |v| == |w|
    requires forall k :: 0 <= k < |w| ==>
      v[k]
        == if k in Where(Donor(floor), w) then Pay(deficit, pool)(if k in Where(Short(floor), w) then floor else w[k])
              else if k in Where(Short(floor), w) then floor else w[k]
    ensures v == Settled(w, floor)
  {
    forall k | 0 <= k < |w| ensures v[k] == Settled(w, floor)[k] {
      InShortIff(w, floor, k);
    }
  }

  lemma InShortIff(w: seq<real>, floor: real, k: nat)
    requires k < |w|
    ensures k in Where(Short(floor), w) <==> w[k] < floor
    ensures k in Where(Donor(floor), w) <==> w[k] >= floor
  {
    if w[k] < floor { WhereAll(Short(floor), w, k); } else { WhereAll(Donor(floor), w, k); }
    var a, b := Where(Short(floor), w), Where(Donor(floor), w);
    if k in a { var i :| 0 <= i < |a| && a[i] == k; assert Short(floor)(w[a[i]]); }
    if k in b { var i :| 0 <= i < |b| && b[i] == k; assert Donor(floor)(w[b[i]]); }
  }

  lemma {:induction false} SumPositive(ws: seq<nat>)
    requires ws != [] && forall k :: 0 <= k < |ws| ==> ws[k] > 0
    ensures Sum(ws) > 0
  {
    if |ws| > 1 { SumPositive(ws[..|ws| - 1]); }
  }

  function Spread(ws: seq<nat>, total: real): seq<real>
    requires Sum(ws) > 0
  {
    Scaled(ws, total / Sum(ws) as real)
  }

  /** `col_widths` */
  method ColumnWidths(header: seq<string>, rows: seq<seq<string>>, total: real) returns (widths: seq<real>)
    requires Columns(header, rows) > 0
    ensures var ws := Weights(header, rows);
      && Sum(ws) > 0
      && (Redistributes(Spread(ws, total), FLOOR) ==> SumWhere(Donor(FLOOR), Spread(ws, total)) != 0.0)
      && widths == Settled(Spread(ws, total), FLOOR)
      && Total(widths) == total
  {
    var weights := Weigh(header, rows);
    SumPositive(weights);
    var scale := total / Sum(weights) as real;
    widths := Scaled(weights, scale);
    SpreadTotal(weights, total);
    SettledKeepsTotal(widths, FLOOR);
    widths := Redistribute(widths, FLOOR);
  }

  lemma SpreadTotal(ws: seq<nat>, total: real)
    requires Sum(ws) > 0
    ensures Total(Spread(ws, total)) == total
  {
    TotalScaled(ws, total / Sum(ws) as real);
    Unscale(total, Sum(ws) as real);
  }
}
