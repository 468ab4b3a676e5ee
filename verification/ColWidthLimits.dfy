/** How many columns the floor leaves room for on the page. */
module ColWidthLimits {
  import opened ColWidths

  /** Up to twelve columns of 15 mm fit in 174 mm, so every width is positive. */
  lemma TwelveColumnsFit(w: seq<real>)
    requires |w| <= 12 && Total(w) == CONTENT_W && forall k :: 0 <= k < |w| ==> w[k] > 0.0
    ensures Redistributes(w, FLOOR) ==> SumWhere(Donor(FLOOR), w) != 0.0
    ensures forall k :: 0 <= k < |w| ==> Settled(w, FLOOR)[k] > 0.0
  {
    AllPositiveIff(w, FLOOR);
    if Redistributes(w, FLOOR) {
      CopiesGrow(CountWhere(Short(FLOOR), w), 11, FLOOR);
      CopiesIs(11, FLOOR);
    }
  }

  /** A table of one row: every cell but the last a single letter, the last one five. */
  function NarrowTable(n: nat): (header: seq<string>)
    requires n >= 1
    ensures |header| == n
  {
    seq(n, k => if k < n - 1 then "a" else "abcde")
  }

  lemma NarrowWeights(n: nat)
    requires n >= 1
    ensures var ws := Weights(NarrowTable(n), []);
      |ws| == n && ws[n - 1] == 5 && forall k :: 0 <= k < n - 1 ==> ws[k] == 4
  {
    CleanLetters();
    var header, ws := NarrowTable(n), Weights(NarrowTable(n), []);
    forall c: nat | c < n ensures ws[c] == if c < n - 1 then 4 else 5 {
      assert Longest(header, [], c) == |Clean(header[c])|;
    }
  }

  lemma CleanLetters()
    ensures |Clean("a")| == 1 && |Clean("abcde")| == 5
  {
    var s := "abcde";
    assert s[1..] == "bcde" && s[1..][1..] == "cde" && s[1..][1..][1..] == "de";
    assert s[1..][1..][1..][1..] == "e" && s[1..][1..][1..][1..][1..] == "";
    assert |Clean("e")| == 1;
    assert |Clean("de")| == 2;
    assert |Clean("cde")| == 3;
    assert |Clean("bcde")| == 4;
  }

  lemma {:induction false} SumOfFours(ws: seq<nat>)
    requires forall k :: 0 <= k < |ws| ==> ws[k] == 4
    ensures Sum(ws) == 4 * |ws|
  {
    if ws != [] { SumOfFours(ws[..|ws| - 1]); }
  }

  lemma {:induction false} AllShort(w: seq<real>, floor: real)
    requires forall k :: 0 <= k < |w| ==> w[k] < floor
    ensures CountWhere(Short(floor), w) == |w| && SumWhere(Donor(floor), w) == 0.0
  {
    if w != [] { AllShort(w[..|w| - 1], floor); }
  }

  lemma LoneDonorRedistributes(w: seq<real>, floor: real)
    requires |w| >= 2 && w[|w| - 1] >= floor && forall k :: 0 <= k < |w| - 1 ==> w[k] < floor
    ensures Redistributes(w, floor) && SumWhere(Donor(floor), w) == w[|w| - 1]
  {
    AllShort(w[..|w| - 1], floor);
  }

  lemma LastOf(v: seq<real>, floor: real)
    requires |v| >= 1 && forall k :: 0 <= k < |v| - 1 ==> v[k] == floor
    ensures v[|v| - 1] == Total(v) - (|v| - 1) as real * floor
  {
    AllFloor(v[..|v| - 1], floor);
    CopiesIs(|v| - 1, floor);
  }

  /** A single donor, in last place, pays for everything. */
  lemma LoneDonor(w: seq<real>, floor: real)
    requires floor > 0.0 && |w| >= 2 && w[|w| - 1] >= floor
    requires forall k :: 0 <= k < |w| - 1 ==> w[k] < floor
    ensures Redistributes(w, floor) && SumWhere(Donor(floor), w) != 0.0
    ensures Settled(w, floor)[|w| - 1] == Total(w) - (|w| - 1) as real * floor
  {
    LoneDonorRedistributes(w, floor);
    SettledKeepsTotal(w, floor);
    LastOf(Settled(w, floor), floor);
  }

  lemma {:induction false} AllFloor(v: seq<real>, floor: real)
    requires forall k :: 0 <= k < |v| ==> v[k] == floor
    ensures Total(v) == Copies(|v|, floor)
  {
    if v != [] { AllFloor(v[..|v| - 1], floor); }
  }

  /** The last column of such a table on the page, once every other column has the floor. */
  lemma LastColumn(n: nat)
    requires n in {12, 13}
    ensures var ws := Weights(NarrowTable(n), []);
      && Sum(ws) > 0
      && Redistributes(Spread(ws, CONTENT_W), FLOOR)
      && SumWhere(Donor(FLOOR), Spread(ws, CONTENT_W)) != 0.0
      && Settled(Spread(ws, CONTENT_W), FLOOR)[n - 1] == CONTENT_W - (n - 1) as real * FLOOR
  {
    var ws := Weights(NarrowTable(n), []);
    NarrowWeights(n);
    NarrowSpread(ws, n);
    LoneDonor(Spread(ws, CONTENT_W), FLOOR);
  }

  lemma NarrowSpread(ws: seq<nat>, n: nat)
    requires n in {12, 13} && |ws| == n && ws[n - 1] == 5 && forall k :: 0 <= k < n - 1 ==> ws[k] == 4
    ensures Sum(ws) == 4 * n + 1 && Total(Spread(ws, CONTENT_W)) == CONTENT_W
    ensures var w := Spread(ws, CONTENT_W); w[n - 1] >= FLOOR && forall k :: 0 <= k < n - 1 ==> w[k] < FLOOR
  {
    SumOfFours(ws[..n - 1]);
    SpreadTotal(ws, CONTENT_W);
  }

  /** With twelve columns a donor can end below the floor, at 9 mm. */
  lemma DonorBelowFloor()
    ensures var w := Spread(Weights(NarrowTable(12), []), CONTENT_W);
      SumWhere(Donor(FLOOR), w) != 0.0 && w[11] >= FLOOR && Settled(w, FLOOR)[11] == 9.0 * MM < FLOOR
  {
    LastColumn(12);
    NarrowWeights(12);
    SumOfFours(Weights(NarrowTable(12), [])[..11]);
  }

  /** With thirteen, a width can be negative: -6 mm. */
  lemma NegativeWidth()
    ensures var w := Spread(Weights(NarrowTable(13), []), CONTENT_W);
      SumWhere(Donor(FLOOR), w) != 0.0 && Settled(w, FLOOR)[12] == -6.0 * MM < 0.0
  {
    LastColumn(13);
  }
}
