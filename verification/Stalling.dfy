/** Exactly when the block parser never ends, for every document and read off the text. */
module Stalling {
  import opened MdLines
  import opened Blocks
  import opened BlockRuns
  import opened LineReader
  import opened HeadingScan

  /** The only lines that stop the parser are bare list markers that carry nothing on. */
  lemma OnlyBareMarkersStop(lines: seq<string>, k: nat)
    requires k < |lines|
    ensures Opens(lines, k) == Stopped <==> BareMarker(lines[k])
  {
    TurnAdvances(lines, k);
    WhichTurn(lines, k);
    StopsInPlace(lines, k);
  }

  lemma StopsInPlace(lines: seq<string>, k: nat)
    requires k < |lines|
    ensures Opens(lines, k) == Stopped <==> TakeTurn(lines, k).next <= k
  {
  }

  /** A bare marker that starts anew. */
  predicate MeetsBareMarker(lines: seq<string>, k: nat)
    requires k < |lines|
  {
    !Carried(lines, k) && BareMarker(lines[k])
  }

  lemma StopIsMet(lines: seq<string>, k: nat)
    requires k < |lines| && OpenAt(lines, k) != Stopped
    ensures OpenAt(lines, k + 1) == Stopped <==> MeetsBareMarker(lines, k)
  {
    StaysOpen(lines, k, OpenAt(lines, k));
    OnlyBareMarkersStop(lines, k);
    if !Carried(lines, k) { OpensNext(lines, k); }
  }

  function Meets(lines: seq<string>): nat -> bool { (k: nat) => k < |lines| && MeetsBareMarker(lines, k) }

  function StoppedAt(lines: seq<string>): nat -> bool { (k: nat) => k <= |lines| && OpenAt(lines, k) == Stopped }

  predicate StopsWith(stopped: nat -> bool, meets: nat -> bool, k: nat) { stopped(k + 1) <==> stopped(k) || meets(k) }

  lemma {:induction false} StopsOnce(stopped: nat -> bool, meets: nat -> bool, n: nat)
    requires !stopped(0) && forall k: nat :: k < n ==> StopsWith(stopped, meets, k)
    ensures stopped(n) <==> exists k: nat :: k < n && meets(k)
  {
    if n > 0 {
      StopsOnce(stopped, meets, n - 1);
      assert StopsWith(stopped, meets, n - 1);
    }
  }

  lemma StoppedIff(lines: seq<string>, n: nat)
    requires n <= |lines|
    ensures OpenAt(lines, n) == Stopped <==> exists k: nat :: k < n && Meets(lines)(k)
  {
    FirstStartsAnew(lines);
    forall k: nat | k < n ensures StopsWith(StoppedAt(lines), Meets(lines), k) { StoppedNext(lines, k); }
    StopsOnce(StoppedAt(lines), Meets(lines), n);
  }

  lemma StaysStopped(lines: seq<string>, k: nat)
    requires k < |lines| && StoppedAt(lines)(k)
    ensures StoppedAt(lines)(k + 1)
  {
    StaysOpen(lines, k, Stopped);
  }

  lemma StopsNow(lines: seq<string>, k: nat)
    requires k < |lines| && !StoppedAt(lines)(k)
    ensures StoppedAt(lines)(k + 1) <==> Meets(lines)(k)
  {
    StopIsMet(lines, k);
  }

  lemma StoppedNext(lines: seq<string>, k: nat)
    requires k < |lines|
    ensures StopsWith(StoppedAt(lines), Meets(lines), k)
  {
    if StoppedAt(lines)(k) { StaysStopped(lines, k); } else { StopsNow(lines, k); }
  }

  /**
    Divergence, for every document: the parser runs for ever if and only if some bare list marker
    carries on nothing that is open before it.
   */
  lemma DivergesIff(lines: seq<string>)
    ensures ReachesBareMarker(lines) <==> exists k: nat :: k < |lines| && MeetsBareMarker(lines, k)
  {
    Termination(lines, |lines|);
    StuckIff(lines);
    StoppedIff(lines, |lines|);
    assert forall k: nat :: k < |lines| ==> Meets(lines)(k) == MeetsBareMarker(lines, k);
  }

  // ---------------------------------------------------------------- read off the text

  /** A bare list marker that no fence hides. */
  ghost predicate ShowsBareMarker(lines: seq<string>) {
    exists k: nat :: k < |lines| && !Inside(lines, k) && BareMarker(lines[k])
  }

  /** No bare marker outside a fence is indented, so none can carry on a list item. */
  predicate BareMarkersFlush(lines: seq<string>) {
    forall k: nat :: k < |lines| && !Inside(lines, k) && BareMarker(lines[k]) ==> !Indented(lines[k])
  }

  lemma BareMarkerLooks(line: string)
    requires BareMarker(line)
    ensures '|' !in line && !IsQuote(line) && !IsFence(line)
  {
    BareMarkerShape(line);
    MarkerStartsNothing(Strip(line));
    if '|' in line {
      var i :| 0 <= i < |line| && line[i] == '|';
      StripKeeps(line, i);
      assert false;
    }
  }

  /** A visible character survives stripping. */
  lemma StripKeeps(line: string, i: nat)
    requires i < |line| && !IsSpace(line[i])
    ensures line[i] in Strip(line)
  {
    var r := RStrip(line);
    assert r[i] == line[i];
    assert LStrip(r)[i - Indent(r)] == r[i];
  }

  /** A bare marker that is not indented carries on nothing but a fence. */
  lemma FlushMarkerStartsAnew(lines: seq<string>, k: nat)
    requires k < |lines| && BareMarker(lines[k]) && !Indented(lines[k])
    requires OpenAt(lines, k) != Fenced && OpenAt(lines, k) != Stopped
    ensures !Carried(lines, k)
  {
    BareMarkerLooks(lines[k]);
    if OpenAt(lines, k) == Head { HeadIsSep(lines, k); }
  }

  lemma InsideCarries(lines: seq<string>, k: nat)
    requires k < |lines| && OpenAt(lines, k) == Fenced
    ensures Carried(lines, k)
  {
  }

  /** Where the parser has not stopped, tidy fences hide exactly what is inside them. */
  lemma MarkerShowsOrHides(lines: seq<string>, k: nat)
    requires BareMarkersFlush(lines) && k < |lines| && BareMarker(lines[k])
    requires InStep(lines)(k) && OpenAt(lines, k) != Stopped
    ensures MeetsBareMarker(lines, k) <==> !Inside(lines, k)
  {
    if Inside(lines, k) { InsideCarries(lines, k); } else { FlushMarkerStartsAnew(lines, k); }
  }

  /**
    And read off the text: where fence lines are tidy and bare markers flush left, if and only if
    some bare marker stands outside all fences.
   */
  lemma TidyDivergesIff(lines: seq<string>)
    requires TidyFences(lines) && BareMarkersFlush(lines)
    ensures ReachesBareMarker(lines) <==> ShowsBareMarker(lines)
  {
    Termination(lines, |lines|);
    ParserGoesTo(lines);
    TidyFencesStand(lines, ParsedTo(lines));
    InStepIff(lines, ParsedTo(lines));
    if Parsed(lines).Stuck? { StuckShows(lines); } else { DoneShowsNone(lines); }
  }

  lemma StuckShows(lines: seq<string>)
    requires BareMarkersFlush(lines) && Parsed(lines).Stuck? && ParsedTo(lines) <= |lines|
    requires forall k: nat :: k <= ParsedTo(lines) ==> InStep(lines)(k)
    ensures ShowsBareMarker(lines)
  {
    var k := ParsedTo(lines);
    ParserGoesTo(lines);
    assert InStep(lines)(k) && Contexts(lines)(k) != Stopped;
    StopIsMet(lines, k);
    MarkerShowsOrHides(lines, k);
  }

  lemma DoneShowsNone(lines: seq<string>)
    requires BareMarkersFlush(lines) && Parsed(lines).Done? && ParsedTo(lines) == |lines|
    requires forall k: nat :: k <= |lines| ==> InStep(lines)(k)
    ensures !ShowsBareMarker(lines)
  {
    ParserGoesTo(lines);
    forall k: nat | k < |lines| && !Inside(lines, k) ensures !BareMarker(lines[k]) {
      PassedIsNoMarker(lines, k, |lines|);
    }
  }

  lemma PassedIsNoMarker(lines: seq<string>, k: nat, n: nat)
    requires BareMarkersFlush(lines) && k < n <= |lines| && !Inside(lines, k) && InStep(lines)(k)
    requires Going(Contexts(lines), 0, n)
    ensures !BareMarker(lines[k])
  {
    GoesPast(lines, k, n);
    StopsNow(lines, k);
    if BareMarker(lines[k]) { MarkerShowsOrHides(lines, k); }
  }

  lemma GoesPast(lines: seq<string>, k: nat, n: nat)
    requires k < n <= |lines| && Going(Contexts(lines), 0, n)
    ensures !StoppedAt(lines)(k) && !StoppedAt(lines)(k + 1)
  {
    assert Contexts(lines)(k) != Stopped && Contexts(lines)(k + 1) != Stopped;
  }
}
