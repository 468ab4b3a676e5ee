/**
  The watch loop of tools/gui/fullscreen-x.py against an arbitrary X server.

  What the server answers may depend on everything that has happened so far, so a run here stands
  for any interleaving of the loop with other clients.
 */
module WindowFixer {
  import opened Options

  datatype Attrs = Attrs(x: int, y: int, width: int, height: int, overrideRedirect: bool, viewable: bool)

  datatype Action =
    | List(windows: seq<nat>)
    | Query(window: nat, attrs: Option<Attrs>)
    | Resize(window: nat)
    | Raise(window: nat)
    | Focus(window: nat)
    | Sync
    | Sleep(seconds: nat)

  /** The screen, and how the server answers after a given history. */
  datatype Server = Server(width: int, height: int, list: seq<Action> -> seq<nat>,
                           attrs: (seq<Action>, nat) -> Option<Attrs>)
  {
    /** A window the loop may touch: not a menu, not hidden, at least 60% of the screen both ways. */
    predicate MainWindow(a: Attrs) {
      && !a.overrideRedirect && a.viewable
      && a.width as real >= width as real * 0.6 && a.height as real >= height as real * 0.6
    }

    predicate Perfect(a: Attrs) { a.width == width && a.height == height && a.x == 0 && a.y == 0 }

    predicate NeedsFixing(a: Option<Attrs>) { a.Some? && MainWindow(a.value) && !Perfect(a.value) }
  }

  /** Everything done so far, and `focused_once`. */
  datatype State = State(trace: seq<Action>, focused: set<nat>)

  const TICKS: nat := 600

  // ---------------------------------------------------------------- the run as a function

  /** What one window's turn adds to the trace. */
  function Turn(w: nat, a: Option<Attrs>, needs: bool, focused: set<nat>): seq<Action> {
    if !needs then [Query(w, a)]
    else if w in focused then [Query(w, a), Resize(w)]
    else [Query(w, a), Resize(w), Raise(w), Focus(w)]
  }

  function Visit(x: Server, st: State, w: nat): State {
    var a := x.attrs(st.trace, w);
    var needs := x.NeedsFixing(a);
    State(st.trace + Turn(w, a, needs, st.focused), if needs then st.focused + {w} else st.focused)
  }

  function VisitAll(x: Server, st: State, windows: seq<nat>): State {
    if windows == [] then st else Visit(x, VisitAll(x, st, windows[..|windows| - 1]), windows[|windows| - 1])
  }

  function Tick(x: Server, st: State, i: nat): State {
    var windows := x.list(st.trace);
    var after := VisitAll(x, State(st.trace + [List(windows)], st.focused), windows);
    State(after.trace + [Sync, Sleep(if i < 120 then 1 else 3)], after.focused)
  }

  function Ticks(x: Server, n: nat): State {
    if n == 0 then State([], {}) else Tick(x, Ticks(x, n - 1), n - 1)
  }

  // ---------------------------------------------------------------- the loop

  /** The body of the inner loop. */
  method FixWindow(x: Server, st: State, w: nat) returns (r: State)
    ensures r == Visit(x, st, w)
  {
    var a := x.attrs(st.trace, w);
    var trace := st.trace + [Query(w, a)];
    r := State(trace, st.focused);
    if a.None? { return; }
    if a.value.overrideRedirect || !a.value.viewable { return; }
    if (a.value.width as real) < x.width as real * 0.6 || (a.value.height as real) < x.height as real * 0.6 { return; }
    if a.value.width == x.width && a.value.height == x.height && a.value.x == 0 && a.value.y == 0 { return; }
    trace := trace + [Resize(w)];
    r := State(trace, st.focused + {w});
    if w !in st.focused {
      trace := trace + [Raise(w)];
      trace := trace + [Focus(w)];
      r := State(trace, st.focused + {w});
    }
  }

  method Watch(x: Server) returns (st: State)
    ensures st == Ticks(x, TICKS) && Good(x, st)
  {
    st := State([], {});
    for i := 0 to TICKS
      invariant st == Ticks(x, i)
    {
      ghost var before := st;
      var windows := x.list(st.trace);
      st := State(st.trace + [List(windows)], st.focused);
      ghost var start := st;
      for k := 0 to |windows|
        invariant st == VisitAll(x, start, windows[..k])
      {
        assert windows[..k + 1][..k] == windows[..k];
        st := FixWindow(x, st, windows[k]);
      }
      assert windows[..|windows|] == windows;
      st := State(st.trace + [Sync, Sleep(if i < 120 then 1 else 3)], st.focused);
      assert st == Tick(x, before, i);
    }
    RunIsGood(x, TICKS);
  }

  // ---------------------------------------------------------------- what every step keeps

  /** What must come just before an action. */
  predicate Preceded(x: Server, trace: seq<Action>, k: nat)
    requires k < |trace|
  {
    match trace[k]
    case Resize(w) => k > 0 && trace[k - 1].Query? && trace[k - 1].window == w && x.NeedsFixing(trace[k - 1].attrs)
    case Raise(w) => k > 0 && trace[k - 1] == Resize(w)
    case Focus(w) => k > 0 && trace[k - 1] == Raise(w)
    case _ => true
  }

  /** A window found wrong is resized at once. */
  predicate Acted(x: Server, trace: seq<Action>, k: nat)
    requires k < |trace|
  {
    trace[k].Query? && x.NeedsFixing(trace[k].attrs) ==> k + 1 < |trace| && trace[k + 1] == Resize(trace[k].window)
  }

  /** The first time a window is resized it is raised and focused as well. */
  predicate FirstFix(trace: seq<Action>, k: nat)
    requires k < |trace|
  {
    trace[k].Resize? && trace[k] !in trace[..k] ==>
      k + 2 < |trace| && trace[k + 1] == Raise(trace[k].window) && trace[k + 2] == Focus(trace[k].window)
  }

  predicate AtMostOnce(trace: seq<Action>, a: Action) {
    forall k, l :: 0 <= k < l < |trace| && trace[k] == a ==> trace[l] != a
  }

  /** `focused_once` holds the windows that have been resized; only those have been raised. */
  ghost predicate Recorded(st: State) {
    && (forall w: nat :: w in st.focused <==> Resize(w) in st.trace)
    && (forall w: nat :: Raise(w) in st.trace ==> w in st.focused)
    && (forall w: nat :: Focus(w) in st.trace ==> w in st.focused)
  }

  predicate Orderly(x: Server, trace: seq<Action>) {
    && (forall k :: 0 <= k < |trace| ==> Preceded(x, trace, k))
    && (forall k :: 0 <= k < |trace| ==> Acted(x, trace, k))
    && (forall k :: 0 <= k < |trace| ==> FirstFix(trace, k))
  }

  ghost predicate Gentle(trace: seq<Action>) {
    forall w: nat :: AtMostOnce(trace, Raise(w)) && AtMostOnce(trace, Focus(w))
  }

  ghost predicate Good(x: Server, st: State) { Orderly(x, st.trace) && Gentle(st.trace) && Recorded(st) }

  // ---------------------------------------------------------------- one chunk at a time

  /** A harmless action appended. */
  lemma AppendHarmless(x: Server, st: State, a: Action)
    requires Good(x, st) && (a.List? || a.Sync? || a.Sleep? || (a.Query? && !x.NeedsFixing(a.attrs)))
    ensures Good(x, State(st.trace + [a], st.focused))
  {
    var t := st.trace + [a];
    forall k | 0 <= k < |t| ensures Preceded(x, t, k) && Acted(x, t, k) && FirstFix(t, k) {
      if k < |st.trace| { Earlier(x, st.trace, [a], k); }
    }
  }

  /** A window that has been fixed before is resized, no more. */
  lemma AppendRefix(x: Server, st: State, w: nat, a: Option<Attrs>)
    requires Good(x, st) && x.NeedsFixing(a) && w in st.focused
    ensures Good(x, State(st.trace + [Query(w, a), Resize(w)], st.focused))
  {
    var n, more := |st.trace|, [Query(w, a), Resize(w)];
    var t := st.trace + more;
    forall k | 0 <= k < |t| ensures Preceded(x, t, k) && Acted(x, t, k) && FirstFix(t, k) {
      if k < n { Earlier(x, st.trace, more, k); }
      if k == n + 1 { SeenBefore(st.trace, more, k, Resize(w)); }
    }
  }

  lemma SeenBefore(trace: seq<Action>, more: seq<Action>, k: nat, a: Action)
    requires a in trace && |trace| <= k <= |trace + more|
    ensures a in (trace + more)[..k]
  {
    var i :| 0 <= i < |trace| && trace[i] == a;
    assert (trace + more)[..k][i] == a;
  }

  /** A window seen for the first time is resized, raised and focused. */
  lemma AppendFirstFix(x: Server, st: State, w: nat, a: Option<Attrs>)
    requires Good(x, st) && x.NeedsFixing(a) && w !in st.focused
    ensures Good(x, State(st.trace + [Query(w, a), Resize(w), Raise(w), Focus(w)], st.focused + {w}))
  {
    var n, more := |st.trace|, [Query(w, a), Resize(w), Raise(w), Focus(w)];
    var t := st.trace + more;
    forall k | 0 <= k < |t| ensures Preceded(x, t, k) && Acted(x, t, k) && FirstFix(t, k) {
      if k < n { Earlier(x, st.trace, more, k); }
    }
    forall v: nat ensures AtMostOnce(t, Raise(v)) && AtMostOnce(t, Focus(v)) {
      OnceMore(st.trace, more, Raise(v));
      OnceMore(st.trace, more, Focus(v));
    }
  }

  lemma OnceMore(trace: seq<Action>, more: seq<Action>, a: Action)
    requires AtMostOnce(trace, a) && AtMostOnce(more, a) && (a !in trace || a !in more)
    ensures AtMostOnce(trace + more, a)
  {
  }

  /** What held of an action still holds when the trace grows. */
  lemma Earlier(x: Server, trace: seq<Action>, more: seq<Action>, k: nat)
    requires k < |trace| && Preceded(x, trace, k) && Acted(x, trace, k) && FirstFix(trace, k)
    ensures Preceded(x, trace + more, k) && Acted(x, trace + more, k) && FirstFix(trace + more, k)
  {
    assert (trace + more)[..k] == trace[..k];
  }

  lemma VisitIsGood(x: Server, st: State, w: nat)
    requires Good(x, st)
    ensures Good(x, Visit(x, st, w))
  {
    var a := x.attrs(st.trace, w);
    if !x.NeedsFixing(a) {
      AppendHarmless(x, st, Query(w, a));
    } else if w in st.focused {
      AppendRefix(x, st, w, a);
      assert st.focused + {w} == st.focused;
    } else {
      AppendFirstFix(x, st, w, a);
    }
  }

  lemma {:induction false} VisitAllIsGood(x: Server, st: State, windows: seq<nat>)
    requires Good(x, st)
    ensures Good(x, VisitAll(x, st, windows))
  {
    if windows != [] {
      VisitAllIsGood(x, st, windows[..|windows| - 1]);
      VisitIsGood(x, VisitAll(x, st, windows[..|windows| - 1]), windows[|windows| - 1]);
    }
  }

  lemma TickIsGood(x: Server, st: State, i: nat)
    requires Good(x, st)
    ensures Good(x, Tick(x, st, i))
  {
    var windows := x.list(st.trace);
    AppendHarmless(x, st, List(windows));
    var start := State(st.trace + [List(windows)], st.focused);
    VisitAllIsGood(x, start, windows);
    var after := VisitAll(x, start, windows);
    var pause := Sleep(if i < 120 then 1 else 3);
    AppendHarmless(x, after, Sync);
    AppendHarmless(x, State(after.trace + [Sync], after.focused), pause);
    assert after.trace + [Sync] + [pause] == after.trace + [Sync, pause];
  }

  /**
    Safety of the whole run, whatever the server does: each window is raised and focused at most once,
    straight after a resize of it, and resized only straight after it was seen to be a main window out of place;
    and nothing that should be fixed is passed over.
   */
  lemma {:induction false} RunIsGood(x: Server, n: nat)
    ensures Good(x, Ticks(x, n))
  {
    if n > 0 {
      RunIsGood(x, n - 1);
      TickIsGood(x, Ticks(x, n - 1), n - 1);
    }
  }

  /** Focus is only ever given to a window just seen to be a main window: no menu, nothing hidden, nothing small. */
  /** How often the loop has looked for windows, and how many seconds it has slept. */
  function Looks(trace: seq<Action>): nat {
    if trace == [] then 0
    else Looks(trace[..|trace| - 1]) + if trace[|trace| - 1].List? then 1 else 0
  }

  function Slept(trace: seq<Action>): nat {
    if trace == [] then 0
    else Slept(trace[..|trace| - 1]) + if trace[|trace| - 1].Sleep? then trace[|trace| - 1].seconds else 0
  }

  lemma {:induction false} LooksAppend(a: seq<Action>, b: seq<Action>)
    ensures Looks(a + b) == Looks(a) + Looks(b) && Slept(a + b) == Slept(a) + Slept(b)
    decreases |b|
  {
    if b == [] {
      assert a + b == a;
    } else {
      assert (a + b)[..|a + b| - 1] == a + b[..|b| - 1];
      LooksAppend(a, b[..|b| - 1]);
    }
  }

  lemma TurnLooks(w: nat, a: Option<Attrs>, needs: bool, focused: set<nat>)
    ensures Looks(Turn(w, a, needs, focused)) == 0 && Slept(Turn(w, a, needs, focused)) == 0
  {
    QuietActions(Turn(w, a, needs, focused));
  }

  lemma {:induction false} QuietActions(trace: seq<Action>)
    requires forall k :: 0 <= k < |trace| ==> !trace[k].List? && !trace[k].Sleep?
    ensures Looks(trace) == 0 && Slept(trace) == 0
  {
    if trace != [] { QuietActions(trace[..|trace| - 1]); }
  }

  lemma {:induction false} VisitsLook(x: Server, st: State, windows: seq<nat>)
    ensures var after := VisitAll(x, st, windows).trace;
      Looks(after) == Looks(st.trace) && Slept(after) == Slept(st.trace)
  {
    if windows != [] {
      var n := |windows| - 1;
      var before := VisitAll(x, st, windows[..n]);
      var a := x.attrs(before.trace, windows[n]);
      VisitsLook(x, st, windows[..n]);
      TurnLooks(windows[n], a, x.NeedsFixing(a), before.focused);
      LooksAppend(before.trace, Turn(windows[n], a, x.NeedsFixing(a), before.focused));
    }
  }

  /** Every tick looks once; the first 120 sleep for one second each, the others for three. */
  lemma {:induction false} TicksLook(x: Server, n: nat)
    ensures Looks(Ticks(x, n).trace) == n
    ensures Slept(Ticks(x, n).trace) == if n <= 120 then n else 120 + 3 * (n - 120)
  {
    if n > 0 {
      TicksLook(x, n - 1);
      TickLooks(x, Ticks(x, n - 1), n - 1);
    }
  }

  lemma TickLooks(x: Server, st: State, i: nat)
    ensures var after := Tick(x, st, i).trace;
      Looks(after) == Looks(st.trace) + 1 && Slept(after) == Slept(st.trace) + if i < 120 then 1 else 3
  {
    var windows := x.list(st.trace);
    var start := State(st.trace + [List(windows)], st.focused);
    BeginsTick(st.trace, windows);
    VisitsLook(x, start, windows);
    EndsTick(VisitAll(x, start, windows).trace, if i < 120 then 1 else 3);
  }

  lemma BeginsTick(trace: seq<Action>, windows: seq<nat>)
    ensures Looks(trace + [List(windows)]) == Looks(trace) + 1 && Slept(trace + [List(windows)]) == Slept(trace)
  {
    LooksAppend(trace, [List(windows)]);
    assert [List(windows)][..0] == [];
  }

  lemma EndsTick(trace: seq<Action>, seconds: nat)
    ensures Looks(trace + [Sync, Sleep(seconds)]) == Looks(trace)
    ensures Slept(trace + [Sync, Sleep(seconds)]) == Slept(trace) + seconds
  {
    LooksAppend(trace, [Sync, Sleep(seconds)]);
    assert [Sync, Sleep(seconds)][..1] == [Sync] && [Sync][..0] == [];
  }

  /** A whole watch: 600 looks in 1560 seconds of sleep. */
  lemma WatchLasts(x: Server)
    ensures Looks(Ticks(x, TICKS).trace) == 600 && Slept(Ticks(x, TICKS).trace) == 1560
  {
    TicksLook(x, TICKS);
  }

  /** Which windows are touched: main windows that do not cover exactly the screen. */
  lemma NeedsFixingIff(x: Server, a: Attrs)
    ensures x.MainWindow(a) <==>
      !a.overrideRedirect && a.viewable && 5 * a.width >= 3 * x.width && 5 * a.height >= 3 * x.height
    ensures x.NeedsFixing(Some(a)) <==>
      x.MainWindow(a) && (a.x, a.y, a.width, a.height) != (0, 0, x.width, x.height)
    ensures !x.NeedsFixing(None)
  {
    SixTenths(a.width, x.width);
    SixTenths(a.height, x.height);
  }

  /** At least 60%, in whole numbers. */
  lemma SixTenths(n: int, of: int)
    ensures n as real >= of as real * 0.6 <==> 5 * n >= 3 * of
  {
    assert (5 * n) as real == 5.0 * n as real && (3 * of) as real == 3.0 * of as real;
  }

  lemma OnlyMainWindows(x: Server, n: nat, k: nat)
    requires k < |Ticks(x, n).trace|
    ensures var trace := Ticks(x, n).trace;
      && (trace[k].Raise? ==> k >= 2 && SeenAsMain(x, trace[k - 2], trace[k].window))
      && (trace[k].Focus? ==> k >= 3 && SeenAsMain(x, trace[k - 3], trace[k].window))
  {
    RunIsGood(x, n);
    var trace := Ticks(x, n).trace;
    assert Preceded(x, trace, k);
    if trace[k].Raise? { assert Preceded(x, trace, k - 1); }
    if trace[k].Focus? {
      assert Preceded(x, trace, k - 1);
      assert Preceded(x, trace, k - 2);
    }
  }

  predicate SeenAsMain(x: Server, a: Action, w: nat) {
    a.Query? && a.window == w && a.attrs.Some? && x.MainWindow(a.attrs.value)
  }

  // ---------------------------------------------------------------- a quiet screen

  /** After the loop has resized a window, no later look finds it out of place. */
  ghost predicate StaysPut(x: Server, trace: seq<Action>, w: nat) {
    forall k, l :: 0 <= k < l < |trace| && trace[k] == Resize(w) && trace[l].Query? && trace[l].window == w ==>
      !x.NeedsFixing(trace[l].attrs)
  }

  /** A window is resized again if and only if something has moved it since. */
  lemma ResizedOnceIff(x: Server, n: nat, w: nat)
    ensures var trace := Ticks(x, n).trace;
      AtMostOnce(trace, Resize(w)) <==> StaysPut(x, trace, w)
  {
    RunIsGood(x, n);
    var trace := Ticks(x, n).trace;
    if AtMostOnce(trace, Resize(w)) {
      forall k, l | 0 <= k < l < |trace| && trace[k] == Resize(w) && trace[l].Query? && trace[l].window == w
        ensures !x.NeedsFixing(trace[l].attrs)
      {
        assert Acted(x, trace, l);
      }
    }
    if StaysPut(x, trace, w) {
      forall k, l | 0 <= k < l < |trace| && trace[k] == Resize(w) ensures trace[l] != Resize(w) {
        assert Preceded(x, trace, l);
      }
    }
  }

  /** Nothing else moves the window: once resized, it is seen filling the screen. */
  ghost predicate MovedByNobody(x: Server, trace: seq<Action>, w: nat) {
    forall k, l :: 0 <= k < l < |trace| && trace[k] == Resize(w) && trace[l].Query? && trace[l].window == w ==>
      trace[l].attrs.None? || x.Perfect(trace[l].attrs.value)
  }

  lemma QuietScreen(x: Server, n: nat, w: nat)
    requires MovedByNobody(x, Ticks(x, n).trace, w)
    ensures AtMostOnce(Ticks(x, n).trace, Resize(w))
  {
    ResizedOnceIff(x, n, w);
  }
}
