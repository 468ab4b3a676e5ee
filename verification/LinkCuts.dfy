/**
  When the second link substitution of `inline` in tools/md-to-pdf.py leaves the tags written by
  the first one whole.
 */
module LinkCuts {
  import opened Options
  import opened Inline
  import opened LinkMarks

  /** What the first substitution never puts into words and addresses, and escaping nowhere. */
  predicate Fine(m: Mark) {
    && (m.Word? ==> m.c != ']') && (m.Addr? ==> m.c != ')')
    && !CharIs(m, '<') && !CharIs(m, '>')
  }

  predicate AllFine(ms: seq<Mark>) { forall i :: 0 <= i < |ms| ==> Fine(ms[i]) }

  /** No match of the second substitution closes its bracket in an address, or its parenthesis in a link's words. */
  predicate CutFree(ms: seq<Mark>)
    decreases |ms|
  {
    if ms == [] then true
    else
      var x := MatchAt(ms);
      if x.Some? then
        && ms[x.value.close].Plain? && ms[x.value.length - 1].Plain?
        && CutFree(ms[x.value.length..])
      else CutFree(ms[1..])
  }

  lemma LinkIsFine(s: string, web: bool)
    requires '<' !in s && '>' !in s && LinkAt(s, web).Some?
    ensures var l := LinkAt(s, web).value;
      && ']' !in l.words && ')' !in l.target
      && '<' !in l.words && '>' !in l.words && '<' !in l.target && '>' !in l.target
  {
  }

  lemma FineLink(l: Link)
    requires ']' !in l.words && ')' !in l.target
    requires '<' !in l.words && '>' !in l.words && '<' !in l.target && '>' !in l.target
    ensures AllFine(LinkOf(l))
  {
    assert AllFine(Addrs(l.target)) && AllFine(Words(l.words));
    FineJoin([Head], Addrs(l.target));
    FineJoin([Tail], Words(l.words));
    FineJoin([Tail] + Words(l.words), [End]);
    FineJoin([Head] + Addrs(l.target), [Tail] + Words(l.words) + [End]);
  }

  lemma FineJoin(a: seq<Mark>, b: seq<Mark>)
    requires AllFine(a) && AllFine(b)
    ensures AllFine(a + b)
  {
  }

  lemma {:induction false} MarkedIsFine(s: string)
    requires '<' !in s && '>' !in s
    ensures AllFine(Marked(s))
    decreases |s|
  {
    if s != "" {
      var l := LinkAt(s, true);
      if l.Some? {
        LinkIsFine(s, true);
        FineLink(l.value);
        MarkedIsFine(s[l.value.length..]);
        FineJoin(LinkOf(l.value), Marked(s[l.value.length..]));
      } else {
        MarkedIsFine(s[1..]);
        FineJoin([Plain(s[0])], Marked(s[1..]));
      }
    }
  }

  lemma {:induction false} SubIsFine(ms: seq<Mark>)
    requires AllFine(ms)
    ensures AllFine(SubMarks(ms))
    decreases |ms|
  {
    if ms != [] {
      var x := MatchAt(ms);
      if x.Some? { SubIsFine(ms[x.value.length..]); } else { SubIsFine(ms[1..]); }
    }
  }

  // ---------------------------------------------------------------- places

  /** Whatever can follow in the first place can follow in the second. */
  predicate Below(p: Place, q: Place) { p == q || p.InWords? || (p.Out? && q.InTag?) }

  /** Following the marks of a whole text from `p`, while the output stands at `q` above it. */
  lemma {:induction false} Follow(ms: seq<Mark>, p: Place, q: Place)
    requires Below(p, q) && After(StrictNext, p, ms).Some?
    ensures After(Next, q, ms).Some? && Below(After(StrictNext, p, ms).value, After(Next, q, ms).value)
    decreases |ms|
  {
    if ms != [] { Follow(ms[1..], StrictNext(p, ms[0]).value, Next(q, ms[0]).value); }
  }

  /** Cutting a whole text: it is whole up to the cut, and from there. */
  lemma CutWhole(ms: seq<Mark>, p: Place, i: nat)
    requires i <= |ms| && Whole(ms, p)
    ensures var q := After(StrictNext, p, ms[..i]); q.Some? && After(StrictNext, q.value, ms[i..]) == Some(Out)
  {
    assert ms == ms[..i] + ms[i..];
    AfterAppend(StrictNext, p, ms[..i], ms[i..]);
  }

  lemma NextOf(ms: seq<Mark>, p: Place, i: nat)
    requires i < |ms| && Whole(ms[i..], p)
    ensures var q := StrictNext(p, ms[i]); q.Some? && Whole(ms[i + 1..], q.value)
  {
    assert ms[i..][0] == ms[i] && ms[i..][1..] == ms[i + 1..];
  }

  /** An opening bracket leaves the reader where it is. */
  lemma BracketStays(ms: seq<Mark>, p: Place)
    requires ms != [] && Whole(ms, p) && CharIs(ms[0], '[')
    ensures Whole(ms[1..], p)
  {
  }

  lemma CutTail(ms: seq<Mark>, p: Place, i: nat)
    requires 1 <= i <= |ms| && Whole(ms[1..], p)
    ensures var q := After(StrictNext, p, ms[1..i]); q.Some? && Whole(ms[i..], q.value)
  {
    CutWhole(ms[1..], p, i - 1);
    assert ms[1..][..i - 1] == ms[1..i] && ms[1..][i - 1..] == ms[i..];
  }

  /** A match in a whole text: where its bracket closes. */
  lemma MatchOpens(ms: seq<Mark>, p: Place, x: Match)
    requires AllFine(ms) && Whole(ms, p) && MatchAt(ms) == Some(x)
    ensures After(StrictNext, p, ms[1..x.close]) == Some(if ms[x.close].Plain? then Out else InTag)
    ensures ms[x.close].Plain? || ms[x.close].Addr?
  {
    BracketStays(ms, p);
    CutTail(ms, p, x.close);
    NextOf(ms, After(StrictNext, p, ms[1..x.close]).value, x.close);
  }

  /** And where its parenthesis does. */
  lemma MatchCloses(ms: seq<Mark>, p: Place, x: Match)
    requires AllFine(ms) && Whole(ms, p) && MatchAt(ms) == Some(x)
    ensures Whole(ms[x.length..], if ms[x.length - 1].Plain? then Out else InWords)
    ensures ms[x.length - 1].Plain? || ms[x.length - 1].Word?
  {
    CutWhole(ms, p, x.length - 1);
    NextOf(ms, After(StrictNext, p, ms[..x.length - 1]).value, x.length - 1);
  }

  /** Where the text and the output stand after a match. */
  lemma MatchGoesOn(ms: seq<Mark>, p: Place, q: Place, x: Match) returns (p': Place, q': Place)
    requires AllFine(ms) && Whole(ms, p) && Below(p, q) && MatchAt(ms) == Some(x)
    ensures AllFine(ms[x.length..]) && Whole(ms[x.length..], p') && Below(p', q')
    ensures After(Next, q, ms[1..x.close]) == Some(q')
  {
    var words := ms[1..x.close];
    MatchOpens(ms, p, x);
    MatchCloses(ms, p, x);
    Follow(words, p, q);
    p' := if ms[x.length - 1].Plain? then Out else InWords;
    q' := After(Next, q, words).value;
  }

  /** Substitution keeps the shape: tags may be cut short or orphaned, but no piece of a tag comes first. */
  lemma {:induction false} SubIsShaped(ms: seq<Mark>, p: Place, q: Place)
    requires AllFine(ms) && Whole(ms, p) && Below(p, q)
    ensures Shaped(SubMarks(ms), q)
    decreases |ms|
  {
    if ms != [] {
      var x := MatchAt(ms);
      if x.Some? {
        var words, rest := ms[1..x.value.close], ms[x.value.length..];
        var p', q' := MatchGoesOn(ms, p, q, x.value);
        SubIsShaped(rest, p', q');
        AfterAppend(Next, q, words, SubMarks(rest));
      } else {
        SubIsShaped(ms[1..], StrictNext(p, ms[0]).value, Next(q, ms[0]).value);
        assert ([ms[0]] + SubMarks(ms[1..]))[1..] == SubMarks(ms[1..]);
      }
    }
  }

  /** Words whose tag has gone stay behind, with their closing tag. */
  lemma OrphansStay(ms: seq<Mark>)
    requires AllFine(ms) && Whole(ms, InWords)
    ensures !Whole(SubMarks(ms), Out)
  {
    var x := MatchAt(ms);
    if x.Some? {
      var words := ms[1..x.value.close];
      assert ms[0..] == ms;
      NextOf(ms, InWords, 0);
      NextOf(ms, InWords, 1);
      assert words[0] == ms[1];
      assert SubMarks(ms)[0] == ms[1];
      assert StrictNext(Out, ms[1]).None?;
    } else {
      assert SubMarks(ms)[0] == ms[0];
    }
  }

  lemma NoTagGoesOn(ms: seq<Mark>)
    requires Shaped(ms, Out)
    ensures !Whole(ms, InTag)
  {
  }

  /** What is left after a match is whole exactly when the match cuts no tag, and the rest goes on whole. */
  lemma RestIsWhole(ms: seq<Mark>, p: Place, x: Match)
    requires AllFine(ms) && Whole(ms, p) && MatchAt(ms) == Some(x)
    ensures var q := if ms[x.close].Plain? then Out else InTag;
      Whole(SubMarks(ms[x.length..]), q)
      <==> ms[x.close].Plain? && ms[x.length - 1].Plain? && Whole(SubMarks(ms[x.length..]), Out)
  {
    var rest, plain := ms[x.length..], ms[x.length - 1].Plain?;
    MatchCloses(ms, p, x);
    if !ms[x.close].Plain? {
      SubIsShaped(rest, if plain then Out else InWords, Out);
      NoTagGoesOn(SubMarks(rest));
    } else if !plain {
      OrphansStay(rest);
    }
  }

  lemma MatchIsWhole(ms: seq<Mark>, p: Place, x: Match)
    requires AllFine(ms) && Whole(ms, p) && MatchAt(ms) == Some(x)
    ensures Whole(SubMarks(ms), p)
      <==> ms[x.close].Plain? && ms[x.length - 1].Plain? && Whole(SubMarks(ms[x.length..]), Out)
  {
    MatchOpens(ms, p, x);
    RestIsWhole(ms, p, x);
    AfterAppend(StrictNext, p, ms[1..x.close], SubMarks(ms[x.length..]));
  }

  lemma OneIsWhole(ms: seq<Mark>, p: Place)
    requires ms != [] && Whole(ms, p) && MatchAt(ms).None?
    ensures StrictNext(p, ms[0]).Some? && Whole(ms[1..], StrictNext(p, ms[0]).value)
    ensures Whole(SubMarks(ms), p) <==> Whole(SubMarks(ms[1..]), StrictNext(p, ms[0]).value)
    ensures CutFree(ms) <==> CutFree(ms[1..])
  {
    assert ([ms[0]] + SubMarks(ms[1..]))[1..] == SubMarks(ms[1..]);
  }

  lemma CutFreeStep(ms: seq<Mark>, x: Match)
    requires MatchAt(ms) == Some(x)
    ensures CutFree(ms) <==> ms[x.close].Plain? && ms[x.length - 1].Plain? && CutFree(ms[x.length..])
  {
  }

  lemma MatchCombines(ms: seq<Mark>, p: Place, x: Match, rest: seq<Mark>)
    requires AllFine(ms) && Whole(ms, p) && MatchAt(ms) == Some(x) && rest == ms[x.length..]
    requires ms[x.length - 1].Plain? ==> (Whole(SubMarks(rest), Out) <==> CutFree(rest))
    ensures Whole(SubMarks(ms), p) <==> CutFree(ms)
  {
    MatchIsWhole(ms, p, x);
    CutFreeStep(ms, x);
  }

  lemma OneCombines(ms: seq<Mark>, p: Place, rest: seq<Mark>)
    requires ms != [] && Whole(ms, p) && MatchAt(ms).None? && rest == ms[1..] && StrictNext(p, ms[0]).Some?
    requires Whole(SubMarks(rest), StrictNext(p, ms[0]).value) <==> CutFree(rest)
    ensures Whole(SubMarks(ms), p) <==> CutFree(ms)
  {
    OneIsWhole(ms, p);
  }

  lemma NothingIsWhole(p: Place)
    requires Whole([], p)
    ensures Whole(SubMarks([]), p) && CutFree([])
  {
  }

  /** The tags stay whole exactly when nothing is cut. */
  lemma {:induction false} WholeIffCutFree(ms: seq<Mark>, p: Place)
    requires AllFine(ms) && Whole(ms, p)
    ensures Whole(SubMarks(ms), p) <==> CutFree(ms)
    decreases |ms|
  {
    if ms == [] {
      NothingIsWhole(p);
    } else if MatchAt(ms).Some? {
      var x := MatchAt(ms).value;
      MatchCloses(ms, p, x);
      if ms[x.length - 1].Plain? { WholeIffCutFree(ms[x.length..], Out); }
      MatchCombines(ms, p, x, ms[x.length..]);
    } else {
      OneIsWhole(ms, p);
      WholeIffCutFree(ms[1..], StrictNext(p, ms[0]).value);
      OneCombines(ms, p, ms[1..]);
    }
  }
}
