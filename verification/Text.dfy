/** The Python string operations the tools lean on. */
module Text {
  /** `[f(x) for x in xs]` */
  function Mapped<T, U>(f: T -> U, xs: seq<T>): (ys: seq<U>)
    ensures |ys| == |xs| && forall k :: 0 <= k < |xs| ==> ys[k] == f(xs[k])
  {
    seq(|xs|, k requires 0 <= k < |xs| => f(xs[k]))
  }

  lemma MappedSnoc<T, U>(f: T -> U, xs: seq<T>, x: T)
    ensures Mapped(f, xs + [x]) == Mapped(f, xs) + [f(x)]
  {
  }

  function Repeat(c: char, n: nat): string { seq(n, _ => c) }

  lemma CutInThree(s: string, n: nat, m: nat)
    requires n + m <= |s|
    ensures s == s[..n] + s[n..][..m] + s[n..][m..]
  {
  }

  /** A slice, one element at a time. */
  lemma SliceSnoc<T>(s: seq<T>, i: nat, j: nat)
    requires i < j <= |s|
    ensures s[i..j] == s[i..j - 1] + [s[j - 1]]
  {
  }

  lemma Concat<T>(a: seq<T>, b: seq<T>, c: seq<T>)
    ensures a + (b + c) == a + b + c
  {
  }

  /** Cutting a concatenation where it was joined. */
  lemma Cut(a: string, b: string)
    ensures (a + b)[..|a|] == a && (a + b)[|a|..] == b && a <= a + b
    ensures a != "" ==> (a + b)[0] == a[0]
  {
  }

  /** Cutting a concatenation inside its first part. */
  lemma CutLeft(a: string, b: string, n: nat)
    requires n <= |a|
    ensures (a + b)[..n] == a[..n] && (a + b)[n..] == a[n..] + b
  {
  }

  lemma InPrefix(s: string, i: nat, k: nat)
    requires i < k <= |s|
    ensures s[i] in s[..k]
  {
    assert s[..k][i] == s[i];
  }

  predicate EndsWith(s: string, suffix: string) {
    |suffix| <= |s| && s[|s| - |suffix|..] == suffix
  }

  predicate OccursAt(s: string, i: int, part: string) {
    0 <= i <= |s| - |part| && s[i..i + |part|] == part
  }

  /** `part in s` */
  predicate Contains(s: string, part: string) {
    exists i :: 0 <= i <= |s| && OccursAt(s, i, part)
  }

  /** Where `c` first occurs, or the length. */
  function IndexOf(s: string, c: char): (k: nat)
    ensures k <= |s| && c !in s[..k] && (k < |s| ==> s[k] == c)
    ensures k == |s| <==> c !in s
  {
    if s == [] then 0
    else if s[0] == c then 0
    else
      var k := IndexOf(s[1..], c);
      assert s == [s[0]] + s[1..];
      assert s[..k + 1] == [s[0]] + s[1..][..k];
      k + 1
  }

  lemma IndexIs(s: string, c: char, k: nat)
    requires k < |s| && s[k] == c && c !in s[..k]
    ensures IndexOf(s, c) == k
  {
    if IndexOf(s, c) < k { InPrefix(s, IndexOf(s, c), k); }
    if k < IndexOf(s, c) { InPrefix(s, k, IndexOf(s, c)); }
  }

  /** `s.split(c)` */
  function Split(s: string, c: char): (parts: seq<string>)
    ensures |parts| >= 1
    ensures forall i :: 0 <= i < |parts| ==> c !in parts[i]
    decreases |s|
  {
    var k := IndexOf(s, c);
    if k == |s| then [s] else [s[..k]] + Split(s[k + 1..], c)
  }

  /** `sep.join(parts)` */
  function Join(parts: seq<string>, sep: string): string {
    if parts == [] then ""
    else if |parts| == 1 then parts[0]
    else parts[0] + sep + Join(parts[1..], sep)
  }

  lemma JoinCons(first: string, rest: seq<string>, sep: string)
    requires rest != []
    ensures Join([first] + rest, sep) == first + sep + Join(rest, sep)
  {
    assert ([first] + rest)[1..] == rest;
  }

  lemma {:induction false} JoinSnoc(parts: seq<string>, last: string, sep: string)
    requires parts != []
    ensures Join(parts + [last], sep) == Join(parts, sep) + sep + last
  {
    if |parts| > 1 {
      assert (parts + [last])[1..] == parts[1..] + [last];
      JoinSnoc(parts[1..], last, sep);
    } else {
      assert (parts + [last])[1..] == [last];
    }
  }

  lemma CutAround(s: string, k: nat)
    requires k < |s|
    ensures s == s[..k] + [s[k]] + s[k + 1..]
  {
  }

  /** Splitting and joining again changes nothing. */
  lemma {:induction false} JoinSplit(s: string, c: char)
    ensures Join(Split(s, c), [c]) == s
    decreases |s|
  {
    var k := IndexOf(s, c);
    if k < |s| {
      JoinSplit(s[k + 1..], c);
      JoinCons(s[..k], Split(s[k + 1..], c), [c]);
      CutAround(s, k);
    }
  }

  lemma JoinFirst(parts: seq<string>, c: char)
    requires |parts| > 1
    ensures Join(parts, [c]) == parts[0] + ([c] + Join(parts[1..], [c]))
  {
    Concat(parts[0], [c], Join(parts[1..], [c]));
  }

  /** Joining and splitting again changes nothing either, when no part holds the separator. */
  lemma {:induction false} SplitJoin(parts: seq<string>, c: char)
    requires parts != [] && forall i :: 0 <= i < |parts| ==> c !in parts[i]
    ensures Split(Join(parts, [c]), c) == parts
  {
    if |parts| > 1 {
      SplitJoin(parts[1..], c);
      JoinFirst(parts, c);
      SplitLine(parts[0], Join(parts[1..], [c]), c);
    }
  }

  /** What follows the last `c`: `s.rsplit(c, 1)[1]`, or all of `s` if there is none. */
  function AfterLast(s: string, c: char): (t: string)
    ensures c !in t && |t| <= |s|
    ensures c in s ==> |t| < |s|
  {
    if c !in s then s
    else
      var k := IndexOf(s, c);
      AfterLast(s[k + 1..], c)
  }

  /** `s.replace(old, new)` */
  function Replace(s: string, old_: string, new_: string): string
    requires old_ != ""
    decreases |s|
  {
    if s == "" then ""
    else if old_ <= s then new_ + Replace(s[|old_|..], old_, new_)
    else [s[0]] + Replace(s[1..], old_, new_)
  }

  /** Text without the first character of what is replaced is passed on. */
  lemma {:induction false} ReplacePasses(text: string, rest: string, old_: string, new_: string)
    requires old_ != "" && old_[0] !in text
    ensures Replace(text + rest, old_, new_) == text + Replace(rest, old_, new_)
  {
    if text == "" {
      assert text + rest == rest;
    } else {
      assert (text + rest)[1..] == text[1..] + rest && (text + rest)[0] == text[0];
      ReplacePasses(text[1..], rest, old_, new_);
      assert text == [text[0]] + text[1..];
    }
  }

  lemma ReplaceHere(rest: string, old_: string, new_: string)
    requires old_ != ""
    ensures Replace(old_ + rest, old_, new_) == new_ + Replace(rest, old_, new_)
  {
    Cut(old_, rest);
  }

  /** The first part of a split. */
  lemma SplitLine(line: string, rest: string, c: char)
    requires c !in line
    ensures Split(line + ([c] + rest), c) == [line] + Split(rest, c)
  {
    CutAtSeparator(line, rest, c);
    IndexIs(line + ([c] + rest), c, |line|);
  }

  lemma CutAtSeparator(line: string, rest: string, c: char)
    ensures var s := line + ([c] + rest); s[|line|] == c && s[..|line|] == line && s[|line| + 1..] == rest
  {
  }
}
