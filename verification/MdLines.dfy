/** How tools/md-to-pdf.py and tools/verify-pdf.py look at a single line of Markdown. */
module MdLines {
  import opened Text

  /** Python's whitespace, for `str.strip` and for `\s` alike. */
  predicate IsSpace(c: char) {
    var n := c as int;
    9 <= n <= 13 || 28 <= n <= 32 || n == 0x85 || n == 0xA0 || n == 0x1680 || 0x2000 <= n <= 0x200A
    || n == 0x2028 || n == 0x2029 || n == 0x202F || n == 0x205F || n == 0x3000
  }

  predicate AllSpace(s: string) { forall i :: 0 <= i < |s| ==> IsSpace(s[i]) }

  predicate IsDigit(c: char) { '0' <= c <= '9' }

  /** How many whitespace characters `s` starts with. */
  function Indent(s: string): (n: nat)
    ensures n <= |s| && (n < |s| ==> !IsSpace(s[n]))
    ensures forall i :: 0 <= i < n ==> IsSpace(s[i])
  {
    if s == "" || !IsSpace(s[0]) then 0 else 1 + Indent(s[1..])
  }

  function LStrip(s: string): string { s[Indent(s)..] }

  function RStrip(s: string): (r: string)
    ensures r <= s && forall i :: |r| <= i < |s| ==> IsSpace(s[i])
    ensures r != "" ==> !IsSpace(r[|r| - 1])
  {
    if s == "" || !IsSpace(s[|s| - 1]) then s else RStrip(s[..|s| - 1])
  }

  function Strip(s: string): (r: string)
    ensures r != "" ==> !IsSpace(r[0]) && !IsSpace(r[|r| - 1])
    ensures |r| <= |s|
  {
    LStrip(RStrip(s))
  }

  predicate Blank(s: string) { Strip(s) == "" }

  predicate IsFence(line: string) { "```" <= Strip(line) }

  predicate IsQuote(line: string) { ">" <= Strip(line) }

  /** How many `#` the text starts with. */
  function Hashes(t: string): (n: nat)
    ensures n <= |t| && (n < |t| ==> t[n] != '#')
    ensures forall i :: 0 <= i < n ==> t[i] == '#'
  {
    if t == "" || t[0] != '#' then 0 else 1 + Hashes(t[1..])
  }

  /** `^#{1,6}\s` */
  predicate IsHeading(t: string) {
    1 <= Hashes(t) <= 6 && Hashes(t) < |t| && IsSpace(t[Hashes(t)])
  }

  /** `^(m\s*){3,}$` */
  predicate IsRuleOf(t: string, m: char) {
    t != "" && t[0] == m && (forall i :: 0 <= i < |t| ==> t[i] == m || IsSpace(t[i])) && Count(t, m) >= 3
  }

  function Count(t: string, m: char): nat {
    if t == "" then 0 else (if t[0] == m then 1 else 0) + Count(t[1..], m)
  }

  predicate IsRule(t: string) { IsRuleOf(t, '*') || IsRuleOf(t, '-') || IsRuleOf(t, '_') }

  /** `is_table_sep` */
  predicate IsSep(line: string) {
    && (forall i :: 0 <= i < |Strip(line)| ==> Strip(line)[i] in ":|-" || IsSpace(Strip(line)[i]))
    && '-' in Strip(line) && '|' in line && '-' in line
  }

  function Digits(s: string): (n: nat)
    ensures n <= |s| && (n < |s| ==> !IsDigit(s[n]))
    ensures forall i :: 0 <= i < n ==> IsDigit(s[i])
  {
    if s == "" || !IsDigit(s[0]) then 0 else 1 + Digits(s[1..])
  }

  /** The length of the list marker `s` starts with: `[-*+]` or `\d+[.)]`; 0 if there is none. */
  function MarkerLength(s: string): (n: nat)
    ensures n <= |s|
  {
    if s == "" then 0
    else if s[0] in "-*+" then 1
    else
      var d := Digits(s);
      if d > 0 && d < |s| && s[d] in ".)" then d + 1 else 0
  }

  function MarkerOf(s: string): string { LStrip(s)[..MarkerLength(LStrip(s))] }

  function AfterMarker(s: string): string { LStrip(s)[MarkerLength(LStrip(s))..] }

  /** `^(\s*)([-*+]|\d+[.)])\s+` */
  predicate HasMarker(s: string) {
    MarkerOf(s) != "" && AfterMarker(s) != "" && IsSpace(AfterMarker(s)[0])
  }

  /** A list item as the block parser recognises one: on the line without trailing whitespace. */
  predicate IsItem(line: string) { HasMarker(RStrip(line)) }

  /** A list marker followed by nothing but whitespace. */
  predicate BareMarker(line: string) { HasMarker(line) && !IsItem(line) }

  predicate Indented(line: string) { line != "" && (line[0] == ' ' || line[0] == '\t') }

  /** A line that carries on a list item. */
  predicate IsContinuation(line: string) { !Blank(line) && Indented(line) }

  /** `re.sub(r"^\s*>\s?", "", line.rstrip())` */
  function Unquoted(line: string): string {
    var t := LStrip(RStrip(line));
    if !(">" <= t) then RStrip(line)
    else if |t| > 1 && IsSpace(t[1]) then t[2..]
    else t[1..]
  }

  /** `split_row` */
  function SplitRow(line: string): (cells: seq<string>)
    ensures |cells| >= 1
  {
    var raw := Split(DropLastPipe(DropFirstPipe(Strip(line))), '|');
    seq(|raw|, i requires 0 <= i < |raw| => Strip(raw[i]))
  }

  function DropFirstPipe(s: string): string { if "|" <= s then s[1..] else s }

  function DropLastPipe(s: string): string { if s != "" && s[|s| - 1] == '|' then s[..|s| - 1] else s }

  // ---------------------------------------------------------------- facts about lines

  lemma {:induction false} IndentIs(s: string, n: nat)
    requires n <= |s| && (n < |s| ==> !IsSpace(s[n])) && forall i :: 0 <= i < n ==> IsSpace(s[i])
    ensures Indent(s) == n
  {
  }

  /** Stripping the right end first makes no difference. */
  lemma StripOfRStrip(line: string)
    ensures Strip(RStrip(line)) == Strip(line)
  {
    var r := RStrip(line);
    assert RStrip(r) == r;
  }

  lemma {:induction false} DigitsIs(s: string, n: nat)
    requires n <= |s| && (n < |s| ==> !IsDigit(s[n])) && forall i :: 0 <= i < n ==> IsDigit(s[i])
    ensures Digits(s) == n
  {
  }

  lemma MarkerInk(l: string)
    requires MarkerLength(l) > 0
    ensures forall i :: 0 <= i < MarkerLength(l) ==> !IsSpace(l[i])
    ensures l[..MarkerLength(l)] in ["-", "*", "+"] || (IsDigit(l[0]) && MarkerLength(l) >= 2)
    ensures '|' !in l[..MarkerLength(l)]
  {
    if l[0] in "-*+" { assert l[..1] == [l[0]]; }
  }

  /** A marker is recognised from its own characters. */
  lemma MarkerPrefix(l: string, t: string)
    requires t <= l && 0 < MarkerLength(l) <= |t|
    ensures MarkerLength(t) == MarkerLength(l)
  {
    assert forall i :: 0 <= i < |t| ==> t[i] == l[i];
    if !(l[0] in "-*+") { DigitsIs(t, Digits(l)); }
  }

  /** Dropping whitespace at the end of a line leaves its indentation, unless nothing else was there. */
  lemma LStripOfRStrip(line: string)
    requires Indent(line) < |RStrip(line)|
    ensures LStrip(RStrip(line)) == LStrip(line)[..|RStrip(line)| - Indent(line)]
  {
    var r := RStrip(line);
    IndentOfPrefix(line, r);
    SlicePrefix(line, r, Indent(line));
  }

  lemma IndentOfPrefix(line: string, r: string)
    requires r <= line && Indent(line) < |r|
    ensures Indent(r) == Indent(line)
  {
    var n := Indent(line);
    assert forall i :: 0 <= i < |r| ==> r[i] == line[i];
    IndentIs(r, n);
  }

  lemma SlicePrefix(line: string, r: string, n: nat)
    requires r <= line && n <= |r|
    ensures r[n..] == line[n..][..|r| - n]
  {
  }

  /** A bare marker is a marker and whitespace, nothing else. */
  lemma BareMarkerShape(line: string)
    requires BareMarker(line)
    ensures Strip(line) == MarkerOf(line)
    ensures MarkerOf(line) in ["-", "*", "+"] || (|MarkerOf(line)| >= 2 && IsDigit(MarkerOf(line)[0]))
    ensures '|' !in MarkerOf(line)
  {
    var l := LStrip(line);
    MarkerInk(l);
    MarkerStays(line, MarkerLength(l));
    BareMarkerEnds(line, l, RStrip(line), MarkerLength(l));
  }

  lemma BareMarkerEnds(line: string, l: string, r: string, m: nat)
    requires BareMarker(line) && l == LStrip(line) && r == RStrip(line) && m == MarkerLength(l)
    requires |LStrip(r)| >= m && LStrip(r) <= l
    ensures LStrip(r) == l[..m]
  {
    var t := LStrip(r);
    MarkerPrefix(l, t);
    if |t| > m { ItemShape(r, l, m); }
    assert t == l[..m];
  }

  /** A marker is not lost with the whitespace at the end of its line. */
  lemma MarkerStays(line: string, m: nat)
    requires 0 < m <= |LStrip(line)| && !IsSpace(LStrip(line)[m - 1])
    ensures |LStrip(RStrip(line))| >= m && LStrip(RStrip(line)) <= LStrip(line)
  {
    var n := Indent(line);
    assert LStrip(line)[m - 1] == line[n + m - 1];
    assert |RStrip(line)| >= n + m;
    LStripOfRStrip(line);
  }

  /** If whitespace after the marker survives at all, the line is an item. */
  lemma ItemShape(r: string, l: string, m: nat)
    requires LStrip(r) <= l && 0 < m < |LStrip(r)| && m == MarkerLength(LStrip(r)) && IsSpace(l[m])
    ensures HasMarker(r)
  {
    assert LStrip(r)[m..][0] == LStrip(r)[m] == l[m];
  }
}
