/** What a repacked list of entries unpacks to. */
module OverlayMeaning {
  import opened Bytes
  import opened Options
  import opened Newc
  import opened PathChain
  import opened Overlay

  // ---------------------------------------------------------------- the image table

  /** The data of the last image in the archive with this file name. */
  function LastFrame(p: Plan, items: seq<Item>, base: string): Option<seq<Byte>> {
    if items == [] then None
    else
      var last := items[|items| - 1];
      if IsFrame(p, last.name) && Base(last.name) == base then Some(last.data)
      else LastFrame(p, items[..|items| - 1], base)
  }

  function Lookup(frames: seq<Frame>, base: string): Option<seq<Byte>> {
    if frames == [] then None
    else if frames[0].base == base then Some(frames[0].data)
    else Lookup(frames[1..], base)
  }

  predicate Sorted(frames: seq<Frame>) {
    forall i, j :: 0 <= i < j < |frames| ==> Less(frames[i].base, frames[j].base)
  }

  lemma {:induction false} LessIsStrict(a: string, b: string)
    ensures Less(a, b) ==> a != b && !Less(b, a)
    ensures a != b ==> Less(a, b) || Less(b, a)
  {
    if a != [] && b != [] {
      LessIsStrict(a[1..], b[1..]);
      if a[0] == b[0] && a[1..] == b[1..] { assert a == [a[0]] + a[1..] == b; }
    }
  }

  lemma {:induction false} LessChains(a: string, b: string, c: string)
    requires Less(a, b) && Less(b, c)
    ensures Less(a, c)
  {
    if a != [] && a[0] == b[0] && b[0] == c[0] { LessChains(a[1..], b[1..], c[1..]); }
  }

  /** Up to `k` the two are the same; there the first ends, or has the smaller character. */
  predicate DecidedAt(a: string, b: string, k: nat) {
    k <= |a| && k < |b| && a[..k] == b[..k] && (k == |a| || a[k] < b[k])
  }

  /** Strings are compared at the first character in which they differ, by its code point. */
  lemma {:induction false} LessIff(a: string, b: string)
    ensures Less(a, b) <==> exists k: nat :: DecidedAt(a, b, k)
  {
    if a == [] {
      assert b != [] ==> DecidedAt(a, b, 0);
    } else if b != [] && a[0] == b[0] {
      LessIff(a[1..], b[1..]);
      DecidedNext(a, b);
    } else if b != [] {
      DecidedFirst(a, b);
    }
  }

  lemma DecidedFirst(a: string, b: string)
    requires a != [] && b != [] && a[0] != b[0]
    ensures (exists k: nat :: DecidedAt(a, b, k)) <==> a[0] < b[0]
  {
    assert a[0] < b[0] ==> DecidedAt(a, b, 0);
    forall k: nat | k > 0 ensures !DecidedAt(a, b, k) {
      if k <= |a| && k < |b| { assert a[..k][0] == a[0] && b[..k][0] == b[0]; }
    }
  }

  lemma DecidedNext(a: string, b: string)
    requires a != [] && b != [] && a[0] == b[0]
    ensures (exists k: nat :: DecidedAt(a, b, k)) <==> exists k: nat :: DecidedAt(a[1..], b[1..], k)
  {
    if k: nat :| DecidedAt(a, b, k) {
      assert k > 0;
      DecidedShift(a, b, k - 1);
    }
    if k: nat :| DecidedAt(a[1..], b[1..], k) { DecidedShift(a, b, k); }
  }

  lemma DecidedShift(a: string, b: string, k: nat)
    requires a != [] && b != [] && a[0] == b[0]
    ensures DecidedAt(a, b, k + 1) <==> DecidedAt(a[1..], b[1..], k)
  {
    if k < |a| && k < |b| {
      assert a[..k + 1] == [a[0]] + a[1..][..k] && b[..k + 1] == [b[0]] + b[1..][..k];
      assert a[..k + 1][1..] == a[1..][..k] && b[..k + 1][1..] == b[1..][..k];
    }
  }

  lemma {:induction false} InsertLookup(frames: seq<Frame>, base: string, data: seq<Byte>, b: string)
    ensures Lookup(Insert(frames, base, data), b) == if b == base then Some(data) else Lookup(frames, b)
  {
    if frames == [] || frames[0].base == base || Less(base, frames[0].base) {
    } else {
      InsertLookup(frames[1..], base, data, b);
    }
  }

  lemma {:induction false} InsertSorted(frames: seq<Frame>, base: string, data: seq<Byte>)
    requires Sorted(frames)
    ensures Sorted(Insert(frames, base, data))
    ensures forall f :: f in Insert(frames, base, data) ==> f.base == base || f in frames
  {
    var r := Insert(frames, base, data);
    if frames == [] || frames[0].base == base {
    } else if Less(base, frames[0].base) {
      forall j | 0 < j < |r| ensures Less(base, r[j].base) {
        if j > 1 { LessChains(base, frames[0].base, frames[j - 1].base); }
      }
    } else {
      InsertSorted(frames[1..], base, data);
      LessIsStrict(base, frames[0].base);
      forall j | 0 < j < |r| ensures Less(r[0].base, r[j].base) {
        assert r[j] in Insert(frames[1..], base, data);
      }
    }
  }

  /** The images come out sorted, each name once, with the data of its last entry. */
  lemma {:induction false} FramesAre(p: Plan, items: seq<Item>, base: string)
    ensures Sorted(Frames(p, items))
    ensures Lookup(Frames(p, items), base) == LastFrame(p, items, base)
  {
    if items != [] {
      var before, last := items[..|items| - 1], items[|items| - 1];
      FramesAre(p, before, base);
      if IsFrame(p, last.name) {
        InsertSorted(Frames(p, before), Base(last.name), last.data);
        InsertLookup(Frames(p, before), Base(last.name), last.data, base);
      }
    }
  }

  // ---------------------------------------------------------------- the tree

  /** The file name, when `path` is spelled as a copy in the spinner directory. */
  function SpinBase(p: Plan, path: string): Option<string> {
    if p.spinnerDir + "/" <= path then Some(path[|p.spinnerDir| + 1..]) else None
  }

  lemma SpinBaseOf(p: Plan, base: string, path: string)
    ensures SpinBase(p, path) == Some(base) <==> path == SpinPath(p, base)
  {
    if p.spinnerDir + "/" <= path {
      assert path == (p.spinnerDir + "/") + path[|p.spinnerDir| + 1..];
    }
  }

  function FileNode(data: Option<seq<Byte>>): Option<Node> {
    if data.Some? then Some(Node(FILE_MODE, data.value)) else None
  }

  function SpinNode(p: Plan, frames: seq<Frame>, path: string): Option<Node> {
    var base := SpinBase(p, path);
    if base.None? then None else FileNode(Lookup(frames, base.value))
  }

  lemma {:induction false} FindSpin(p: Plan, frames: seq<Frame>, path: string)
    requires Sorted(frames)
    ensures Find(Spin(p, frames), path) == SpinNode(p, frames, path)
  {
    if frames != [] {
      var first := Item(SpinPath(p, frames[0].base), FILE_MODE, frames[0].data);
      assert Spin(p, frames) == [first] + Spin(p, frames[1..]);
      FindAppend([first], Spin(p, frames[1..]), path);
      FindOne(first, path);
      FindSpin(p, frames[1..], path);
      SpinBaseOf(p, frames[0].base, path);
      if first.name == path { LaterBasesDiffer(frames); }
    }
  }

  lemma LaterBasesDiffer(frames: seq<Frame>)
    requires Sorted(frames) && frames != []
    ensures Lookup(frames[1..], frames[0].base) == None
  {
    forall j | 0 < j < |frames| ensures frames[j].base != frames[0].base {
      LessIsStrict(frames[0].base, frames[j].base);
    }
    NotThere(frames[1..], frames[0].base);
  }

  lemma {:induction false} NotThere(frames: seq<Frame>, base: string)
    requires forall j :: 0 <= j < |frames| ==> frames[j].base != base
    ensures Lookup(frames, base) == None
  {
    if frames != [] { NotThere(frames[1..], base); }
  }

  /** Whether `path` is one of the first `n` directories leading to `dir`. */
  ghost predicate IsLink(dir: string, n: nat, path: string)
    requires n <= Links(dir)
  {
    path != "" && exists i: nat :: i < n && Link(dir, i) == path
  }

  lemma IsLinkNext(dir: string, n: nat, path: string)
    requires 0 < n <= Links(dir)
    ensures IsLink(dir, n, path) <==> IsLink(dir, n - 1, path) || (path != "" && Link(dir, n - 1) == path)
  {
    if IsLink(dir, n, path) {
      var i: nat :| i < n && Link(dir, i) == path;
      assert i == n - 1 || i < n - 1;
    }
  }

  /** What the list of new directories holds for a path that may be one of them. */
  predicate HoldsDir(items: seq<Item>, path: string, present: bool) {
    Find(items, path) == First(items, path) == if present then Some(Node(DIR_MODE, [])) else None
  }

  lemma AddOneDir(items: seq<Item>, d: string, path: string, present: bool)
    requires HoldsDir(items, path, present)
    ensures HoldsDir(items + [Item(d, DIR_MODE, [])], path, present || d == path)
  {
    var item := Item(d, DIR_MODE, []);
    FindAppend(items, [item], path);
    FirstAppend(items, [item], path);
    FindOne(item, path);
    FirstOne(item, path);
  }

  lemma {:induction false} FindDirs(dir: string, n: nat, seen: set<string>, path: string)
    requires n <= Links(dir)
    ensures HoldsDir(NewDirs(dir, n, seen), path, IsLink(dir, n, path) && path !in seen)
  {
    if n > 0 {
      FindDirs(dir, n - 1, seen, path);
      IsLinkNext(dir, n, path);
      var was, linked := IsLink(dir, n - 1, path), IsLink(dir, n, path);
      AddDirUnlessSeen(NewDirs(dir, n - 1, seen), Link(dir, n - 1), seen, path, was, NewDirs(dir, n, seen), linked);
    }
  }

  lemma AddDirUnlessSeen(
    items: seq<Item>, d: string, seen: set<string>, path: string, was: bool, more: seq<Item>, linked: bool)
    requires HoldsDir(items, path, was && path !in seen) && (linked <==> was || (path != "" && d == path))
    requires more == items + if d != "" && d !in seen then [Item(d, DIR_MODE, [])] else []
    ensures HoldsDir(more, path, linked && path !in seen)
  {
    if d != "" && d !in seen {
      AddOneDir(items, d, path, was && path !in seen);
    } else {
      assert items + [] == items;
    }
  }

  /**
    The tree a repacked archive stands for, said without the repacker: copied images win, then
    the replaced theme file, then whatever the archive had first under that name, then the
    directories that were missing.
   */
  ghost function Expected(p: Plan, items: seq<Item>, path: string): Option<Node> {
    var base := SpinBase(p, path);
    if base.Some? && LastFrame(p, items, base.value).Some? then FileNode(LastFrame(p, items, base.value))
    else if path == BgrtPath(p) then FileNode(Some(p.bgrt))
    else if First(items, path).Some? then First(items, path)
    else if IsLink(p.bgrtDir, Links(p.bgrtDir), path) || IsLink(p.spinnerDir, Links(p.spinnerDir), path)
    then Some(Node(DIR_MODE, []))
    else None
  }

  lemma FindAdded(p: Plan, items: seq<Item>, path: string)
    ensures Find(Added(p, items), path) ==
      var spin := SpinNode(p, Frames(p, items), path);
      if spin.Some? then spin
      else if Find(SpinnerDirs(p, items), path).Some? then Find(SpinnerDirs(p, items), path)
      else if path == BgrtPath(p) then FileNode(Some(p.bgrt))
      else Find(BgrtDirs(p, items), path)
  {
    FramesAre(p, items, "");
    FindSpin(p, Frames(p, items), path);
    FindOne(BgrtItem(p), path);
    FindAppend(BgrtDirs(p, items) + [BgrtItem(p)] + SpinnerDirs(p, items), Spin(p, Frames(p, items)), path);
    FindAppend(BgrtDirs(p, items) + [BgrtItem(p)], SpinnerDirs(p, items), path);
    FindAppend(BgrtDirs(p, items), [BgrtItem(p)], path);
  }

  /** Unpacking what the repacker writes gives exactly the expected tree, path by path. */
  lemma RepackMeaning(p: Plan, items: seq<Item>, path: string)
    requires Sound(p)
    ensures Find(Repacked(p, items), path) == Expected(p, items, path)
  {
    var base := SpinBase(p, path);
    if base.Some? { FramesAre(p, items, base.value); }
    FindAppend(Dedup(items), Added(p, items), path);
    FindAdded(p, items, path);
    DedupKeepsFirst(items, path);
    FindSome(Dedup(items), path);
    FindSome(BgrtDirs(p, items), path);
    FindDirs(p.bgrtDir, Links(p.bgrtDir), Names(items), path);
    FindDirs(p.spinnerDir, Links(p.spinnerDir), Names(items) + Names(BgrtDirs(p, items)), path);
    if IsLink(p.spinnerDir, Links(p.spinnerDir), path) {
      var i: nat :| i < Links(p.spinnerDir) && Link(p.spinnerDir, i) == path;
      LinkIsPrefix(p.spinnerDir, i);
    }
  }

  /** What is in the output: copied images, the override, what was there, and directories on the way. */
  ghost predicate Present(p: Plan, items: seq<Item>, path: string) {
    || (exists k :: 0 <= k < |items| && CopiedTo(p, items[k].name, path)) || path == p.bgrtDir + "/" + p.bgrtFile
    || (exists k :: 0 <= k < |items| && items[k].name == path)
    || IsLink(p.bgrtDir, Links(p.bgrtDir), path) || IsLink(p.spinnerDir, Links(p.spinnerDir), path)
  }

  /** The image `name` is copied to `path`. */
  predicate CopiedTo(p: Plan, name: string, path: string) {
    IsFrame(p, name) && path == p.spinnerDir + "/" + Base(name)
  }

  lemma {:induction false} LastFrameIff(p: Plan, items: seq<Item>, base: string)
    ensures LastFrame(p, items, base).Some? <==>
      exists k :: 0 <= k < |items| && IsFrame(p, items[k].name) && Base(items[k].name) == base
  {
    if items != [] {
      var n := |items| - 1;
      LastFrameIff(p, items[..n], base);
      if k :| 0 <= k < n && IsFrame(p, items[k].name) && Base(items[k].name) == base {
        assert items[..n][k] == items[k];
      }
    }
  }

  /** A name is in the output if and only if its path is present in that sense. */
  lemma PresentIff(p: Plan, items: seq<Item>, path: string)
    requires Sound(p)
    ensures path in Names(Repacked(p, items)) <==> Present(p, items, path)
  {
    RepackMeaning(p, items, path);
    FindSome(Repacked(p, items), path);
    FirstSomeIff(items, path);
    CopiedIff(p, items, path);
  }

  lemma FirstSomeIff(items: seq<Item>, path: string)
    ensures First(items, path).Some? <==> exists k :: 0 <= k < |items| && items[k].name == path
  {
    if items != [] && items[0].name != path {
      FirstSomeIff(items[1..], path);
      if k :| 0 <= k < |items| && items[k].name == path { assert items[1..][k - 1].name == path; }
    }
  }

  lemma CopiedIff(p: Plan, items: seq<Item>, path: string)
    ensures (exists k :: 0 <= k < |items| && CopiedTo(p, items[k].name, path))
      <==> SpinBase(p, path).Some? && LastFrame(p, items, SpinBase(p, path).value).Some?
  {
    if k :| 0 <= k < |items| && CopiedTo(p, items[k].name, path) {
      SpinBaseOf(p, Base(items[k].name), path);
      LastFrameIff(p, items, Base(items[k].name));
    }
    if SpinBase(p, path).Some? {
      SpinBaseOf(p, SpinBase(p, path).value, path);
      LastFrameIff(p, items, SpinBase(p, path).value);
    }
  }

  /** The paths the repacker replaces on purpose. */
  predicate Overridden(p: Plan, items: seq<Item>, path: string) {
    path == BgrtPath(p) || (SpinBase(p, path).Some? && LastFrame(p, items, SpinBase(p, path).value).Some?)
  }

  /**
    Every other file keeps its meaning exactly when no name is repeated with a first entry that
    differs from its last: the repacker keeps the first, unpacking would have kept the last.
   */
  lemma OriginalKept(p: Plan, items: seq<Item>)
    requires Sound(p)
    ensures (forall path :: path in Names(items) && !Overridden(p, items, path) ==>
               Find(Repacked(p, items), path) == Find(items, path))
      <==> (forall k :: 0 <= k < |items| && !Overridden(p, items, items[k].name) ==>
               First(items, items[k].name) == Find(items, items[k].name))
  {
    forall path | path in Names(items) && !Overridden(p, items, path)
      ensures Find(Repacked(p, items), path) == First(items, path)
    {
      RepackMeaning(p, items, path);
      FirstSome(items, path);
    }
  }

  lemma FirstSome(items: seq<Item>, path: string)
    ensures First(items, path).Some? <==> path in Names(items)
  {
    DedupKeepsFirst(items, path);
    FindSome(Dedup(items), path);
  }

  ghost predicate Distinct(items: seq<Item>) {
    forall i, j :: 0 <= i < j < |items| ==> items[i].name != items[j].name
  }

  /** With distinct names, which is what the splash builder writes, first and last are one. */
  lemma {:induction false} DistinctFirstIsLast(items: seq<Item>, path: string)
    requires Distinct(items)
    ensures First(items, path) == Find(items, path)
  {
    if items != [] {
      var before, last := items[..|items| - 1], items[|items| - 1];
      assert items == before + [last];
      DistinctFirstIsLast(before, path);
      FirstAppend(before, [last], path);
      FirstOne(last, path);
      FirstSome(before, path);
    }
  }

  lemma {:induction false} DistinctDedup(items: seq<Item>)
    requires Distinct(items)
    ensures Dedup(items) == items
  {
    if items != [] {
      var before, last := items[..|items| - 1], items[|items| - 1];
      assert items == before + [last];
      DistinctDedup(before);
    }
  }
}
