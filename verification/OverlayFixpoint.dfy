/** Order of directories in a repacked archive, and what happens when it is repacked again. */
module OverlayFixpoint {
  import opened Bytes
  import opened Newc
  import opened Text
  import opened PathChain
  import opened Overlay
  import opened OverlayMeaning

  // ---------------------------------------------------------------- directories come first

  /** Every directory on the way to an entry is already there, or comes earlier in the list. */
  ghost predicate ParentsFirst(items: seq<Item>, there: set<string>) {
    forall k :: 0 <= k < |items| ==> Ancestors(items[k].name) <= there + Names(items[..k])
  }

  lemma ParentsAppend(a: seq<Item>, b: seq<Item>, there: set<string>)
    requires ParentsFirst(a, there) && ParentsFirst(b, there + Names(a))
    ensures ParentsFirst(a + b, there)
  {
    forall k | 0 <= k < |a + b| ensures Ancestors((a + b)[k].name) <= there + Names((a + b)[..k]) {
      if k < |a| {
        assert (a + b)[..k] == a[..k];
      } else {
        assert (a + b)[..k] == a + b[..k - |a|];
        NamesAppend(a, b[..k - |a|]);
      }
    }
  }

  lemma {:induction false} DedupParents(items: seq<Item>)
    requires ParentsFirst(items, {})
    ensures ParentsFirst(Dedup(items), {})
  {
    if items != [] {
      var before, last := items[..|items| - 1], items[|items| - 1];
      assert forall k :: 0 <= k <= |before| ==> items[..k] == before[..k];
      DedupParents(before);
      DedupKeepsFirst(before, "");
      if last.name !in Names(before) {
        assert [last][..0] == [];
        ParentsAppend(Dedup(before), [last], {});
      }
    }
  }

  /** The first `n` directories leading to `dir` are there. */
  ghost predicate LinksThere(dir: string, n: nat, there: set<string>)
    requires n <= Links(dir)
  {
    forall i: nat :: i < n && Link(dir, i) != "" ==> Link(dir, i) in there
  }

  lemma AddParents(dir: string, n: nat, before: seq<Item>, there: set<string>)
    requires n < Links(dir) && ParentsFirst(before, there) && LinksThere(dir, n, there + Names(before))
    ensures var more := before + [Item(Link(dir, n), DIR_MODE, [])];
      ParentsFirst(more, there) && Names(more) == Names(before) + {Link(dir, n)}
  {
    var item := Item(Link(dir, n), DIR_MODE, []);
    forall a | a in Ancestors(item.name) ensures a in there + Names(before) { AncestorsAreEarlier(dir, n, a); }
    assert [item][..0] == [];
    ParentsAppend(before, [item], there);
    NamesSnoc(before, item);
  }

  lemma {:induction false} DirsParents(dir: string, n: nat, there: set<string>)
    requires n <= Links(dir)
    ensures ParentsFirst(NewDirs(dir, n, there), there)
    ensures LinksThere(dir, n, there + Names(NewDirs(dir, n, there)))
  {
    if n > 0 {
      DirsParents(dir, n - 1, there);
      OneMoreDir(dir, n, there);
    }
  }

  lemma OneMoreDir(dir: string, n: nat, there: set<string>)
    requires 0 < n <= Links(dir) && ParentsFirst(NewDirs(dir, n - 1, there), there)
    requires LinksThere(dir, n - 1, there + Names(NewDirs(dir, n - 1, there)))
    ensures ParentsFirst(NewDirs(dir, n, there), there)
    ensures LinksThere(dir, n, there + Names(NewDirs(dir, n, there)))
  {
    var d := Link(dir, n - 1);
    var before := NewDirs(dir, n - 1, there);
    if d != "" && d !in there {
      AddsDir(dir, n, before, there);
    } else {
      assert before + [] == before;
      LinksThereNext(dir, n, there + Names(before), there + Names(before));
    }
  }

  lemma AddsDir(dir: string, n: nat, before: seq<Item>, there: set<string>)
    requires 0 < n <= Links(dir) && ParentsFirst(before, there) && LinksThere(dir, n - 1, there + Names(before))
    ensures var more := before + [Item(Link(dir, n - 1), DIR_MODE, [])];
      ParentsFirst(more, there) && LinksThere(dir, n, there + Names(more))
  {
    AddParents(dir, n - 1, before, there);
    var names := Names(before + [Item(Link(dir, n - 1), DIR_MODE, [])]);
    LinksThereNext(dir, n, there + Names(before), there + names);
  }

  lemma LinksThereNext(dir: string, n: nat, there: set<string>, wider: set<string>)
    requires 0 < n <= Links(dir) && LinksThere(dir, n - 1, there) && there <= wider
    requires Link(dir, n - 1) == "" || Link(dir, n - 1) in wider
    ensures LinksThere(dir, n, wider)
  {
  }

  /** A directory's whole chain is in place once its missing links have been added. */
  lemma ChainThere(dir: string, there: set<string>)
    requires dir != ""
    ensures Ancestors(dir) + {dir} <= there + Names(NewDirs(dir, Links(dir), there))
  {
    DirsParents(dir, Links(dir), there);
    LinkIsPrefix(dir, Links(dir) - 1);
    forall a | a in Ancestors(dir) ensures a in there + Names(NewDirs(dir, Links(dir), there)) {
      AncestorsAreEarlier(dir, Links(dir) - 1, a);
    }
  }

  lemma ParentsOfFive(d: seq<Item>, a: seq<Item>, b: seq<Item>, c: seq<Item>, f: seq<Item>)
    requires ParentsFirst(d, {}) && ParentsFirst(a, Names(d))
    requires ParentsFirst(b, Names(d) + Names(a))
    requires ParentsFirst(c, Names(d) + Names(a))
    requires ParentsFirst(f, Names(d) + Names(a) + Names(c))
    ensures ParentsFirst(d + (a + b + c + f), {})
  {
    ParentsAppend(c, f, Names(d) + Names(a));
    WiderThere(c + f, Names(d) + Names(a), Names(d) + Names(a) + Names(b));
    ParentsAppend(b, c + f, Names(d) + Names(a));
    ParentsAppend(a, b + (c + f), Names(d));
    WiderThere(a + (b + (c + f)), Names(d), {} + Names(d));
    ParentsAppend(d, a + (b + (c + f)), {});
    Concat(b, c, f);
    Concat(a, b + c, f);
    Concat(a, b, c);
  }

  lemma WiderThere(items: seq<Item>, there: set<string>, wider: set<string>)
    requires ParentsFirst(items, there) && there <= wider
    ensures ParentsFirst(items, wider)
  {
  }

  /** Repacking keeps every directory ahead of what it contains. */
  lemma RepackParents(p: Plan, items: seq<Item>)
    requires Sound(p) && ParentsFirst(items, {})
    ensures ParentsFirst(Repacked(p, items), {})
  {
    var a := BgrtDirs(p, items);
    DedupParents(items);
    DedupKeepsFirst(items, "");
    DirsParents(p.bgrtDir, Links(p.bgrtDir), Names(items));
    BgrtParents(p, items);
    DirsParents(p.spinnerDir, Links(p.spinnerDir), Names(items) + Names(a));
    ChainThere(p.spinnerDir, Names(items) + Names(a));
    SpinParents(p, items, Names(items) + Names(a) + Names(SpinnerDirs(p, items)));
    ParentsOfFive(Dedup(items), a, [BgrtItem(p)], SpinnerDirs(p, items), Spin(p, Frames(p, items)));
  }

  lemma BgrtParents(p: Plan, items: seq<Item>)
    requires Sound(p)
    ensures ParentsFirst([BgrtItem(p)], Names(items) + Names(BgrtDirs(p, items)))
  {
    ChainThere(p.bgrtDir, Names(items));
    AncestorsInside(p.bgrtDir, p.bgrtFile);
  }

  lemma SpinParents(p: Plan, items: seq<Item>, there: set<string>)
    requires p.spinnerDir != "" && Ancestors(p.spinnerDir) + {p.spinnerDir} <= there
    ensures ParentsFirst(Spin(p, Frames(p, items)), there)
  {
    var frames := Frames(p, items);
    forall k | 0 <= k < |frames| ensures Ancestors(SpinPath(p, frames[k].base)) <= there {
      FrameBases(p, items);
      AncestorsInside(p.spinnerDir, frames[k].base);
    }
  }

  // ---------------------------------------------------------------- which images there are

  function Bases(frames: seq<Frame>): set<string> {
    set k | 0 <= k < |frames| :: frames[k].base
  }

  ghost function FrameNames(p: Plan, items: seq<Item>): set<string> {
    set name | name in Names(items) && IsFrame(p, name) :: Base(name)
  }

  lemma {:induction false} InsertBases(frames: seq<Frame>, base: string, data: seq<Byte>)
    ensures Bases(Insert(frames, base, data)) == Bases(frames) + {base}
  {
    var r := Insert(frames, base, data);
    if frames == [] {
    } else if frames[0].base == base {
      assert forall k :: 0 <= k < |frames| ==> r[k].base == frames[k].base;
    } else if Less(base, frames[0].base) {
      assert r[0].base == base && forall k :: 0 <= k < |frames| ==> r[k + 1] == frames[k];
    } else {
      InsertBases(frames[1..], base, data);
      BasesFront(frames);
      BasesFront(r);
      assert r[1..] == Insert(frames[1..], base, data);
    }
  }

  lemma BasesFront(frames: seq<Frame>)
    requires frames != []
    ensures Bases(frames) == {frames[0].base} + Bases(frames[1..])
  {
    forall b | b in Bases(frames) ensures b in {frames[0].base} + Bases(frames[1..]) {
      var k :| 0 <= k < |frames| && frames[k].base == b;
      if k > 0 { assert frames[1..][k - 1].base == b; }
    }
    forall b | b in Bases(frames[1..]) ensures b in Bases(frames) {
      var k :| 0 <= k < |frames[1..]| && frames[1..][k].base == b;
      assert frames[k + 1].base == b;
    }
  }

  /** The table holds the file names of the images, none of which contains a slash. */
  lemma {:induction false} FrameBases(p: Plan, items: seq<Item>)
    ensures Bases(Frames(p, items)) == FrameNames(p, items)
    ensures forall k :: 0 <= k < |Frames(p, items)| ==> '/' !in Frames(p, items)[k].base
  {
    if items != [] {
      var before, last := items[..|items| - 1], items[|items| - 1];
      assert items == before + [last];
      FrameBases(p, before);
      NamesSnoc(before, last);
      if IsFrame(p, last.name) { InsertBases(Frames(p, before), Base(last.name), last.data); }
      forall k | 0 <= k < |Frames(p, items)| ensures '/' !in Frames(p, items)[k].base {
        assert Frames(p, items)[k].base in Bases(Frames(p, items));
      }
    }
  }

  // ---------------------------------------------------------------- repacking again

  ghost predicate NoFrames(p: Plan, items: seq<Item>) {
    forall k :: 0 <= k < |items| ==> !IsFrame(p, items[k].name)
  }

  lemma {:induction false} FramesIgnore(p: Plan, a: seq<Item>, b: seq<Item>)
    requires NoFrames(p, b)
    ensures Frames(p, a + b) == Frames(p, a)
  {
    if b == [] {
      assert a + b == a;
    } else {
      assert (a + b)[..|a + b| - 1] == a + b[..|b| - 1];
      FramesIgnore(p, a, b[..|b| - 1]);
    }
  }

  lemma {:induction false} LastFrameIgnores(p: Plan, a: seq<Item>, b: seq<Item>, base: string)
    requires NoFrames(p, b)
    ensures LastFrame(p, a + b, base) == LastFrame(p, a, base)
  {
    if b == [] {
      assert a + b == a;
    } else {
      assert (a + b)[..|a + b| - 1] == a + b[..|b| - 1];
      LastFrameIgnores(p, a, b[..|b| - 1], base);
    }
  }

  /** What deduplication leaves of `b` when it follows `a`. */
  lemma {:induction false} DedupAppend(a: seq<Item>, b: seq<Item>) returns (kept: seq<Item>)
    ensures Dedup(a + b) == Dedup(a) + kept
    ensures forall k :: 0 <= k < |kept| ==> kept[k] in b && kept[k].name !in Names(a)
  {
    if b == [] {
      assert a + b == a;
      kept := [];
    } else {
      var last := b[|b| - 1];
      assert (a + b)[..|a + b| - 1] == a + b[..|b| - 1];
      kept := DedupAppend(a, b[..|b| - 1]);
      NamesAppend(a, b[..|b| - 1]);
      if last.name !in Names(a + b[..|b| - 1]) {
        assert Dedup(a) + kept + [last] == Dedup(a) + (kept + [last]);
        kept := kept + [last];
      }
    }
  }

  lemma {:induction false} DedupTwice(items: seq<Item>)
    ensures Dedup(Dedup(items)) == Dedup(items)
  {
    if items != [] {
      var before, last := items[..|items| - 1], items[|items| - 1];
      DedupTwice(before);
      DedupKeepsFirst(before, "");
      if last.name !in Names(before) {
        assert (Dedup(before) + [last])[..|Dedup(before)|] == Dedup(before);
      }
    }
  }

  lemma NothingNew(a: seq<Item>, b: seq<Item>)
    requires Names(b) <= Names(a)
    ensures Dedup(a + b) == Dedup(a)
  {
    var kept := DedupAppend(a, b);
    assert forall x :: x in b ==> x.name in Names(b);
    assert Dedup(a) + [] == Dedup(a);
  }

  /** What the repacker adds is never mistaken for one of our own images. */
  lemma AddedHasNoFrames(p: Plan, items: seq<Item>)
    requires Sound(p)
    ensures NoFrames(p, Added(p, items))
  {
    forall k | 0 <= k < |Added(p, items)| ensures !Contains(Added(p, items)[k].name, p.mark) {
      var name := Added(p, items)[k].name;
      AddedName(p, items, name);
    }
  }

  /** The names the repacker adds. */
  lemma AddedName(p: Plan, items: seq<Item>, name: string)
    requires Sound(p) && name in Names(Added(p, items))
    ensures !Contains(name, p.mark)
  {
    var a, c := BgrtDirs(p, items), SpinnerDirs(p, items);
    var f := Spin(p, Frames(p, items));
    NamesAppend(a, [BgrtItem(p)]);
    NamesAppend(a + [BgrtItem(p)], c);
    NamesAppend(a + [BgrtItem(p)] + c, f);
    if name in Names(a) {
      DirName(p.bgrtDir, Links(p.bgrtDir), Names(items), name);
      PartOfWhole(name, BgrtPath(p), p.mark);
    } else if name in Names(c) {
      DirName(p.spinnerDir, Links(p.spinnerDir), Names(items) + Names(a), name);
      assert '/' !in "";
      PartOfWhole(name, SpinPath(p, ""), p.mark);
    } else if name in Names(f) {
      var k :| 0 <= k < |f| && f[k].name == name;
      FrameBases(p, items);
    }
  }

  lemma {:induction false} DirName(dir: string, n: nat, seen: set<string>, name: string)
    requires n <= Links(dir) && name in Names(NewDirs(dir, n, seen))
    ensures |name| <= |dir| && name == dir[..|name|] && name != "" && name !in seen
  {
    var d := Link(dir, n - 1);
    var before := NewDirs(dir, n - 1, seen);
    assert before + [] == before;
    NamesSnoc(before, Item(d, DIR_MODE, []));
    if name in Names(before) {
      DirName(dir, n - 1, seen, name);
    } else {
      LinkIsPrefix(dir, n - 1);
    }
  }

  lemma PartOfWhole(name: string, whole: string, mark: string)
    requires |name| <= |whole| && name == whole[..|name|] && !Contains(whole, mark)
    ensures !Contains(name, mark)
  {
    if Contains(name, mark) {
      var i :| 0 <= i <= |name| && OccursAt(name, i, mark);
      assert whole[i..i + |mark|] == name[i..i + |mark|];
      assert OccursAt(whole, i, mark);
    }
  }

  /** The image table after one repacking is that of the deduplicated original, and stays so. */
  lemma FramesSettle(p: Plan, items: seq<Item>)
    requires Sound(p)
    ensures Frames(p, Repacked(p, items)) == Frames(p, Dedup(items))
    ensures Frames(p, Dedup(Repacked(p, items))) == Frames(p, Dedup(items))
    ensures Bases(Frames(p, Dedup(items))) == Bases(Frames(p, items))
    ensures forall base :: LastFrame(p, Repacked(p, items), base) == LastFrame(p, Dedup(items), base)
  {
    AddedHasNoFrames(p, items);
    FramesIgnore(p, Dedup(items), Added(p, items));
    var kept := DedupAppend(Dedup(items), Added(p, items));
    DedupTwice(items);
    FramesIgnore(p, Dedup(items), kept);
    FrameBases(p, items);
    FrameBases(p, Dedup(items));
    DedupKeepsFirst(items, "");
    forall base ensures LastFrame(p, Repacked(p, items), base) == LastFrame(p, Dedup(items), base) {
      LastFrameIgnores(p, Dedup(items), Added(p, items), base);
    }
  }

  /** After one repacking no directory is missing any more. */
  lemma {:induction false} NoNewDirs(dir: string, n: nat, seen: set<string>)
    requires n <= Links(dir)
    requires forall i: nat :: i < n && Link(dir, i) != "" ==> Link(dir, i) in seen
    ensures NewDirs(dir, n, seen) == []
  {
    if n > 0 { NoNewDirs(dir, n - 1, seen); }
  }

  lemma RepackedNames(p: Plan, items: seq<Item>)
    ensures Names(Repacked(p, items))
      == Names(items) + Names(BgrtDirs(p, items)) + {BgrtPath(p)} + Names(SpinnerDirs(p, items))
         + Names(Spin(p, Frames(p, items)))
  {
    var a, b, c, f := BgrtDirs(p, items), [BgrtItem(p)], SpinnerDirs(p, items), Spin(p, Frames(p, items));
    DedupKeepsFirst(items, "");
    NamesAppend(a, b);
    NamesAppend(a + b, c);
    NamesAppend(a + b + c, f);
    NamesAppend(Dedup(items), Added(p, items));
    assert b[0].name == BgrtPath(p);
  }

  /** The second repacking only repeats the overrides at the end. */
  lemma SecondRepack(p: Plan, items: seq<Item>)
    requires Sound(p)
    ensures var r := Repacked(p, items);
      Repacked(p, r) == Dedup(r) + ([BgrtItem(p)] + Spin(p, Frames(p, Dedup(items))))
  {
    var r := Repacked(p, items);
    FramesSettle(p, items);
    AllDirsThere(p, items);
    OverridesOnly(p, r);
  }

  lemma OverridesOnly(p: Plan, items: seq<Item>)
    requires BgrtDirs(p, items) == [] && SpinnerDirs(p, items) == []
    ensures Added(p, items) == [BgrtItem(p)] + Spin(p, Frames(p, items))
  {
  }

  lemma AllDirsThere(p: Plan, items: seq<Item>)
    ensures BgrtDirs(p, Repacked(p, items)) == [] && SpinnerDirs(p, Repacked(p, items)) == []
  {
    var r := Repacked(p, items);
    RepackedNames(p, items);
    DirsParents(p.bgrtDir, Links(p.bgrtDir), Names(items));
    DirsParents(p.spinnerDir, Links(p.spinnerDir), Names(items) + Names(BgrtDirs(p, items)));
    NoNewDirs(p.bgrtDir, Links(p.bgrtDir), Names(r));
    NoNewDirs(p.spinnerDir, Links(p.spinnerDir), Names(r) + Names(BgrtDirs(p, r)));
  }

  lemma OverridesThere(p: Plan, items: seq<Item>)
    requires Sound(p)
    ensures Names([BgrtItem(p)] + Spin(p, Frames(p, Dedup(items)))) <= Names(Repacked(p, items))
  {
    FramesSettle(p, items);
    RepackedNames(p, items);
    NamesAppend([BgrtItem(p)], Spin(p, Frames(p, Dedup(items))));
    SpinNames(p, Frames(p, items), Frames(p, Dedup(items)));
  }

  lemma SpinNames(p: Plan, a: seq<Frame>, b: seq<Frame>)
    requires Bases(b) <= Bases(a)
    ensures Names(Spin(p, b)) <= Names(Spin(p, a))
  {
    forall name | name in Names(Spin(p, b)) ensures name in Names(Spin(p, a)) {
      var k :| 0 <= k < |b| && Spin(p, b)[k].name == name;
      assert b[k].base in Bases(b);
      var j :| 0 <= j < |a| && a[j].base == b[k].base;
      assert Spin(p, a)[j].name == name;
    }
  }

  /** For any archive at all, the third repacking changes nothing the second has not. */
  lemma ThirdEqualsSecond(p: Plan, items: seq<Item>)
    requires Sound(p)
    ensures Repacked(p, Repacked(p, Repacked(p, items))) == Repacked(p, Repacked(p, items))
  {
    var r1 := Repacked(p, items);
    var r2 := Repacked(p, r1);
    var tail := [BgrtItem(p)] + Spin(p, Frames(p, Dedup(items)));
    SecondRepack(p, items);
    SecondRepack(p, r1);
    OverridesThere(p, items);
    DedupKeepsFirst(r1, "");
    NothingNew(Dedup(r1), tail);
    DedupTwice(r1);
    FramesSettle(p, items);
  }

  /**
    Repacking a second time leaves the unpacked tree alone exactly when, for every base name, the
    last image has the same contents before and after repeated names are dropped: the first
    repacking copied the last of each, keeps only the first, and the second copies that.
   */
  lemma SecondKeepsTree(p: Plan, items: seq<Item>)
    requires Sound(p)
    ensures var r := Repacked(p, items);
      (forall path :: Find(Repacked(p, r), path) == Find(r, path))
      <==> (forall base :: LastFrame(p, Dedup(items), base) == LastFrame(p, items, base))
  {
    var r := Repacked(p, items);
    FramesSettle(p, items);
    if forall base :: LastFrame(p, Dedup(items), base) == LastFrame(p, items, base) {
      forall path ensures Find(Repacked(p, r), path) == Find(r, path) {
        RepackMeaning(p, items, path);
        RepackMeaning(p, r, path);
        FirstOfRepacked(p, items, path);
      }
    } else {
      var base :| LastFrame(p, Dedup(items), base) != LastFrame(p, items, base);
      var path := SpinPath(p, base);
      SpinBaseOf(p, base, path);
      RepackMeaning(p, items, path);
      RepackMeaning(p, r, path);
      SameImages(p, items, base);
      assert Find(Repacked(p, r), path) != Find(r, path);
    }
  }

  /** With distinct names, repacking twice unpacks to the same tree as repacking once. */
  lemma DistinctKeepsTree(p: Plan, items: seq<Item>, path: string)
    requires Sound(p) && Distinct(items)
    ensures Find(Repacked(p, Repacked(p, items)), path) == Find(Repacked(p, items), path)
  {
    DistinctDedup(items);
    SecondKeepsTree(p, items);
  }

  /** Deduplication never makes an image name appear or disappear. */
  lemma SameImages(p: Plan, items: seq<Item>, base: string)
    ensures LastFrame(p, Dedup(items), base).Some? <==> LastFrame(p, items, base).Some?
  {
    FramesAre(p, items, base);
    FramesAre(p, Dedup(items), base);
    FrameBases(p, items);
    FrameBases(p, Dedup(items));
    DedupKeepsFirst(items, "");
    LookupSome(Frames(p, items), base);
    LookupSome(Frames(p, Dedup(items)), base);
  }

  lemma {:induction false} LookupSome(frames: seq<Frame>, base: string)
    ensures Lookup(frames, base).Some? <==> base in Bases(frames)
  {
    if frames != [] {
      LookupSome(frames[1..], base);
      BasesFront(frames);
    }
  }

  /** The first entry of a repacked archive under a path that is not overridden. */
  lemma FirstOfRepacked(p: Plan, items: seq<Item>, path: string)
    requires Sound(p)
    ensures path != BgrtPath(p) && !Overridden(p, items, path) ==>
      First(Repacked(p, items), path) == Find(Repacked(p, items), path)
  {
    if path != BgrtPath(p) && !Overridden(p, items, path) {
      var a, b, c, f := BgrtDirs(p, items), [BgrtItem(p)], SpinnerDirs(p, items), Spin(p, Frames(p, items));
      FirstAppend(Dedup(items), Added(p, items), path);
      FirstAppend(a + b + c, f, path);
      FirstAppend(a + b, c, path);
      FirstAppend(a, b, path);
      FirstOne(BgrtItem(p), path);
      FindAppend(Dedup(items), Added(p, items), path);
      FindAdded(p, items, path);
      FindDirs(p.bgrtDir, Links(p.bgrtDir), Names(items), path);
      FindDirs(p.spinnerDir, Links(p.spinnerDir), Names(items) + Names(a), path);
      FindSome(a, path);
      FramesAre(p, items, if SpinBase(p, path).Some? then SpinBase(p, path).value else "");
      FindSpin(p, Frames(p, items), path);
      FindSome(f, path);
      FirstSome(f, path);
      DedupKeepsFirst(items, path);
      DedupKeepsFirst(Dedup(items), path);
      DedupTwice(items);
      FindSome(Dedup(items), path);
    }
  }
}
