/** `main` of tools/boot/add-bgrt-override.py: read the archive, write it again with the overrides. */
module RepackWriter {
  import opened Bytes
  import opened Options
  import opened Newc
  import opened CpioReaders
  import opened Text
  import opened PathChain
  import opened Overlay
  import opened OverlayFixpoint

  /** What a plan must respect so that everything it adds can be written and read back. */
  predicate Writable(p: Plan) {
    && Ascii(p.bgrtDir) && Ascii(p.bgrtFile) && Ascii(p.spinnerDir)
    && 0 < |p.bgrtDir| <= 100 && |p.bgrtFile| <= 100 && 0 < |p.spinnerDir| <= 100 && |p.bgrt| < TWO32
    && p.bgrtDir[0] != TRAILER[0] && p.spinnerDir[0] != TRAILER[0]
  }

  /** The two buffers `main` grows: the bytes written and the names seen. */
  class Repacker {
    var out: seq<Byte>
    var seen: set<string>
    ghost var written: seq<Item>

    ghost predicate Valid()
      reads this
    {
      AsciiNames(written) && out == EncodeFrom(0, 0, written)
    }

    constructor ()
      ensures Valid() && written == [] && seen == {}
    {
      out, seen, written := [], {}, [];
    }

    /** `out.extend(entry(name, mode, data))` */
    method Extend(item: Item)
      requires Valid() && Ascii(item.name)
      modifies this`out, this`written
      ensures Valid() && written == old(written) + [item]
    {
      AdvanceIs(0, 0, |written|);
      EncodeSnoc(0, 0, written, item);
      out := out + EntryBytes(0, item);
      written := written + [item];
    }

    /** One entry of the first archive, "unchanged", unless its name has been seen. */
    method Copy(item: Item)
      requires Valid() && Ascii(item.name)
      modifies this
      ensures Valid() && seen == old(seen) + {item.name}
      ensures written == if item.name in old(seen) then old(written) else old(written) + [item]
    {
      if item.name !in seen {
        seen := seen + {item.name};
        Extend(item);
      }
    }

    /** The trailer, and zeros up to a multiple of 512. */
    method Close() returns (archive: seq<Byte>)
      requires Valid()
      modifies this`out
      ensures archive == out == Archive(0, 0, written)
    {
      out := out + EntryBytes(0, TRAILER_ITEM);
      out := out + Zeros(Gap512(|out|));
      return out;
    }

    /** `add_dir`: each directory on the way down, unless it has been seen. */
    method AddDir(path: string)
      requires Valid() && Ascii(path)
      modifies this
      ensures Valid()
      ensures written == old(written) + NewDirs(path, Links(path), old(seen))
      ensures seen == old(seen) + Names(NewDirs(path, Links(path), old(seen)))
    {
      ghost var start, there := written, seen;
      for i := 0 to Links(path)
        invariant Valid()
        invariant written == start + NewDirs(path, i, there) && seen == there + Names(NewDirs(path, i, there))
      {
        NewDirsStep(path, i, there);
        ghost var before := NewDirs(path, i, there);
        Enter(Link(path, i));
        Concat(start, before, OneDir(Link(path, i), there + Names(before)));
      }
    }

    /** One directory, unless it has been seen. */
    method Enter(d: string)
      requires Valid() && Ascii(d)
      modifies this
      ensures Valid()
      ensures written == old(written) + OneDir(d, old(seen)) && seen == old(seen) + Names(OneDir(d, old(seen)))
    {
      NamesOfOne(Item(d, DIR_MODE, []));
      if d != "" && d !in seen {
        seen := seen + {d};
        Extend(Item(d, DIR_MODE, []));
      }
    }
  }

  /** The directory `d`, if it is still missing. */
  function OneDir(d: string, seen: set<string>): seq<Item> {
    if d != "" && d !in seen then [Item(d, DIR_MODE, [])] else []
  }

  lemma NamesOfOne(item: Item)
    ensures Names([item]) == {item.name} && Names([]) == {}
  {
    assert [item][0] == item;
  }

  /** No directory on the way down is repeated, so it makes no difference that those just added count as seen. */
  lemma NewDirsStep(path: string, i: nat, seen: set<string>)
    requires i < Links(path) && Ascii(path)
    ensures var before := NewDirs(path, i, seen);
      var one := OneDir(Link(path, i), seen + Names(before));
      && Ascii(Link(path, i)) && NewDirs(path, i + 1, seen) == before + one
      && Names(NewDirs(path, i + 1, seen)) == Names(before) + Names(one)
  {
    var before := NewDirs(path, i, seen);
    LinkIsNew(path, i, seen);
    LinkIsPrefix(path, i);
    NamesAppend(before, OneDir(Link(path, i), seen + Names(before)));
  }

  /** Links have different lengths, so adding some never makes a later one seen. */
  lemma {:induction false} LinkIsNew(dir: string, i: nat, seen: set<string>)
    requires i < Links(dir)
    ensures Link(dir, i) !in Names(NewDirs(dir, i, seen))
  {
    if Link(dir, i) in Names(NewDirs(dir, i, seen)) {
      var j := DirIsLink(dir, i, seen, Link(dir, i));
      LinksGrow(dir, j, i);
    }
  }

  lemma {:induction false} DirIsLink(dir: string, n: nat, seen: set<string>, name: string) returns (j: nat)
    requires n <= Links(dir) && name in Names(NewDirs(dir, n, seen))
    ensures j < n && Link(dir, j) == name
  {
    var before := NewDirs(dir, n - 1, seen);
    assert before + [] == before;
    NamesSnoc(before, Item(Link(dir, n - 1), DIR_MODE, []));
    if name in Names(before) { j := DirIsLink(dir, n - 1, seen, name); } else { j := n - 1; }
  }

  // ---------------------------------------------------------------- what is read fits

  predicate FromFile(raw: seq<Byte>, item: Item) {
    Fits(item) && item.name != TRAILER && (item.name == "" || |item.name| + HEADER <= |raw|)
  }

  lemma StepFromFile(raw: seq<Byte>, off: nat)
    requires |raw| < TWO32 && off < |raw| && CpioStep(raw, off).Entry?
    ensures FromFile(raw, CpioStep(raw, off).item)
  {
    var mode, namesize, size := Field(raw, off, 1).value, Field(raw, off, 11).value, Field(raw, off, 6).value;
    FieldBound(raw, off, 1);
    NameFits(raw, off, namesize);
    FoundFromFile(raw, off, mode, size, namesize, NameAt(raw, off, namesize).value);
  }

  lemma NameFits(raw: seq<Byte>, off: nat, namesize: nat)
    requires |raw| < TWO32 && NameAt(raw, off, namesize).Some?
    ensures var name := NameAt(raw, off, namesize).value;
      Ascii(name) && |name| + 1 <= |raw| + 1 && (name != "" ==> |name| + HEADER <= |raw|)
  {
    NameAscii(raw, off, namesize);
    ClipLength(raw, off + HEADER, off + HEADER + namesize - 1);
  }

  lemma FoundFromFile(raw: seq<Byte>, off: nat, mode: nat, size: nat, namesize: nat, name: string)
    requires |raw| < TWO32 && mode < TWO32 && CpioFound(raw, off, mode, size, namesize, name).Entry?
    requires Ascii(name) && |name| <= |raw| && (name != "" ==> |name| + HEADER <= |raw|)
    ensures FromFile(raw, CpioFound(raw, off, mode, size, namesize, name).item)
  {
    ClipLength(raw, AfterNameRelative(off, namesize), AfterNameRelative(off, namesize) + size);
  }

  lemma FieldBound(raw: seq<Byte>, off: nat, i: nat)
    requires Field(raw, off, i).Some?
    ensures Field(raw, off, i).value < TWO32
  {
    ClipLength(raw, off + 6 + i * 8, off + 14 + i * 8);
    ParseHexBound(Clip(raw, off + 6 + i * 8, off + 14 + i * 8));
  }

  lemma NameAscii(raw: seq<Byte>, off: nat, namesize: nat)
    requires NameAt(raw, off, namesize).Some?
    ensures Ascii(NameAt(raw, off, namesize).value)
    ensures |NameAt(raw, off, namesize).value| == |Clip(raw, off + HEADER, off + HEADER + namesize - 1)|
  {
  }

  lemma ClipLength(s: seq<Byte>, lo: nat, hi: int)
    ensures |Clip(s, lo, hi)| <= |s| && (lo <= hi ==> |Clip(s, lo, hi)| <= hi - lo)
    ensures Clip(s, lo, hi) != [] ==> lo + |Clip(s, lo, hi)| <= |s|
  {
  }

  lemma {:induction false} ScanFromFile(raw: seq<Byte>, pos: nat)
    requires |raw| < TWO32 && ReadCpioFrom(raw, pos).Ok?
    ensures forall k :: 0 <= k < |ReadCpioFrom(raw, pos).value| ==> FromFile(raw, ReadCpioFrom(raw, pos).value[k])
    decreases |raw| - pos
  {
    if pos < |raw| && CpioStep(raw, pos).Entry? {
      StepFromFile(raw, pos);
      ScanFromFile(raw, CpioStep(raw, pos).next);
    }
  }

  // ---------------------------------------------------------------- what is written can be read back

  predicate Storable(item: Item) { Fits(item) && item.name != TRAILER }

  ghost predicate All(items: seq<Item>, good: Item -> bool) {
    forall k :: 0 <= k < |items| ==> good(items[k])
  }

  lemma {:induction false} DedupAll(items: seq<Item>, good: Item -> bool)
    requires All(items, good)
    ensures All(Dedup(items), good)
  {
    if items != [] { DedupAll(items[..|items| - 1], good); }
  }

  lemma {:induction false} DirsAll(dir: string, n: nat, seen: set<string>, good: Item -> bool)
    requires n <= Links(dir)
    requires forall i: nat :: i < n && Link(dir, i) != "" ==> good(Item(Link(dir, i), DIR_MODE, []))
    ensures All(NewDirs(dir, n, seen), good)
  {
    if n > 0 { DirsAll(dir, n - 1, seen, good); }
  }

  ghost predicate GoodDir(dir: string, good: Item -> bool) {
    forall i: nat :: i < Links(dir) && Link(dir, i) != "" ==> good(Item(Link(dir, i), DIR_MODE, []))
  }

  /** A property of all entries that also holds of what is added holds of the whole new list. */
  lemma RepackedAll(p: Plan, items: seq<Item>, good: Item -> bool)
    requires All(items, good) && GoodDir(p.bgrtDir, good) && GoodDir(p.spinnerDir, good)
    requires good(BgrtItem(p)) && All(Spin(p, Frames(p, items)), good)
    ensures All(Repacked(p, items), good)
  {
    DedupAll(items, good);
    DirsAll(p.bgrtDir, Links(p.bgrtDir), Names(items), good);
    DirsAll(p.spinnerDir, Links(p.spinnerDir), Names(items) + Names(BgrtDirs(p, items)), good);
  }

  /** The images come from the archive, so their new names still fit. */
  predicate SpinFits(p: Plan, frames: seq<Frame>) {
    forall k :: 0 <= k < |frames| ==>
      Ascii(SpinPath(p, frames[k].base)) && |SpinPath(p, frames[k].base)| + 1 < TWO32 && |frames[k].data| < TWO32
  }

  lemma SpinStorable(p: Plan, frames: seq<Frame>)
    requires Writable(p) && SpinFits(p, frames)
    ensures All(Spin(p, frames), Storable)
  {
    forall k | 0 <= k < |frames| ensures Storable(Spin(p, frames)[k]) {
      assert SpinPath(p, frames[k].base)[0] == p.spinnerDir[0];
    }
  }

  lemma {:induction false} InsertFits(p: Plan, frames: seq<Frame>, base: string, data: seq<Byte>)
    requires SpinFits(p, frames) && SpinFits(p, [Frame(base, data)])
    ensures SpinFits(p, Insert(frames, base, data))
  {
    assert [Frame(base, data)][0] == Frame(base, data);
    if frames == [] || frames[0].base == base || Less(base, frames[0].base) {
    } else {
      InsertFits(p, frames[1..], base, data);
    }
  }

  lemma {:induction false} AfterLastAscii(s: string, c: char)
    requires Ascii(s)
    ensures Ascii(AfterLast(s, c))
    decreases |s|
  {
    if c in s { AfterLastAscii(s[IndexOf(s, c) + 1..], c); }
  }

  lemma {:induction false} FramesFit(p: Plan, items: seq<Item>, room: nat)
    requires Writable(p) && All(items, Storable) && room < TWO32
    requires forall k :: 0 <= k < |items| && items[k].name != "" ==> |items[k].name| + HEADER <= room
    ensures SpinFits(p, Frames(p, items))
  {
    if items != [] {
      var before, last := items[..|items| - 1], items[|items| - 1];
      FramesFit(p, before, room);
      if IsFrame(p, last.name) {
        AfterLastAscii(last.name, '/');
        InsertFits(p, Frames(p, before), Base(last.name), last.data);
      }
    }
  }

  predicate PlanAscii(p: Plan) {
    Ascii(p.bgrtDir) && Ascii(p.bgrtFile) && Ascii(p.spinnerDir)
  }

  lemma LinkAscii(dir: string)
    requires Ascii(dir)
    ensures forall i: nat :: i < Links(dir) ==> Ascii(Link(dir, i)) && |Link(dir, i)| <= |dir|
    ensures forall i: nat :: i < Links(dir) && Link(dir, i) != "" ==> Link(dir, i)[0] == dir[0]
  {
    forall i: nat | i < Links(dir)
      ensures Ascii(Link(dir, i)) && |Link(dir, i)| <= |dir| && (Link(dir, i) != "" ==> Link(dir, i)[0] == dir[0])
    {
      LinkIsPrefix(dir, i);
    }
  }

  lemma FramesAscii(p: Plan, items: seq<Item>)
    requires PlanAscii(p) && AsciiNames(items)
    ensures forall k :: 0 <= k < |Frames(p, items)| ==> Ascii(SpinPath(p, Frames(p, items)[k].base))
  {
    var frames := Frames(p, items);
    FrameBases(p, items);
    forall k | 0 <= k < |frames| ensures Ascii(SpinPath(p, frames[k].base)) {
      assert frames[k].base in FrameNames(p, items);
      var name :| name in Names(items) && Base(name) == frames[k].base;
      var j :| 0 <= j < |items| && items[j].name == name;
      AfterLastAscii(name, '/');
      SpinPathAscii(p, Base(name));
      assert Base(name) == frames[k].base;
    }
  }

  lemma SpinPathAscii(p: Plan, base: string)
    requires PlanAscii(p) && Ascii(base)
    ensures Ascii(SpinPath(p, base))
  {
  }

  predicate AsciiItem(item: Item) { Ascii(item.name) }

  /** Names stay ASCII. */
  lemma RepackedAscii(p: Plan, items: seq<Item>)
    requires PlanAscii(p) && AsciiNames(items)
    ensures AsciiNames(Repacked(p, items))
  {
    LinkAscii(p.bgrtDir);
    LinkAscii(p.spinnerDir);
    FramesAscii(p, items);
    AllAscii(items);
    RepackedAll(p, items, AsciiItem);
    AllAscii(Repacked(p, items));
  }

  lemma AllAscii(items: seq<Item>)
    ensures AsciiNames(items) <==> All(items, AsciiItem)
  {
    if All(items, AsciiItem) {
      forall k | 0 <= k < |items| ensures Ascii(items[k].name) { assert AsciiItem(items[k]); }
    }
  }

  /** Everything stays storable. */
  lemma RepackedStorable(p: Plan, items: seq<Item>)
    requires Writable(p) && All(items, Storable) && SpinFits(p, Frames(p, items))
    ensures All(Repacked(p, items), Storable)
  {
    LinkAscii(p.bgrtDir);
    LinkAscii(p.spinnerDir);
    SpinStorable(p, Frames(p, items));
    assert BgrtPath(p)[0] == p.bgrtDir[0];
    RepackedAll(p, items, Storable);
  }

  /** An archive of storable items reads back as those items. */
  lemma ReadsBack(items: seq<Item>)
    requires All(items, Storable)
    ensures AsciiNames(items) && ReadCpioFrom(Archive(0, 0, items), 0) == Ok(items)
  {
    assert forall k :: 0 <= k < |items| ==> Storable(items[k]);
    ArchiveRoundTrip(0, 0, items);
    UpToTrailerIsAll(items);
  }
}
