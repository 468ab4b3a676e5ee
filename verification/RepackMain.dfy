/** The repacker as a whole, from the bytes of one archive to the bytes of the next. */
module RepackMain {
  import opened Bytes
  import opened Options
  import opened Newc
  import opened CpioReaders
  import opened Text
  import opened Overlay
  import opened OverlayFixpoint
  import opened OverlayMeaning
  import opened RepackWriter

  /** The ways `main` can end; `complete` is the final check, or the error that reading back raised. */
  datatype Outcome = Unreadable(error: Error) | NoImages | Written(out: seq<Byte>, complete: Result<bool, Error>)

  ghost predicate NamesAll(items: seq<Item>, need: seq<string>) {
    forall i :: 0 <= i < |need| ==> need[i] in Names(items)
  }

  lemma {:induction false} ReadNamesAscii(raw: seq<Byte>, pos: nat)
    requires ReadCpioFrom(raw, pos).Ok?
    ensures AsciiNames(ReadCpioFrom(raw, pos).value)
    decreases |raw| - pos
  {
    if pos < |raw| && CpioStep(raw, pos).Entry? {
      NameAscii(raw, pos, Field(raw, pos, 11).value);
      ReadNamesAscii(raw, CpioStep(raw, pos).next);
    }
  }

  /** `frames = {...}`, sorted. */
  method CollectFrames(p: Plan, items: seq<Item>) returns (frames: seq<Frame>)
    ensures frames == Frames(p, items)
  {
    frames := [];
    for i := 0 to |items|
      invariant frames == Frames(p, items[..i])
    {
      assert items[..i + 1][..i] == items[..i];
      if Contains(items[i].name, p.mark) && EndsWith(items[i].name, p.ext) {
        frames := Insert(frames, AfterLast(items[i].name, '/'), items[i].data);
      }
    }
    assert items[..|items|] == items;
  }

  lemma CopyStep(items: seq<Item>, i: nat)
    requires i < |items|
    ensures Names(items[..i + 1]) == Names(items[..i]) + {items[i].name}
    ensures Dedup(items[..i + 1])
      == if items[i].name in Names(items[..i]) then Dedup(items[..i]) else Dedup(items[..i]) + [items[i]]
  {
    assert items[..i + 1] == items[..i] + [items[i]];
    assert items[..i + 1][..i] == items[..i];
    NamesSnoc(items[..i], items[i]);
  }

  /** First the whole input, each name once. */
  method CopyEntries(items: seq<Item>) returns (w: Repacker)
    requires AsciiNames(items)
    ensures fresh(w) && w.Valid() && w.written == Dedup(items) && w.seen == Names(items)
  {
    w := new Repacker();
    for i := 0 to |items|
      invariant w.Valid()
      invariant w.written == Dedup(items[..i]) && w.seen == Names(items[..i])
    {
      CopyStep(items, i);
      w.Copy(items[i]);
    }
    assert items[..|items|] == items;
  }

  /** The copies of the images. */
  method AddImages(w: Repacker, p: Plan, frames: seq<Frame>)
    requires w.Valid() && forall k :: 0 <= k < |frames| ==> Ascii(SpinPath(p, frames[k].base))
    modifies w
    ensures w.Valid() && w.written == old(w.written) + Spin(p, frames)
  {
    ghost var start, spin := w.written, Spin(p, frames);
    assert start + spin[..0] == start;
    for i := 0 to |frames|
      invariant w.Valid() && w.written == start + spin[..i]
    {
      w.Extend(Item(SpinPath(p, frames[i].base), FILE_MODE, frames[i].data));
      OneMoreItem(start, spin, i);
    }
    assert spin[..|spin|] == spin;
  }

  lemma OneMoreItem(start: seq<Item>, all: seq<Item>, i: nat)
    requires i < |all|
    ensures start + all[..i] + [all[i]] == start + all[..i + 1]
  {
  }

  method WriteOverlay(p: Plan, items: seq<Item>, frames: seq<Frame>) returns (out: seq<Byte>)
    requires PlanAscii(p) && AsciiNames(items) && frames == Frames(p, items)
    ensures AsciiNames(Repacked(p, items)) && out == Archive(0, 0, Repacked(p, items))
  {
    var w := CopyEntries(items);
    AddOverrides(w, p, items, frames);
    out := w.Close();
  }

  /** Everything that comes after the input. */
  method AddOverrides(w: Repacker, p: Plan, ghost items: seq<Item>, frames: seq<Frame>)
    requires PlanAscii(p) && AsciiNames(items) && frames == Frames(p, items)
    requires w.Valid() && w.written == Dedup(items) && w.seen == Names(items)
    modifies w
    ensures w.Valid() && w.written == Repacked(p, items)
  {
    FramesAscii(p, items);
    w.AddDir(p.bgrtDir);
    w.Extend(BgrtItem(p));
    w.AddDir(p.spinnerDir);
    AddImages(w, p, frames);
    FiveParts(Dedup(items), BgrtDirs(p, items), [BgrtItem(p)], SpinnerDirs(p, items), Spin(p, frames));
  }

  lemma FiveParts(d: seq<Item>, a: seq<Item>, b: seq<Item>, c: seq<Item>, f: seq<Item>)
    ensures d + a + b + c + f == d + (a + b + c + f)
  {
  }

  /** All of `main`: nothing is written unless the archive is readable and holds our images. */
  method Repack(p: Plan, raw: seq<Byte>) returns (r: Outcome)
    requires PlanAscii(p)
    ensures r.Unreadable? <==> ReadCpioFrom(raw, 0).Err?
    ensures r.NoImages? <==> ReadCpioFrom(raw, 0).Ok? && Frames(p, ReadCpioFrom(raw, 0).value) == []
    ensures r.Written? ==>
      && r.out == Rewritten(p, raw)
      && var back := ReadCpioFrom(r.out, 0);
         if back.Err? then r.complete == Err(back.error) else r.complete == Ok(NamesAll(back.value, p.need))
  {
    var read := ReadCpio(raw);
    if read.Err? { return Unreadable(read.error); }
    var items := read.value;
    var frames := CollectFrames(p, items);
    if frames == [] { return NoImages; }
    ReadNamesAscii(raw, 0);
    var out := WriteOverlay(p, items, frames);
    var back := ReadCpio(out);
    if back.Err? { return Written(out, Err(back.error)); }
    var complete := HasAll(back.value, p.need);
    return Written(out, Ok(complete));
  }

  method HasAll(items: seq<Item>, need: seq<string>) returns (all: bool)
    ensures all == NamesAll(items, need)
  {
    all := true;
    for i := 0 to |need|
      invariant all == forall j :: 0 <= j < i ==> need[j] in Names(items)
    {
      if need[i] !in Names(items) { all := false; }
    }
  }

  // ---------------------------------------------------------------- from bytes to bytes

  /** The archive that repacking `raw` writes. */
  function Rewritten(p: Plan, raw: seq<Byte>): seq<Byte>
    requires PlanAscii(p) && ReadCpioFrom(raw, 0).Ok?
  {
    ReadNamesAscii(raw, 0);
    RepackedAscii(p, ReadCpioFrom(raw, 0).value);
    Archive(0, 0, Repacked(p, ReadCpioFrom(raw, 0).value))
  }

  /** An archive of less than 4 GiB is repacked into one that reads back entry for entry. */
  lemma RewrittenReadsBack(p: Plan, raw: seq<Byte>)
    requires PlanAscii(p) && Writable(p) && |raw| < TWO32 && ReadCpioFrom(raw, 0).Ok?
    ensures var items := ReadCpioFrom(raw, 0).value;
      && All(Repacked(p, items), Storable)
      && ReadCpioFrom(Rewritten(p, raw), 0) == Ok(Repacked(p, items))
  {
    var items := ReadCpioFrom(raw, 0).value;
    ScanFromFile(raw, 0);
    assert forall k :: 0 <= k < |items| ==> FromFile(raw, items[k]);
    FramesFit(p, items, |raw|);
    RepackedStorable(p, items);
    ReadsBack(Repacked(p, items));
  }

  /**
    The final check of an archive of less than 4 GiB passes if and only if every needed path is
    present: copied there, the override, there before, or a directory on the way.
   */
  lemma CheckPassesIff(p: Plan, raw: seq<Byte>)
    requires PlanAscii(p) && Writable(p) && Sound(p) && |raw| < TWO32 && ReadCpioFrom(raw, 0).Ok?
    ensures var back := ReadCpioFrom(Rewritten(p, raw), 0);
      && back.Ok?
      && (NamesAll(back.value, p.need)
        <==> forall i :: 0 <= i < |p.need| ==> Present(p, ReadCpioFrom(raw, 0).value, p.need[i]))
  {
    var items := ReadCpioFrom(raw, 0).value;
    RewrittenReadsBack(p, raw);
    forall i | 0 <= i < |p.need| ensures p.need[i] in Names(Repacked(p, items)) <==> Present(p, items, p.need[i]) {
      PresentIff(p, items, p.need[i]);
    }
  }

  /**
    Repacking settles: whatever archive of less than 4 GiB one starts from, the third archive is
    byte for byte the second.
   */
  lemma RepackSettles(p: Plan, raw: seq<Byte>)
    requires PlanAscii(p) && Writable(p) && Sound(p) && |raw| < TWO32 && ReadCpioFrom(raw, 0).Ok?
    ensures var once := Rewritten(p, raw);
      ReadCpioFrom(once, 0).Ok? &&
      var twice := Rewritten(p, once);
      ReadCpioFrom(twice, 0).Ok? && Rewritten(p, twice) == twice
  {
    var items := ReadCpioFrom(raw, 0).value;
    var r1 := Repacked(p, items);
    var r2 := Repacked(p, r1);
    RewrittenReadsBack(p, raw);
    SecondStorable(p, items);
    ReadsBack(r2);
    ThirdEqualsSecond(p, items);
  }

  lemma SecondStorable(p: Plan, items: seq<Item>)
    requires Writable(p) && Sound(p) && All(Repacked(p, items), Storable)
    ensures All(Repacked(p, Repacked(p, items)), Storable)
  {
    var r1 := Repacked(p, items);
    var tail := [BgrtItem(p)] + Spin(p, Frames(p, Dedup(items)));
    SecondRepack(p, items);
    OverridesThere(p, items);
    DedupAll(r1, Storable);
    FramesSettle(p, items);
    TailStorable(p, r1, tail);
    All2(Dedup(r1), tail);
  }

  lemma All2(a: seq<Item>, b: seq<Item>)
    requires All(a, Storable) && All(b, Storable)
    ensures All(a + b, Storable)
  {
  }

  lemma TailStorable(p: Plan, items: seq<Item>, tail: seq<Item>)
    requires Writable(p) && All(items, Storable) && Names(tail) <= Names(items)
    requires tail == [BgrtItem(p)] + Spin(p, Frames(p, items))
    ensures All(tail, Storable)
  {
    forall k | 0 <= k < |tail| ensures Storable(tail[k]) {
      assert tail[k].name in Names(tail);
      if k > 0 { FrameData(p, items, k - 1); }
      StorableName(items, tail[k]);
    }
  }

  lemma StorableName(items: seq<Item>, item: Item)
    requires All(items, Storable) && item.name in Names(items) && item.mode < TWO32 && |item.data| < TWO32
    ensures Storable(item)
  {
    var j :| 0 <= j < |items| && items[j].name == item.name;
    assert Storable(items[j]);
  }

  /** The table's data is data of the archive. */
  lemma {:induction false} FrameData(p: Plan, items: seq<Item>, k: nat)
    requires All(items, Storable) && k < |Frames(p, items)|
    ensures |Frames(p, items)[k].data| < TWO32
  {
    if items != [] {
      var before, last := items[..|items| - 1], items[|items| - 1];
      forall j | 0 <= j < |Frames(p, before)| ensures |Frames(p, before)[j].data| < TWO32 { FrameData(p, before, j); }
      assert Storable(last);
      InsertData(Frames(p, before), Base(last.name), last.data);
    }
  }

  lemma {:induction false} InsertData(frames: seq<Frame>, base: string, data: seq<Byte>)
    requires |data| < TWO32 && forall j :: 0 <= j < |frames| ==> |frames[j].data| < TWO32
    ensures forall j :: 0 <= j < |Insert(frames, base, data)| ==> |Insert(frames, base, data)[j].data| < TWO32
  {
    if frames == [] || frames[0].base == base || Less(base, frames[0].base) {
    } else {
      InsertData(frames[1..], base, data);
    }
  }
}
