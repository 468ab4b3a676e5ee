/**
  The two archive readers: `read_back` of tools/boot/make-splash.py, which pads by the absolute
  offset, skips zero bytes and checks every field, and `read_cpio` of
  tools/boot/add-bgrt-override.py, which pads relative to the entry and stops at anything else.
 */
module CpioReaders {
  import opened Bytes
  import opened Options
  import opened Newc
  import Text

  datatype Error = BadMagic(at: nat) | BadField(at: nat) | BadName(at: nat)

  datatype Listing = Listing(kind: char, size: nat, name: string)

  const TRAILER_LISTING := Listing('-', 0, TRAILER)

  /** 'd' when the type bits of the mode say directory. */
  function Kind(mode: nat): char {
    if mode / 0x1000 % 0x10 == 4 then 'd' else 'f'
  }

  function Prepend<T>(xs: seq<T>, r: Result<seq<T>, Error>): Result<seq<T>, Error> {
    if r.Ok? then Ok(xs + r.value) else r
  }

  lemma PrependTwice<T>(xs: seq<T>, ys: seq<T>, r: Result<seq<T>, Error>)
    ensures Prepend(xs, Prepend(ys, r)) == Prepend(xs + ys, r)
  {
    if r.Ok? { Text.Concat(xs, ys, r.value); }
  }

  lemma PrependEmpty<T>(xs: seq<T>, r: Result<seq<T>, Error>)
    ensures Prepend([], r) == r
    ensures r == Ok([]) ==> Prepend(xs, r) == Ok(xs)
  {
    assert xs + [] == xs;
    if r.Ok? { assert [] + r.value == r.value; }
  }

  /** What a reader does at one offset. */
  datatype Step<T> = Skip | Stop | Fail(error: Error) | Last(final: T) | Entry(item: T, next: nat)

  /** Reading on from `pos`, step after step. */
  function Scan<T>(look: nat -> Step<T>, size: nat, pos: nat): Result<seq<T>, Error>
    requires forall p :: look(p).Entry? ==> look(p).next > p
    decreases size - pos
  {
    if pos >= size then Ok([])
    else
      match look(pos)
      case Skip => Scan(look, size, pos + 1)
      case Stop => Ok([])
      case Fail(e) => Err(e)
      case Last(x) => Ok([x])
      case Entry(x, next) => Prepend([x], Scan(look, size, next))
  }

  // ---------------------------------------------------------------- read_back

  function AfterName(pos: nat, namesize: nat): nat {
    pos + HEADER + namesize + Gap4(pos + HEADER + namesize)
  }

  /** What to do at a sound header. */
  function BackFound(pos: nat, mode: nat, size: nat, namesize: nat, name: string): (s: Step<Listing>)
    ensures s.Entry? ==> s.next > pos
    ensures s.Entry? || s.Last?
  {
    if name == TRAILER then Last(TRAILER_LISTING)
    else
      var end := AfterName(pos, namesize) + size;
      Entry(Listing(Kind(mode), size, name), end + Gap4(end))
  }

  /** One turn of the loop; past the end there is nothing to see. */
  function BackStep(blob: seq<Byte>, pos: nat): (s: Step<Listing>)
    ensures s.Entry? ==> s.next > pos
    ensures pos < |blob| ==> !s.Stop?
  {
    if pos >= |blob| then Stop
    else if blob[pos] == 0 then Skip
    else if Clip(blob, pos, pos + 6) != MAGIC then Fail(BadMagic(pos))
    else if !AllFields(blob, pos) then Fail(BadField(pos))
    else
      var mode, size, namesize := Field(blob, pos, 1).value, Field(blob, pos, 6).value, Field(blob, pos, 11).value;
      var name := NameAt(blob, pos, namesize);
      if name.None? then Fail(BadName(pos))
      else BackFound(pos, mode, size, namesize, name.value)
  }

  function BackLook(blob: seq<Byte>): (look: nat -> Step<Listing>)
    ensures forall p :: look(p) == BackStep(blob, p)
  {
    (p: nat) => BackStep(blob, p)
  }

  /** What `read_back` returns or raises when it reads on from `pos`. */
  function ReadBackFrom(blob: seq<Byte>, pos: nat): Result<seq<Listing>, Error> {
    Scan(BackLook(blob), |blob|, pos)
  }

  method ReadBack(blob: seq<Byte>) returns (r: Result<seq<Listing>, Error>)
    ensures r == ReadBackFrom(blob, 0)
  {
    var pos, listing := 0, [];
    PrependEmpty([], ReadBackFrom(blob, 0));
    while pos < |blob|
      invariant ReadBackFrom(blob, 0) == Prepend(listing, ReadBackFrom(blob, pos))
      decreases |blob| - pos
    {
      match BackStep(blob, pos)
      case Skip => pos := pos + 1;
      case Stop => assert false;
      case Fail(e) => return Err(e);
      case Last(l) => return Ok(listing + [l]);
      case Entry(l, next) =>
        PrependTwice(listing, [l], ReadBackFrom(blob, next));
        listing := listing + [l];
        pos := next;
    }
    PrependEmpty(listing, ReadBackFrom(blob, pos));
    return Ok(listing);
  }

  // ---------------------------------------------------------------- read_cpio

  function AfterNameRelative(off: nat, namesize: nat): nat {
    off + (HEADER + namesize + Gap4(HEADER + namesize))
  }

  function CpioFound(raw: seq<Byte>, off: nat, mode: nat, size: nat, namesize: nat, name: string): (s: Step<Item>)
    ensures s.Entry? ==> s.next > off
    ensures s.Entry? || s.Stop?
  {
    if name == TRAILER then Stop
    else
      var data := AfterNameRelative(off, namesize);
      Entry(Item(name, mode, Clip(raw, data, data + size)), data + size + Gap4(size))
  }

  function CpioStep(raw: seq<Byte>, off: nat): (s: Step<Item>)
    ensures s.Entry? ==> s.next > off
    ensures !s.Skip? && !s.Last?
  {
    if Clip(raw, off, off + 6) != MAGIC then Stop
    else if Field(raw, off, 1).None? || Field(raw, off, 11).None? || Field(raw, off, 6).None? then Fail(BadField(off))
    else
      var mode, namesize, size := Field(raw, off, 1).value, Field(raw, off, 11).value, Field(raw, off, 6).value;
      var name := NameAt(raw, off, namesize);
      if name.None? then Fail(BadName(off))
      else CpioFound(raw, off, mode, size, namesize, name.value)
  }

  function CpioLook(raw: seq<Byte>): (look: nat -> Step<Item>)
    ensures forall p :: look(p) == CpioStep(raw, p)
  {
    (p: nat) => CpioStep(raw, p)
  }

  /** What listing `read_cpio` yields or raises when it reads on from `off`. */
  function ReadCpioFrom(raw: seq<Byte>, off: nat): Result<seq<Item>, Error> {
    Scan(CpioLook(raw), |raw|, off)
  }

  method ReadCpio(raw: seq<Byte>) returns (r: Result<seq<Item>, Error>)
    ensures r == ReadCpioFrom(raw, 0)
  {
    var off, items := 0, [];
    PrependEmpty([], ReadCpioFrom(raw, 0));
    while off < |raw|
      invariant ReadCpioFrom(raw, 0) == Prepend(items, ReadCpioFrom(raw, off))
      decreases |raw| - off
    {
      var step := CpioStep(raw, off);
      if step.Fail? { return Err(step.error); }
      if step.Stop? {
        PrependEmpty(items, ReadCpioFrom(raw, off));
        return Ok(items);
      }
      PrependTwice(items, [step.item], ReadCpioFrom(raw, step.next));
      items := items + [step.item];
      off := step.next;
    }
    PrependEmpty(items, ReadCpioFrom(raw, off));
    return Ok(items);
  }

  // ---------------------------------------------------------------- the round trip

  /** Both readers stop at an entry with the trailer's name, whoever wrote it. */
  function UpToTrailer(items: seq<Item>): seq<Item> {
    if items == [] || IsTrailer(items[0]) then [] else [items[0]] + UpToTrailer(items[1..])
  }

  function Listed(items: seq<Item>): seq<Listing> {
    seq(|items|, i requires 0 <= i < |items| => ListingOf(items[i]))
  }

  lemma {:induction false} UpToTrailerIsAll(items: seq<Item>)
    ensures UpToTrailer(items) == items <==> forall k :: 0 <= k < |items| ==> items[k].name != TRAILER
  {
    if items != [] {
      UpToTrailerIsAll(items[1..]);
      UpToTrailerShorter(items[1..]);
      if items[0].name != TRAILER {
        assert items == [items[0]] + items[1..];
        if UpToTrailer(items) == items {
          assert UpToTrailer(items)[1..] == items[1..];
          assert forall k :: 1 <= k < |items| ==> items[k] == items[1..][k - 1];
        }
      }
    }
  }

  lemma {:induction false} UpToTrailerShorter(items: seq<Item>)
    ensures |UpToTrailer(items)| <= |items|
  {
    if items != [] && items[0].name != TRAILER { UpToTrailerShorter(items[1..]); }
  }

  predicate AllFit(items: seq<Item>) {
    forall k :: 0 <= k < |items| ==> Fits(items[k])
  }

  /** What a reader finds in the header at `pos`. */
  predicate HeaderShows(raw: seq<Byte>, pos: nat, mode: nat, size: nat, namesize: nat, name: string) {
    && pos < |raw| && raw[pos] != 0 && Clip(raw, pos, pos + 6) == MAGIC && AllFields(raw, pos)
    && Field(raw, pos, 1) == Some(mode) && Field(raw, pos, 6) == Some(size)
    && Field(raw, pos, 11) == Some(namesize) && NameAt(raw, pos, namesize) == Some(name)
  }

  lemma HeaderReads(before: seq<Byte>, ino: nat, item: Item, rest: seq<Byte>)
    requires Fits(item) && ino < TWO32
    ensures HeaderShows(
      before + EntryBytes(ino, item) + rest, |before|, item.mode, |item.data|, |item.name| + 1, item.name)
  {
    var raw := before + EntryBytes(ino, item) + rest;
    var fields := Fields(ino, item.mode, |item.data|, |item.name| + 1);
    forall i: nat | i < 13 ensures Field(raw, |before|, i) == Some(fields[i]) {
      HeadFields(before, ino, item, rest, i);
    }
    HeadName(before, ino, item, rest);
    HeadMagic(before, ino, item, rest);
    ClipFirst(raw, |before|);
    FieldsShow(raw, |before|, fields, item.name);
  }

  lemma ClipFirst(raw: seq<Byte>, pos: nat)
    requires Clip(raw, pos, pos + 6) == MAGIC
    ensures pos < |raw| && raw[pos] != 0
  {
    assert Clip(raw, pos, pos + 6)[0] == raw[pos];
  }

  lemma FieldsShow(raw: seq<Byte>, pos: nat, fields: seq<nat>, name: string)
    requires pos < |raw| && raw[pos] != 0 && Clip(raw, pos, pos + 6) == MAGIC && |fields| == 13
    requires forall i: nat :: i < 13 ==> Field(raw, pos, i) == Some(fields[i])
    requires NameAt(raw, pos, fields[11]) == Some(name)
    ensures HeaderShows(raw, pos, fields[1], fields[6], fields[11], name)
  {
  }

  /** Where the data of an entry at `pos` starts. */
  function DataAt(pos: nat, item: Item): nat {
    AfterNameRelative(pos, |item.name| + 1)
  }

  lemma DataReads(before: seq<Byte>, ino: nat, item: Item, rest: seq<Byte>)
    requires Fits(item) && ino < TWO32
    ensures var data := DataAt(|before|, item);
      && Clip(before + EntryBytes(ino, item) + rest, data, data + |item.data|) == item.data
      && data + |item.data| + Gap4(|item.data|) == |before + EntryBytes(ino, item)|
  {
    HeadLength(ino, item);
    var head := Head(ino, item) + Zeros(Gap4(|Head(ino, item)|));
    var tail := Zeros(Gap4(|item.data|));
    DataInside(before, head, item.data, tail, rest);
  }

  lemma DataInside(before: seq<Byte>, head: seq<Byte>, data: seq<Byte>, tail: seq<Byte>, rest: seq<Byte>)
    ensures Clip(before + (head + data + tail) + rest, |before| + |head|, |before| + |head| + |data|) == data
  {
    assert before + (head + data + tail) + rest == (before + head) + data + (tail + rest);
    MiddleSlice(before + head, data, tail + rest, 0, |data|);
  }

  function ListingOf(item: Item): Listing {
    Listing(Kind(item.mode), |item.data|, item.name)
  }

  /** What each reader does at a header that shows these values. */
  lemma CpioStepAt(raw: seq<Byte>, pos: nat, mode: nat, size: nat, namesize: nat, name: string)
    requires HeaderShows(raw, pos, mode, size, namesize, name)
    ensures CpioStep(raw, pos) == CpioFound(raw, pos, mode, size, namesize, name)
  {
  }

  lemma BackStepAt(raw: seq<Byte>, pos: nat, mode: nat, size: nat, namesize: nat, name: string)
    requires HeaderShows(raw, pos, mode, size, namesize, name)
    ensures BackStep(raw, pos) == BackFound(pos, mode, size, namesize, name)
  {
  }

  /** From a multiple of four, padding by offset and padding by length land on the same byte. */
  lemma PaddingAgrees(pos: nat, namesize: nat, size: nat)
    requires pos % 4 == 0
    ensures AfterName(pos, namesize) == AfterNameRelative(pos, namesize)
    ensures var data := AfterName(pos, namesize);
      Gap4(data + size) == Gap4(size) && (data + size + Gap4(size)) % 4 == 0
  {
    GapShifts(pos, HEADER + namesize);
    GapShifts(AfterName(pos, namesize), size);
  }

  predicate IsTrailer(item: Item) { item.name == TRAILER }

  /** Both readers find `item`, and would go on at `next`. */
  predicate Found(c: Step<Item>, b: Step<Listing>, item: Item, next: nat) {
    && c == (if IsTrailer(item) then Stop else Entry(item, next))
    && b == (if IsTrailer(item) then Last(TRAILER_LISTING) else Entry(ListingOf(item), next))
  }

  lemma FindsItem(raw: seq<Byte>, pos: nat, item: Item)
    requires pos % 4 == 0 && HeaderShows(raw, pos, item.mode, |item.data|, |item.name| + 1, item.name)
    requires Clip(raw, DataAt(pos, item), DataAt(pos, item) + |item.data|) == item.data
    ensures Found(CpioStep(raw, pos), BackStep(raw, pos), item, DataAt(pos, item) + |item.data| + Gap4(|item.data|))
  {
    CpioStepAt(raw, pos, item.mode, |item.data|, |item.name| + 1, item.name);
    BackStepAt(raw, pos, item.mode, |item.data|, |item.name| + 1, item.name);
    BothFind(raw, pos, item);
  }

  lemma BothFind(raw: seq<Byte>, pos: nat, item: Item)
    requires pos % 4 == 0
    requires Clip(raw, DataAt(pos, item), DataAt(pos, item) + |item.data|) == item.data
    ensures Found(CpioFound(raw, pos, item.mode, |item.data|, |item.name| + 1, item.name),
                  BackFound(pos, item.mode, |item.data|, |item.name| + 1, item.name),
                  item, DataAt(pos, item) + |item.data| + Gap4(|item.data|))
  {
    PaddingAgrees(pos, |item.name| + 1, |item.data|);
  }

  lemma FindsEntry(raw: seq<Byte>, before: seq<Byte>, ino: nat, item: Item, rest: seq<Byte>)
    requires Fits(item) && ino < TWO32 && |before| % 4 == 0 && raw == before + EntryBytes(ino, item) + rest
    ensures |before| < |raw|
      && Found(CpioLook(raw)(|before|), BackLook(raw)(|before|), item, |before + EntryBytes(ino, item)|)
  {
    HeaderReads(before, ino, item, rest);
    DataReads(before, ino, item, rest);
    FindsAt(raw, |before|, item, |before + EntryBytes(ino, item)|);
  }

  lemma FindsAt(raw: seq<Byte>, pos: nat, item: Item, next: nat)
    requires pos % 4 == 0 && HeaderShows(raw, pos, item.mode, |item.data|, |item.name| + 1, item.name)
    requires Clip(raw, DataAt(pos, item), DataAt(pos, item) + |item.data|) == item.data
    requires next == DataAt(pos, item) + |item.data| + Gap4(|item.data|)
    ensures pos < |raw| && Found(CpioLook(raw)(pos), BackLook(raw)(pos), item, next)
  {
    FindsItem(raw, pos, item);
  }

  /** From `pos` on, both readers find the items one after the other, then a trailer. */
  ghost predicate Holds(cpio: nat -> Step<Item>, back: nat -> Step<Listing>, size: nat, pos: nat, items: seq<Item>)
    decreases |items|
  {
    pos < size &&
    if items == [] then exists item, next :: IsTrailer(item) && Found(cpio(pos), back(pos), item, next)
    else exists next :: Found(cpio(pos), back(pos), items[0], next) && Holds(cpio, back, size, next, items[1..])
  }

  lemma {:induction false} ScanFinds(
    cpio: nat -> Step<Item>, back: nat -> Step<Listing>, size: nat, pos: nat, items: seq<Item>)
    requires forall p :: cpio(p).Entry? ==> cpio(p).next > p
    requires forall p :: back(p).Entry? ==> back(p).next > p
    requires Holds(cpio, back, size, pos, items)
    ensures Scan(cpio, size, pos) == Ok(UpToTrailer(items))
    ensures Scan(back, size, pos) == Ok(Listed(UpToTrailer(items)) + [TRAILER_LISTING])
    decreases |items|
  {
    if items == [] {
      assert Listed([]) + [TRAILER_LISTING] == [TRAILER_LISTING];
    } else {
      var next :| Found(cpio(pos), back(pos), items[0], next) && Holds(cpio, back, size, next, items[1..]);
      if IsTrailer(items[0]) {
        assert UpToTrailer(items) == [] && Listed([]) + [TRAILER_LISTING] == [TRAILER_LISTING];
      } else {
        ScanFinds(cpio, back, size, next, items[1..]);
        ListedFirst(items[0], UpToTrailer(items[1..]));
      }
    }
  }

  predicate InosFit(ino: nat, step: nat, count: nat) {
    step <= 1 && ino < TWO32 && (step == 1 ==> ino + count <= TWO32)
  }

  lemma StillAligned(before: seq<Byte>, ino: nat, item: Item)
    requires |before| % 4 == 0 && Ascii(item.name)
    ensures |before + EntryBytes(ino, item)| % 4 == 0
  {
    EntryAligned(ino, item);
    SumAligned(|before|, |EntryBytes(ino, item)|);
  }

  lemma TailFits(ino: nat, step: nat, items: seq<Item>)
    requires |items| > 0 && AllFit(items) && InosFit(ino, step, |items|)
    ensures AllFit(items[1..])
    ensures |items[1..]| > 0 ==> InosFit(ino + step, step, |items[1..]|)
  {
  }

  /** An archive is longer than it has entries, and than anything in them. */
  lemma {:induction false} EncodeBounds(ino: nat, step: nat, items: seq<Item>)
    requires AsciiNames(items)
    ensures |EncodeFrom(ino, step, items)| >= |items|
    ensures forall k :: 0 <= k < |items| ==>
      |items[k].name| + 1 <= |EncodeFrom(ino, step, items)| && |items[k].data| <= |EncodeFrom(ino, step, items)|
    decreases |items|
  {
    if items != [] {
      EncodeBounds(ino + step, step, items[1..]);
      EntryBounds(ino, items[0]);
      assert forall k :: 0 < k < |items| ==> items[k] == items[1..][k - 1];
    }
  }

  lemma EntryBounds(ino: nat, item: Item)
    requires Ascii(item.name)
    ensures |EntryBytes(ino, item)| >= |item.name| + 1 && |EntryBytes(ino, item)| >= |item.data|
  {
  }

  lemma ArchiveBounds(ino: nat, step: nat, items: seq<Item>)
    requires AsciiNames(items)
    ensures |Archive(ino, step, items)| > |items|
    ensures forall k :: 0 <= k < |items| ==>
      |items[k].name| + 1 < |Archive(ino, step, items)| && |items[k].data| < |Archive(ino, step, items)|
  {
    EncodeBounds(ino, step, items);
    TrailerBounds(0);
  }

  lemma TrailerBounds(ino: nat)
    ensures |EntryBytes(ino, TRAILER_ITEM)| > 0
  {
    EntryBounds(ino, TRAILER_ITEM);
  }

  lemma {:induction false} ArchiveHolds(
    raw: seq<Byte>, before: seq<Byte>, ino: nat, step: nat, items: seq<Item>, rest: seq<Byte>)
    requires AllFit(items) && |before| % 4 == 0
    requires |items| > 0 ==> InosFit(ino, step, |items|)
    requires raw == before + EncodeFrom(ino, step, items) + EntryBytes(0, TRAILER_ITEM) + rest
    ensures Holds(CpioLook(raw), BackLook(raw), |raw|, |before|, items)
    decreases |items|
  {
    var trailer := EntryBytes(0, TRAILER_ITEM);
    if |items| == 0 {
      assert before + EncodeFrom(ino, step, items) == before;
      FindsEntry(raw, before, 0, TRAILER_ITEM, rest);
      HoldsTrailer(CpioLook(raw), BackLook(raw), |raw|, |before|, TRAILER_ITEM, |before + trailer|);
    } else {
      var first, others := EntryBytes(ino, items[0]), EncodeFrom(ino + step, step, items[1..]);
      Regroup(before, first, others, trailer, rest);
      FindsEntry(raw, before, ino, items[0], others + trailer + rest);
      StillAligned(before, ino, items[0]);
      TailFits(ino, step, items);
      ArchiveHolds(raw, before + first, ino + step, step, items[1..], rest);
      HoldsMore(CpioLook(raw), BackLook(raw), |raw|, |before|, items, |before + first|);
    }
  }

  lemma HoldsTrailer(cpio: nat -> Step<Item>, back: nat -> Step<Listing>, size: nat, pos: nat, item: Item, next: nat)
    requires pos < size && IsTrailer(item) && Found(cpio(pos), back(pos), item, next)
    ensures Holds(cpio, back, size, pos, [])
  {
  }

  lemma HoldsMore(cpio: nat -> Step<Item>, back: nat -> Step<Listing>, size: nat, pos: nat, items: seq<Item>, next: nat)
    requires pos < size && items != [] && Found(cpio(pos), back(pos), items[0], next)
      && Holds(cpio, back, size, next, items[1..])
    ensures Holds(cpio, back, size, pos, items)
  {
  }

  lemma ListedFirst(item: Item, others: seq<Item>)
    ensures Listed([item] + others) + [TRAILER_LISTING] == [ListingOf(item)] + (Listed(others) + [TRAILER_LISTING])
  {
  }

  lemma Regroup(a: seq<Byte>, b: seq<Byte>, c: seq<Byte>, d: seq<Byte>, e: seq<Byte>)
    ensures a + (b + c) + d + e == a + b + (c + d + e)
    ensures a + (b + c) + d + e == (a + b) + c + d + e
  {
  }

  lemma ArchiveIs(ino: nat, step: nat, items: seq<Item>, trailer: seq<Byte>)
    requires AsciiNames(items) && trailer == EntryBytes(0, TRAILER_ITEM)
    ensures var entries := EncodeFrom(ino, step, items);
      Archive(ino, step, items) == [] + entries + trailer + Zeros(Gap512(|entries + trailer|))
  {
    assert [] + EncodeFrom(ino, step, items) == EncodeFrom(ino, step, items);
  }

  lemma WholeArchiveHolds(ino: nat, step: nat, items: seq<Item>)
    requires AllFit(items) && InosFit(ino, step, |items|)
    ensures var raw := Archive(ino, step, items); Holds(CpioLook(raw), BackLook(raw), |raw|, 0, items)
  {
    var trailer := EntryBytes(0, TRAILER_ITEM);
    ArchiveIs(ino, step, items, trailer);
    ArchiveHolds(Archive(ino, step, items), [], ino, step, items,
      Zeros(Gap512(|EncodeFrom(ino, step, items) + trailer|)));
  }

  /** Reading a finished archive gives back every item in order, and its listing ends with the trailer. */
  lemma ArchiveRoundTrip(ino: nat, step: nat, items: seq<Item>)
    requires AllFit(items) && InosFit(ino, step, |items|)
    ensures ReadCpioFrom(Archive(ino, step, items), 0) == Ok(UpToTrailer(items))
    ensures ReadBackFrom(Archive(ino, step, items), 0) == Ok(Listed(UpToTrailer(items)) + [TRAILER_LISTING])
  {
    var raw := Archive(ino, step, items);
    WholeArchiveHolds(ino, step, items);
    ScanFinds(CpioLook(raw), BackLook(raw), |raw|, 0, items);
  }

  lemma ArchiveSize(ino: nat, step: nat, items: seq<Item>)
    requires AsciiNames(items)
    ensures |Archive(ino, step, items)| % 512 == 0
  {
  }

  // ---------------------------------------------------------------- directories and files

  /**
    What `read_back` lists for a header: a directory if and only if the type bits of its mode,
    between the permissions and whatever lies above, are 4.
   */
  lemma ListedByType(
    raw: seq<Byte>, pos: nat, mode: nat, above: nat, kind: nat, permissions: nat, size: nat, namesize: nat,
    name: string)
    requires mode == above * 0x1_0000 + kind * 0x1000 + permissions && kind < 0x10 && permissions < 0x1000
    requires HeaderShows(raw, pos, mode, size, namesize, name) && name != TRAILER
    ensures var s := BackStep(raw, pos);
      s.Entry? && s.item == Listing(if kind == 4 then 'd' else 'f', size, name)
  {
    BackStepAt(raw, pos, mode, size, namesize, name);
    TypeBits(mode, above, kind, permissions);
  }

  lemma TypeBits(mode: nat, above: nat, kind: nat, permissions: nat)
    requires mode == above * 0x1_0000 + kind * 0x1000 + permissions && kind < 0x10 && permissions < 0x1000
    ensures mode / 0x1000 % 0x10 == kind
  {
    assert mode / 0x1000 == above * 0x10 + kind;
  }

  // ---------------------------------------------------------------- agreement on any file

  /** The two readers see the same entry: same name and kind, and the data is what the file still holds of it. */
  predicate SameEntry(l: Listing, item: Item) {
    l.name == item.name && l.kind == Kind(item.mode) && |item.data| <= l.size
  }

  predicate Matching(b: Step<Listing>, c: Step<Item>) {
    if b.Entry? then c.Entry? && SameEntry(b.item, c.item) && b.next == c.next && b.next % 4 == 0 else c.Stop?
  }

  lemma StepsAgree(raw: seq<Byte>, pos: nat)
    requires pos % 4 == 0 && pos < |raw| && !BackStep(raw, pos).Fail?
    ensures Matching(BackStep(raw, pos), CpioStep(raw, pos))
  {
    if raw[pos] == 0 {
      ZeroIsNoMagic(raw, pos);
    } else {
      var mode, size, namesize, name := BackSees(raw, pos);
      CpioStepAt(raw, pos, mode, size, namesize, name);
      BackStepAt(raw, pos, mode, size, namesize, name);
      FoundAgree(raw, pos, mode, size, namesize, name);
    }
  }

  lemma ZeroIsNoMagic(raw: seq<Byte>, pos: nat)
    requires pos < |raw| && raw[pos] == 0
    ensures CpioStep(raw, pos).Stop? && BackStep(raw, pos).Skip?
  {
    assert Clip(raw, pos, pos + 6)[0] == 0;
  }

  lemma BackSees(raw: seq<Byte>, pos: nat) returns (mode: nat, size: nat, namesize: nat, name: string)
    requires pos < |raw| && raw[pos] != 0 && !BackStep(raw, pos).Fail?
    ensures HeaderShows(raw, pos, mode, size, namesize, name)
  {
    mode, size, namesize := Field(raw, pos, 1).value, Field(raw, pos, 6).value, Field(raw, pos, 11).value;
    name := NameAt(raw, pos, namesize).value;
  }

  lemma FoundAgree(raw: seq<Byte>, pos: nat, mode: nat, size: nat, namesize: nat, name: string)
    requires pos % 4 == 0
    ensures Matching(BackFound(pos, mode, size, namesize, name), CpioFound(raw, pos, mode, size, namesize, name))
  {
    PaddingAgrees(pos, namesize, size);
  }

  /** Where reading stops. */
  function ScanEnd<T>(look: nat -> Step<T>, size: nat, pos: nat): (e: nat)
    requires forall p :: look(p).Entry? ==> look(p).next > p
    ensures e >= pos
    decreases size - pos
  {
    if pos >= size then pos
    else
      match look(pos)
      case Skip => ScanEnd(look, size, pos + 1)
      case Entry(_, next) => ScanEnd(look, size, next)
      case _ => pos
  }

  /** `l` is one for one the entries `c`, and then `more`. */
  predicate Extends(l: seq<Listing>, c: seq<Item>, more: seq<Listing>) {
    && |l| == |c| + |more| && l[|c|..] == more
    && forall k :: 0 <= k < |c| ==> SameEntry(l[k], c[k])
  }

  lemma ExtendsCons(x: Listing, y: Item, l: seq<Listing>, c: seq<Item>, more: seq<Listing>)
    requires SameEntry(x, y) && Extends(l, c, more)
    ensures Extends([x] + l, [y] + c, more)
  {
  }

  lemma {:induction false} ScansAgree(cpio: nat -> Step<Item>, back: nat -> Step<Listing>, size: nat, pos: nat)
    requires forall p :: cpio(p).Entry? ==> cpio(p).next > p
    requires forall p :: back(p).Entry? ==> back(p).next > p
    requires forall p: nat :: p % 4 == 0 && p < size && !back(p).Fail? ==> Matching(back(p), cpio(p))
    requires pos % 4 == 0 && Scan(back, size, pos).Ok?
    ensures var c, e := Scan(cpio, size, pos), ScanEnd(cpio, size, pos);
      && c.Ok? && Scan(back, size, e).Ok? && Extends(Scan(back, size, pos).value, c.value, Scan(back, size, e).value)
      && (e < size ==> e % 4 == 0 && cpio(e).Stop? && !back(e).Entry? && !back(e).Fail?)
    decreases size - pos
  {
    if pos < size && back(pos).Entry? {
      var next, e := back(pos).next, ScanEnd(cpio, size, pos);
      assert Matching(back(pos), cpio(pos));
      ScansAgree(cpio, back, size, next);
      ExtendsCons(back(pos).item, cpio(pos).item, Scan(back, size, next).value, Scan(cpio, size, next).value,
                  Scan(back, size, e).value);
    } else if pos < size {
      assert Matching(back(pos), cpio(pos));
    }
  }

  /** Where `read_cpio` stops. */
  function CpioEnd(raw: seq<Byte>): nat { ScanEnd(CpioLook(raw), |raw|, 0) }

  /**
    On any file that `read_back` accepts, `read_cpio` also succeeds.  The listing is, entry by
    entry, what it yields, followed by what `read_back` finds from where `read_cpio` stopped: at
    the end of the file, at the trailer, or at a zero byte, which only `read_back` skips.
   */
  lemma ReadersAgree(raw: seq<Byte>)
    requires ReadBackFrom(raw, 0).Ok?
    ensures var c, e := ReadCpioFrom(raw, 0), CpioEnd(raw);
      && c.Ok? && ReadBackFrom(raw, e).Ok?
      && Extends(ReadBackFrom(raw, 0).value, c.value, ReadBackFrom(raw, e).value)
      && (e < |raw| && raw[e] != 0 ==> ReadBackFrom(raw, e).value == [TRAILER_LISTING])
      && (e >= |raw| ==> ReadBackFrom(raw, e).value == [])
  {
    forall p: nat | p % 4 == 0 && p < |raw| && !BackStep(raw, p).Fail?
      ensures Matching(BackStep(raw, p), CpioStep(raw, p))
    {
      StepsAgree(raw, p);
    }
    ScansAgree(CpioLook(raw), BackLook(raw), |raw|, 0);
    var e := CpioEnd(raw);
    if e < |raw| && raw[e] != 0 { LastIsTrailer(raw, e); }
  }

  lemma LastIsTrailer(raw: seq<Byte>, pos: nat)
    requires pos < |raw| && raw[pos] != 0 && !BackStep(raw, pos).Entry? && !BackStep(raw, pos).Fail?
    ensures ReadBackFrom(raw, pos) == Ok([TRAILER_LISTING])
  {
    assert BackStep(raw, pos) == Last(TRAILER_LISTING);
  }
}
