/** `class Cpio` of tools/boot/make-splash.py: the archive grows entry by entry in one buffer. */
module CpioWriter {
  import opened Bytes
  import opened Options
  import opened Newc
  import opened CpioReaders
  import opened Text

  /**
    The source pads by the length of everything written so far, the format relative to the
    entry; the two agree because every entry starts at a multiple of four.
   */
  lemma PaddedByOffset(out: seq<Byte>, ino: nat, item: Item)
    requires |out| % 4 == 0 && Ascii(item.name)
    ensures var withHead := out + Head(ino, item);
      var padded := withHead + Zeros(Gap4(|withHead|));
      var withData := padded + item.data;
      withData + Zeros(Gap4(|withData|)) == out + EntryBytes(ino, item)
  {
    var head, data := Head(ino, item), item.data;
    GapShifts(|out|, |head|);
    GapShifts(|out| + |head| + Gap4(|head|), |data|);
    SplitEntry(out, head, Zeros(Gap4(|head|)), data, Zeros(Gap4(|data|)));
  }

  lemma SplitEntry(out: seq<Byte>, a: seq<Byte>, b: seq<Byte>, c: seq<Byte>, d: seq<Byte>)
    ensures out + a + b + c + d == out + (a + b + c + d)
  {
  }

  // ---------------------------------------------------------------- what a caller asked for

  datatype Call = Dir(name: string) | File(name: string, data: seq<Byte>)

  /** The entry written for a call: directories are 0755, files 0644. */
  function ItemOfCall(call: Call): Item {
    match call
    case Dir(name) => Item(name, DIR_MODE, [])
    case File(name, data) => Item(name, FILE_MODE, data)
  }

  function NameOf(item: Item): string { item.name }

  /** How a call is to be listed. */
  function ListingOfCall(call: Call): Listing {
    match call
    case Dir(name) => Listing('d', 0, name)
    case File(name, data) => Listing('f', |data|, name)
  }

  predicate NoTrailer(calls: seq<Call>) { forall k :: 0 <= k < |calls| ==> calls[k].name != "TRAILER!!!" }

  lemma CallsListed(calls: seq<Call>, items: seq<Item>)
    requires items == Mapped(ItemOfCall, calls) && NoTrailer(calls)
    ensures Listed(UpToTrailer(items)) == Mapped(ListingOfCall, calls)
  {
    UpToTrailerIsAll(items);
    forall k | 0 <= k < |calls| ensures ListingOf(items[k]) == ListingOfCall(calls[k]) { ModesListed(calls[k]); }
  }

  lemma ModesListed(call: Call)
    ensures ListingOf(ItemOfCall(call)) == ListingOfCall(call)
  {
  }

  /** The buffer holds the entries of the calls, and the counter and the list of names go with them. */
  predicate IsState(out: seq<Byte>, ino: nat, names: seq<string>, items: seq<Item>, calls: seq<Call>) {
    && AsciiNames(items) && out == EncodeFrom(1, 1, items) && ino == |items| + 1
    && items == Mapped(ItemOfCall, calls) && names == Mapped(NameOf, items)
  }

  lemma StateGrows(
    out: seq<Byte>, ino: nat, names: seq<string>, items: seq<Item>, calls: seq<Call>, item: Item, call: Call)
    requires IsState(out, ino, names, items, calls) && Ascii(item.name) && ItemOfCall(call) == item
    ensures IsState(out + EntryBytes(ino, item), ino + 1, names + [item.name], items + [item], calls + [call])
  {
    OneMore(items, item);
    MappedSnoc(ItemOfCall, calls, call);
    MappedSnoc(NameOf, items, item);
  }

  class Cpio {
    var out: seq<Byte>
    var ino: nat
    var names: seq<string>
    ghost var items: seq<Item>
    ghost var calls: seq<Call>

    ghost predicate Valid()
      reads this
    {
      IsState(out, ino, names, items, calls)
    }

    constructor ()
      ensures Valid() && items == [] && calls == []
    {
      out, ino, names, items, calls := [], 1, [], [], [];
    }

    /** `_entry`: a name that is not ASCII raises before anything is written. */
    method AddEntry(name: string, mode: nat, data: seq<Byte>, ghost call: Call) returns (ok: bool)
      requires Valid() && ItemOfCall(call) == Item(name, mode, data)
      modifies this
      ensures Valid() && (ok <==> Ascii(name))
      ensures items == if ok then old(items) + [Item(name, mode, data)] else old(items)
      ensures calls == if ok then old(calls) + [call] else old(calls)
      ensures !ok ==> unchanged(this)
    {
      if !Ascii(name) { return false; }
      var nameB := ToBytes(name) + [0];
      var hdr := MAGIC + HexAll(Fields(ino, mode, |data|, |nameB|));
      ghost var item := Item(name, mode, data);
      ghost var start := out;
      ino := ino + 1;
      out := out + (hdr + nameB);
      out := out + Zeros(Gap4(|out|));
      out := out + data;
      out := out + Zeros(Gap4(|out|));
      names := names + [name];
      EncodeAligned(1, 1, items);
      PaddedByOffset(start, ino - 1, item);
      StateGrows(start, ino - 1, old(names), items, calls, item, call);
      items, calls := items + [item], calls + [call];
      return true;
    }

    method AddDir(name: string) returns (ok: bool)
      requires Valid()
      modifies this
      ensures Valid() && (ok <==> Ascii(name))
      ensures items == if ok then old(items) + [Item(name, DIR_MODE, [])] else old(items)
      ensures calls == if ok then old(calls) + [Dir(name)] else old(calls)
    {
      ok := AddEntry(name, DIR_MODE, [], Dir(name));
    }

    method AddFile(name: string, data: seq<Byte>) returns (ok: bool)
      requires Valid()
      modifies this
      ensures Valid() && (ok <==> Ascii(name))
      ensures items == if ok then old(items) + [Item(name, FILE_MODE, data)] else old(items)
      ensures calls == if ok then old(calls) + [File(name, data)] else old(calls)
    {
      ok := AddEntry(name, FILE_MODE, data, File(name, data));
    }

    /**
      `finish`: the trailer and the closing zeros.  When every field fits, both readers get the
      items back from the result, up to the first that carries the trailer's own name; if none
      does, every directory added is listed as one, every file as one, and nothing else.
     */
    method Finish() returns (blob: seq<Byte>)
      requires Valid()
      modifies this
      ensures unchanged(`ino) && unchanged(`names) && unchanged(`items) && unchanged(`calls) && out == blob
      ensures blob == Archive(1, 1, items) && |blob| % 512 == 0
      ensures AllFit(items) && |items| < TWO32 ==>
        && ReadCpioFrom(blob, 0) == Ok(UpToTrailer(items))
        && ReadBackFrom(blob, 0) == Ok(Listed(UpToTrailer(items)) + [TRAILER_LISTING])
      ensures AllFit(items) && |items| < TWO32 && NoTrailer(calls) ==>
        ReadBackFrom(blob, 0) == Ok(Mapped(ListingOfCall, calls) + [Listing('-', 0, "TRAILER!!!")])
    {
      EncodeAligned(1, 1, items);
      TrailerPadded(out);
      var nameB := TrailerBytes();
      var hdr := MAGIC + HexAll(Fields(0, 0, 0, |nameB|));
      out := out + (hdr + nameB);
      out := out + Zeros(Gap4(|out|));
      BlocksFilled(items, out);
      out := out + Zeros(Gap512(|out|));
      ArchiveReads(items);
      CallsRead(calls, items);
      return out;
    }
  }

  /** `b'TRAILER!!!\0'` */
  function TrailerBytes(): seq<Byte> {
    assert Ascii(TRAILER);
    ToBytes(TRAILER) + [0]
  }

  lemma TrailerPadded(out: seq<Byte>)
    requires |out| % 4 == 0
    ensures var nameB := TrailerBytes();
      var withHead := out + (MAGIC + HexAll(Fields(0, 0, 0, |nameB|)) + nameB);
      withHead + Zeros(Gap4(|withHead|)) == out + EntryBytes(0, TRAILER_ITEM)
  {
    PaddedByOffset(out, 0, TRAILER_ITEM);
    var padded := out + Head(0, TRAILER_ITEM) + Zeros(Gap4(|out + Head(0, TRAILER_ITEM)|));
    NothingMore(padded);
  }

  lemma BlocksFilled(items: seq<Item>, out: seq<Byte>)
    requires AsciiNames(items) && out == EncodeFrom(1, 1, items) + EntryBytes(0, TRAILER_ITEM)
    ensures out + Zeros(Gap512(|out|)) == Archive(1, 1, items)
  {
  }

  lemma NothingMore(out: seq<Byte>)
    requires |out| % 4 == 0
    ensures out + [] + Zeros(Gap4(|out + []|)) == out
  {
  }

  lemma ArchiveReads(items: seq<Item>)
    requires AsciiNames(items)
    ensures |Archive(1, 1, items)| % 512 == 0
    ensures AllFit(items) && |items| < TWO32 ==>
      && ReadCpioFrom(Archive(1, 1, items), 0) == Ok(UpToTrailer(items))
      && ReadBackFrom(Archive(1, 1, items), 0) == Ok(Listed(UpToTrailer(items)) + [TRAILER_LISTING])
  {
    ArchiveSize(1, 1, items);
    if AllFit(items) && |items| < TWO32 { ArchiveRoundTrip(1, 1, items); }
  }

  lemma CallsRead(calls: seq<Call>, items: seq<Item>)
    requires AsciiNames(items) && items == Mapped(ItemOfCall, calls)
    ensures AllFit(items) && |items| < TWO32 && NoTrailer(calls) ==>
      ReadBackFrom(Archive(1, 1, items), 0) == Ok(Mapped(ListingOfCall, calls) + [Listing('-', 0, "TRAILER!!!")])
  {
    ArchiveReads(items);
    if NoTrailer(calls) { CallsListed(calls, items); }
  }

  lemma OneMore(items: seq<Item>, item: Item)
    requires AsciiNames(items) && Ascii(item.name)
    ensures AsciiNames(items + [item])
    ensures EncodeFrom(1, 1, items + [item]) == EncodeFrom(1, 1, items) + EntryBytes(|items| + 1, item)
  {
    AdvanceIs(1, 1, |items|);
    EncodeSnoc(1, 1, items, item);
  }
}
