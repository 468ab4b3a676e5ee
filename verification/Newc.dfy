/**
  The newc archive format as tools/boot/make-splash.py and tools/boot/add-bgrt-override.py
  write it: a 110-byte header of hexadecimal fields, the NUL-terminated name, the data, each
  of the two parts padded to a multiple of four bytes.
 */
module Newc {
  import opened Bytes
  import opened Options
  import Text

  // ---------------------------------------------------------------- numbers

  function HexDigit(d: int): (b: Byte)
    requires 0 <= d < 16
  {
    if d < 10 then 48 + d else 55 + d
  }

  /** What one hexadecimal digit stands for, either case. */
  function DigitValue(b: Byte): Option<int> {
    if 48 <= b <= 57 then Some(b - 48)
    else if 65 <= b <= 70 then Some(b - 55)
    else if 97 <= b <= 102 then Some(b - 87)
    else None
  }

  function Hex(n: nat): (s: seq<Byte>)
    ensures |s| >= 1
  {
    if n < 16 then [HexDigit(n)] else Hex(n / 16) + [HexDigit(n % 16)]
  }

  /** `b'%08X' % n`: at least eight digits, more when the number needs them. */
  function Hex8(n: nat): (s: seq<Byte>)
    ensures |s| >= 8
  {
    var s := Hex(n);
    if |s| < 8 then seq(8 - |s|, _ => 48) + s else s
  }

  /** `int(s, 16)` on plain digits; `None` where Python raises. */
  function ParseHex(s: seq<Byte>): (n: Option<nat>) {
    if s == [] then None
    else
      var d := DigitValue(s[|s| - 1]);
      if d.None? then None
      else if |s| == 1 then Some(d.value)
      else
        var high := ParseHex(s[..|s| - 1]);
        if high.None? then None else Some(high.value * 16 + d.value)
  }

  function Pow16(k: nat): (p: nat)
    ensures p >= 1
  {
    if k == 0 then 1 else 16 * Pow16(k - 1)
  }

  lemma {:induction false} HexLength(n: nat, k: nat)
    requires k >= 1
    ensures |Hex(n)| <= k <==> n < Pow16(k)
  {
    if n >= 16 {
      if k >= 2 {
        HexLength(n / 16, k - 1);
      } else {
        assert Pow16(1) == 16 * Pow16(0);
      }
    } else {
      assert Pow16(k) == 16 * Pow16(k - 1);
    }
  }

  /** A field keeps its fixed width exactly when the number fits in 32 bits. */
  lemma FieldWidth(n: nat)
    ensures |Hex8(n)| == 8 <==> n < TWO32
  {
    HexLength(n, 8);
    assert Pow16(8) == 0x100 * Pow16(6) == 0x1_0000 * Pow16(4) == 0x100_0000 * Pow16(2) == TWO32;
  }

  lemma {:induction false} ParseHexOfHex(n: nat)
    ensures ParseHex(Hex(n)) == Some(n)
  {
    var s := Hex(n);
    if n >= 16 {
      assert s[..|s| - 1] == Hex(n / 16);
      ParseHexOfHex(n / 16);
    }
  }

  lemma {:induction false} LeadingZeros(k: nat, s: seq<Byte>)
    requires s != []
    ensures ParseHex(seq(k, _ => 48) + s) == ParseHex(s)
  {
    var z: seq<Byte> := seq(k, _ => 48);
    var t := z + s;
    assert t[|t| - 1] == s[|s| - 1];
    if |s| > 1 {
      assert t[..|t| - 1] == z + s[..|s| - 1];
      LeadingZeros(k, s[..|s| - 1]);
    } else if k > 0 {
      ZerosAreZero(k);
      assert t[..|t| - 1] == z;
    } else {
      assert t == s;
    }
  }

  lemma {:induction false} ZerosAreZero(k: nat)
    requires k > 0
    ensures ParseHex(seq(k, _ => 48)) == Some(0)
  {
    var z: seq<Byte> := seq(k, _ => 48);
    if k > 1 {
      assert z[..k - 1] == seq(k - 1, _ => 48);
      ZerosAreZero(k - 1);
    }
  }

  /** Every number survives being written as a field and read back, even one that is too wide. */
  lemma HexRoundTrip(n: nat)
    ensures ParseHex(Hex8(n)) == Some(n)
  {
    ParseHexOfHex(n);
    if |Hex(n)| < 8 { LeadingZeros(8 - |Hex(n)|, Hex(n)); }
  }

  lemma {:induction false} ParseHexBound(s: seq<Byte>)
    requires |s| <= 8 && ParseHex(s).Some?
    ensures ParseHex(s).value < Pow16(|s|) <= TWO32
  {
    if |s| == 1 {
      assert Pow16(1) == 16 * Pow16(0);
    } else {
      ParseHexBound(s[..|s| - 1]);
    }
    PowersGrow(|s|, 8);
    FieldWidth(0);
    assert Pow16(8) == 0x100 * Pow16(6) == 0x1_0000 * Pow16(4) == 0x100_0000 * Pow16(2) == TWO32;
  }

  lemma {:induction false} PowersGrow(j: nat, k: nat)
    requires j <= k
    ensures Pow16(j) <= Pow16(k)
  {
    if j < k { PowersGrow(j, k - 1); }
  }

  // ---------------------------------------------------------------- names

  /** `name.encode('ascii')` */
  function ToBytes(s: string): (b: seq<Byte>)
    requires Ascii(s)
    ensures |b| == |s| && forall i :: 0 <= i < |b| ==> b[i] == s[i] as int < 128
  {
    seq(|s|, i requires 0 <= i < |s| => s[i] as int)
  }

  /** `b.decode('ascii')`; `None` where Python raises. */
  function FromBytes(b: seq<Byte>): (s: Option<string>)
    ensures s.Some? <==> forall i :: 0 <= i < |b| ==> b[i] < 128
    ensures s.Some? ==> |s.value| == |b| && forall i :: 0 <= i < |b| ==> s.value[i] as int == b[i]
  {
    if forall i :: 0 <= i < |b| ==> b[i] < 128
    then Some(seq(|b|, i requires 0 <= i < |b| && b[i] < 128 => b[i] as char))
    else None
  }

  lemma NameRoundTrip(s: string)
    requires Ascii(s)
    ensures FromBytes(ToBytes(s)) == Some(s)
  {
    assert FromBytes(ToBytes(s)).value == s;
  }

  // ---------------------------------------------------------------- entries

  datatype Item = Item(name: string, mode: nat, data: seq<Byte>)

  const TRAILER := "TRAILER!!!"
  const MAGIC: seq<Byte> := [48, 55, 48, 55, 48, 49]
  const DIR_MODE := 0x41ED
  const FILE_MODE := 0x81A4
  const HEADER := 110

  function HexAll(fields: seq<nat>): seq<Byte> {
    if fields == [] then [] else Hex8(fields[0]) + HexAll(fields[1..])
  }

  function Fields(ino: nat, mode: nat, size: nat, namesize: nat): seq<nat> {
    [ino, mode, 0, 0, 1, 0, size, 0, 0, 0, 0, namesize, 0]
  }

  /** How many zero bytes bring `n` up to a multiple of four: Python's `-n % 4`. */
  function Gap4(n: nat): (g: nat)
    ensures g < 4 && (n + g) % 4 == 0
  {
    if n % 4 == 0 then 0 else 4 - n % 4
  }

  function Gap512(n: nat): (g: nat)
    ensures g < 512 && (n + g) % 512 == 0
  {
    if n % 512 == 0 then 0 else 512 - n % 512
  }

  function Head(ino: nat, item: Item): seq<Byte>
    requires Ascii(item.name)
  {
    var nb := ToBytes(item.name) + [0];
    MAGIC + HexAll(Fields(ino, item.mode, |item.data|, |nb|)) + nb
  }

  /** One entry, padded relative to its own start. */
  function EntryBytes(ino: nat, item: Item): seq<Byte>
    requires Ascii(item.name)
  {
    var head := Head(ino, item);
    head + Zeros(Gap4(|head|)) + item.data + Zeros(Gap4(|item.data|))
  }

  predicate AsciiNames(items: seq<Item>) {
    forall k :: 0 <= k < |items| ==> Ascii(items[k].name)
  }

  /** Entries one after the other, inode numbers going up by `step`. */
  function EncodeFrom(ino: nat, step: nat, items: seq<Item>): seq<Byte>
    requires AsciiNames(items)
    decreases |items|
  {
    if items == [] then [] else EntryBytes(ino, items[0]) + EncodeFrom(ino + step, step, items[1..])
  }

  const TRAILER_ITEM := Item(TRAILER, 0, [])

  /** A finished archive: the entries, the trailer, and zeros up to a multiple of 512. */
  function Archive(ino: nat, step: nat, items: seq<Item>): seq<Byte>
    requires AsciiNames(items)
  {
    var body := EncodeFrom(ino, step, items) + EntryBytes(0, TRAILER_ITEM);
    body + Zeros(Gap512(|body|))
  }

  lemma SumAligned(a: int, b: int)
    requires a % 4 == 0 && b % 4 == 0
    ensures (a + b) % 4 == 0
  {
  }

  /** From an aligned offset, what pads the length pads the offset too. */
  lemma GapShifts(base: nat, n: nat)
    requires base % 4 == 0
    ensures Gap4(base + n) == Gap4(n) && (base + n + Gap4(n)) % 4 == 0
  {
  }

  lemma EntryAligned(ino: nat, item: Item)
    requires Ascii(item.name)
    ensures |EntryBytes(ino, item)| % 4 == 0
  {
    SumAligned(|Head(ino, item)| + Gap4(|Head(ino, item)|), |item.data| + Gap4(|item.data|));
  }

  lemma {:induction false} EncodeAligned(ino: nat, step: nat, items: seq<Item>)
    requires AsciiNames(items)
    ensures |EncodeFrom(ino, step, items)| % 4 == 0
    decreases |items|
  {
    if |items| > 0 {
      EntryAligned(ino, items[0]);
      EncodeAligned(ino + step, step, items[1..]);
      SumAligned(|EntryBytes(ino, items[0])|, |EncodeFrom(ino + step, step, items[1..])|);
    }
  }

  /** The inode number after `n` entries. */
  function Advance(ino: nat, step: nat, n: nat): nat
    decreases n
  {
    if n == 0 then ino else Advance(ino + step, step, n - 1)
  }

  lemma {:induction false} AdvanceIs(ino: nat, step: nat, n: nat)
    requires step <= 1
    ensures Advance(ino, step, n) == if step == 0 then ino else ino + n
    decreases n
  {
    if n > 0 { AdvanceIs(ino + step, step, n - 1); }
  }

  lemma {:induction false} EncodeAppend(ino: nat, step: nat, items: seq<Item>, more: seq<Item>)
    requires AsciiNames(items) && AsciiNames(more) && AsciiNames(items + more)
    ensures EncodeFrom(ino, step, items + more)
      == EncodeFrom(ino, step, items) + EncodeFrom(Advance(ino, step, |items|), step, more)
    decreases |items|
  {
    if |items| == 0 {
      assert items + more == more;
    } else {
      assert (items + more)[1..] == items[1..] + more;
      EncodeAppend(ino + step, step, items[1..], more);
      Text.Concat(EntryBytes(ino, items[0]), EncodeFrom(ino + step, step, items[1..]),
             EncodeFrom(Advance(ino, step, |items|), step, more));
    }
  }

  lemma EncodeOne(ino: nat, step: nat, item: Item)
    requires Ascii(item.name)
    ensures EncodeFrom(ino, step, [item]) == EntryBytes(ino, item)
  {
    var rest := [item][1..];
    assert rest == [];
    assert EntryBytes(ino, item) + EncodeFrom(ino + step, step, rest) == EntryBytes(ino, item);
  }

  lemma EncodeSnoc(ino: nat, step: nat, items: seq<Item>, item: Item)
    requires AsciiNames(items) && Ascii(item.name)
    ensures AsciiNames(items + [item])
    ensures EncodeFrom(ino, step, items + [item])
      == EncodeFrom(ino, step, items) + EntryBytes(Advance(ino, step, |items|), item)
  {
    EncodeAppend(ino, step, items, [item]);
    EncodeOne(Advance(ino, step, |items|), step, item);
  }

  // ---------------------------------------------------------------- reading a header

  /** Field `i` of the header at `pos`, cut short where the file ends. */
  function Field(raw: seq<Byte>, pos: nat, i: nat): Option<nat> {
    ParseHex(Clip(raw, pos + 6 + i * 8, pos + 14 + i * 8))
  }

  predicate AllFields(raw: seq<Byte>, pos: nat) {
    forall i: nat :: i < 13 ==> Field(raw, pos, i).Some?
  }

  function NameAt(raw: seq<Byte>, pos: nat, namesize: nat): Option<string> {
    FromBytes(Clip(raw, pos + HEADER, pos + HEADER + namesize - 1))
  }

  /** What the format can hold: numbers below 2^32 and an ASCII name. */
  predicate Fits(item: Item) {
    Ascii(item.name) && item.mode < TWO32 && |item.data| < TWO32 && |item.name| + 1 < TWO32
  }

  lemma {:induction false} HexAllLength(fields: seq<nat>)
    requires forall k :: 0 <= k < |fields| ==> fields[k] < TWO32
    ensures |HexAll(fields)| == 8 * |fields|
  {
    if fields != [] {
      FieldWidth(fields[0]);
      HexAllLength(fields[1..]);
    }
  }

  lemma {:induction false} HexAllField(fields: seq<nat>, i: nat)
    requires i < |fields| && forall k :: 0 <= k < |fields| ==> fields[k] < TWO32
    ensures |HexAll(fields)| == 8 * |fields|
    ensures HexAll(fields)[8 * i..8 * i + 8] == Hex8(fields[i])
  {
    FieldWidth(fields[0]);
    HexAllLength(fields);
    if i > 0 { HexAllField(fields[1..], i - 1); }
    if i == 0 {
      FirstSlice(Hex8(fields[0]), HexAll(fields[1..]));
    } else {
      LaterSlice(Hex8(fields[0]), HexAll(fields[1..]), 8 * i, 8 * i + 8);
    }
  }

  lemma FirstSlice(a: seq<Byte>, b: seq<Byte>)
    ensures (a + b)[0..|a|] == a
  {
  }

  lemma LaterSlice(a: seq<Byte>, b: seq<Byte>, lo: nat, hi: nat)
    requires |a| <= lo <= hi <= |a| + |b|
    ensures (a + b)[lo..hi] == b[lo - |a|..hi - |a|]
  {
  }

  lemma HeadLength(ino: nat, item: Item)
    requires Fits(item) && ino < TWO32
    ensures |Head(ino, item)| == HEADER + |item.name| + 1
  {
    HexAllField(Fields(ino, item.mode, |item.data|, |item.name| + 1), 0);
  }

  lemma MiddleSlice(before: seq<Byte>, mid: seq<Byte>, rest: seq<Byte>, lo: nat, hi: nat)
    requires lo <= hi <= |mid|
    ensures |before + mid + rest| == |before| + |mid| + |rest|
    ensures Clip(before + mid + rest, |before| + lo, |before| + hi) == mid[lo..hi]
  {
  }

  lemma Reassociate(before: seq<Byte>, a: seq<Byte>, b: seq<Byte>, c: seq<Byte>, rest: seq<Byte>)
    ensures before + ((a + b) + c) + rest == before + a + ((b + c) + rest)
    ensures b == [] ==> before + (a + c) + rest == before + a + (c + rest)
  {
    if b == [] { Text.Concat(before, a, c); Text.Concat(before + a, c, rest); }
  }

  function AfterHead(ino: nat, item: Item): seq<Byte>
    requires Ascii(item.name)
  {
    Zeros(Gap4(|Head(ino, item)|)) + item.data + Zeros(Gap4(|item.data|))
  }

  lemma EntryParts(ino: nat, item: Item)
    requires Ascii(item.name)
    ensures EntryBytes(ino, item) == Head(ino, item) + AfterHead(ino, item)
  {
  }

  lemma FieldBytes(before: seq<Byte>, magic: seq<Byte>, numbers: seq<Byte>, rest: seq<Byte>, i: nat)
    requires |magic| == 6 && 8 * i + 8 <= |numbers|
    ensures Clip(before + (magic + numbers) + rest, |before| + 6 + i * 8, |before| + 14 + i * 8)
      == numbers[8 * i..8 * i + 8]
  {
    Text.Concat(before, magic, numbers);
    MiddleSlice(before + magic, numbers, rest, 8 * i, 8 * i + 8);
  }

  lemma FieldInside(before: seq<Byte>, magic: seq<Byte>, fields: seq<nat>, rest: seq<Byte>, i: nat)
    requires |magic| == 6 && i < |fields| && forall k :: 0 <= k < |fields| ==> fields[k] < TWO32
    ensures Field(before + (magic + HexAll(fields)) + rest, |before|, i) == Some(fields[i])
  {
    HexAllField(fields, i);
    FieldBytes(before, magic, HexAll(fields), rest, i);
    HexRoundTrip(fields[i]);
  }

  /** The header of an entry written anywhere reads back field by field. */
  lemma HeadFields(before: seq<Byte>, ino: nat, item: Item, rest: seq<Byte>, i: nat)
    requires Fits(item) && ino < TWO32 && i < 13
    ensures Field(before + EntryBytes(ino, item) + rest, |before|, i)
      == Some(Fields(ino, item.mode, |item.data|, |item.name| + 1)[i])
  {
    EntryParts(ino, item);
    FieldOfHead(before, MAGIC, Fields(ino, item.mode, |item.data|, |item.name| + 1), ToBytes(item.name) + [0],
                AfterHead(ino, item), rest, i);
  }

  /** What a header says, wherever it stands: `070701`, one link, and nothing but what is its entry's own. */
  lemma HeadSays(before: seq<Byte>, ino: nat, item: Item, rest: seq<Byte>, i: nat)
    requires Fits(item) && ino < TWO32 && i < 13
    ensures var raw, at := before + EntryBytes(ino, item) + rest, |before|;
      && Clip(raw, at, at + 6) == [0x30, 0x37, 0x30, 0x37, 0x30, 0x31]
      && Field(raw, at, i)
        == Some([ino, item.mode, 0, 0, 1, 0, |item.data|, 0, 0, 0, 0, |item.name| + 1, 0][i])
  {
    HeadStarts(before, ino, item, rest);
    HeadFields(before, ino, item, rest, i);
  }

  lemma HeadStarts(before: seq<Byte>, ino: nat, item: Item, rest: seq<Byte>)
    requires Fits(item)
    ensures Clip(before + EntryBytes(ino, item) + rest, |before|, |before| + 6) == [0x30, 0x37, 0x30, 0x37, 0x30, 0x31]
  {
    var entry := EntryBytes(ino, item);
    assert entry[..6] == MAGIC;
    assert (before + entry + rest)[|before|..|before| + 6] == entry[..6];
  }

  /** A digit of a field in the other case. */
  predicate OtherCase(a: Byte, b: Byte) { (65 <= a <= 70 && b == a + 32) || (97 <= a <= 102 && b == a - 32) }

  /** Fields are read alike in either case. */
  lemma {:induction false} ParseHexEitherCase(s: seq<Byte>, t: seq<Byte>)
    requires |s| == |t| && forall i :: 0 <= i < |s| ==> s[i] == t[i] || OtherCase(s[i], t[i])
    ensures ParseHex(s) == ParseHex(t)
  {
    if s != [] { ParseHexEitherCase(s[..|s| - 1], t[..|s| - 1]); }
  }

  lemma FieldOfHead(before: seq<Byte>, magic: seq<Byte>, fields: seq<nat>, name: seq<Byte>, after: seq<Byte>,
                    rest: seq<Byte>, i: nat)
    requires |magic| == 6 && i < |fields| && forall k :: 0 <= k < |fields| ==> fields[k] < TWO32
    ensures Field(before + (((magic + HexAll(fields)) + name) + after) + rest, |before|, i) == Some(fields[i])
  {
    Reassociate(before, magic + HexAll(fields), name, after, rest);
    FieldInside(before, magic, fields, (name + after) + rest, i);
  }

  lemma HeadName(before: seq<Byte>, ino: nat, item: Item, rest: seq<Byte>)
    requires Fits(item) && ino < TWO32
    ensures NameAt(before + EntryBytes(ino, item) + rest, |before|, |item.name| + 1) == Some(item.name)
  {
    var head, tail := Head(ino, item), AfterHead(ino, item);
    HeadLength(ino, item);
    EntryParts(ino, item);
    Reassociate(before, head, [], tail, rest);
    MiddleSlice(before, head, tail + rest, HEADER, HEADER + |item.name|);
    assert head[HEADER..HEADER + |item.name|] == ToBytes(item.name);
    NameRoundTrip(item.name);
  }

  lemma HeadMagic(before: seq<Byte>, ino: nat, item: Item, rest: seq<Byte>)
    requires Ascii(item.name)
    ensures Clip(before + EntryBytes(ino, item) + rest, |before|, |before| + 6) == MAGIC
  {
    var head, tail := Head(ino, item), AfterHead(ino, item);
    EntryParts(ino, item);
    Reassociate(before, head, [], tail, rest);
    MiddleSlice(before, head, tail + rest, 0, 6);
  }
}
