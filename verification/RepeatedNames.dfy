/** What becomes of an archive that names one file twice: the repacker keeps the wrong copy. */
module RepeatedNames {
  import opened Bytes
  import opened Options
  import opened Newc
  import opened Overlay
  import opened OverlayMeaning
  import opened OverlayFixpoint

  function Twice(name: string, a: seq<Byte>, b: seq<Byte>): seq<Item> {
    [Item(name, FILE_MODE, a), Item(name, FILE_MODE, b)]
  }

  lemma TwiceUnpacks(name: string, a: seq<Byte>, b: seq<Byte>)
    ensures var items := Twice(name, a, b);
      && First(items, name) == Some(Node(FILE_MODE, a)) && Find(items, name) == Some(Node(FILE_MODE, b))
      && Dedup(items) == [Item(name, FILE_MODE, a)] && name in Names(items)
  {
    var items, one := Twice(name, a, b), [Item(name, FILE_MODE, a)];
    assert items[..1] == one && one[..0] == [];
    assert items[0].name == name && one[0].name == name;
    assert Dedup(one) == [] + one;
  }

  /** A file named twice comes out with its first contents, where unpacking the original gave the last. */
  lemma RepeatedFileChanges(p: Plan, name: string, a: seq<Byte>, b: seq<Byte>)
    requires Sound(p) && !Overridden(p, Twice(name, a, b), name)
    ensures var items := Twice(name, a, b);
      Find(items, name) == Some(Node(FILE_MODE, b)) && Find(Repacked(p, items), name) == Some(Node(FILE_MODE, a))
  {
    TwiceUnpacks(name, a, b);
    RepackMeaning(p, Twice(name, a, b), name);
  }

  lemma LastFrameOf(p: Plan, items: seq<Item>, last: Item)
    requires items != [] && items[|items| - 1] == last && IsFrame(p, last.name)
    ensures LastFrame(p, items, Base(last.name)) == Some(last.data)
  {
  }

  /** An image named twice is copied with its last contents, and by a second repacking with its first. */
  lemma RepeatedImageChanges(p: Plan, name: string, a: seq<Byte>, b: seq<Byte>)
    requires Sound(p) && IsFrame(p, name)
    ensures var once, copy := Repacked(p, Twice(name, a, b)), SpinPath(p, Base(name));
      Find(once, copy) == Some(Node(FILE_MODE, b)) && Find(Repacked(p, once), copy) == Some(Node(FILE_MODE, a))
  {
    var items, copy := Twice(name, a, b), SpinPath(p, Base(name));
    TwiceUnpacks(name, a, b);
    LastFrameOf(p, items, Item(name, FILE_MODE, b));
    LastFrameOf(p, Dedup(items), Item(name, FILE_MODE, a));
    SpinBaseOf(p, Base(name), copy);
    FramesSettle(p, items);
    RepackMeaning(p, items, copy);
    RepackMeaning(p, Repacked(p, items), copy);
  }
}
