/** The boot archive that `main` of tools/boot/make-splash.py packs. */
module ThemeArchive {
  import opened Bytes
  import opened Options
  import opened Newc
  import opened CpioWriter

  /** The paths that `main` has as constants. */
  datatype Layout = Layout(dirs: seq<string>, themeDir: string, themeFile: string, confFile: string)

  function DirItems(dirs: seq<string>): seq<Item> {
    seq(|dirs|, i requires 0 <= i < |dirs| => Item(dirs[i], DIR_MODE, []))
  }

  datatype Image = Image(name: string, png: seq<Byte>)

  function ImageItem(dir: string, image: Image): Item {
    Item(dir + "/" + image.name, FILE_MODE, image.png)
  }

  function ImageItems(dir: string, images: seq<Image>): seq<Item> {
    seq(|images|, i requires 0 <= i < |images| => ImageItem(dir, images[i]))
  }

  /** The entries of the archive, the images in the order they are given. */
  function ThemeItems(l: Layout, theme: seq<Byte>, images: seq<Image>, conf: seq<Byte>): seq<Item> {
    DirItems(l.dirs) + [Item(l.themeFile, FILE_MODE, theme)] + ImageItems(l.themeDir, images)
      + [Item(l.confFile, FILE_MODE, conf)]
  }

  lemma OneMoreOf(start: seq<Item>, all: seq<Item>, i: nat)
    requires i < |all|
    ensures start + all[..i] + [all[i]] == start + all[..i + 1]
  {
  }

  lemma AllOf(start: seq<Item>, all: seq<Item>)
    ensures start + all[..0] == start && start + all[..|all|] == start + all
  {
  }

  predicate AsciiAll(names: seq<string>) {
    forall i :: 0 <= i < |names| ==> Ascii(names[i])
  }

  method AddDirs(c: Cpio, dirs: seq<string>)
    requires c.Valid() && AsciiAll(dirs)
    modifies c
    ensures c.Valid() && c.items == old(c.items) + DirItems(dirs)
  {
    ghost var start, all := c.items, DirItems(dirs);
    AllOf(start, all);
    for i := 0 to |dirs|
      invariant c.Valid() && c.items == start + all[..i]
    {
      var _ := c.AddDir(dirs[i]);
      OneMoreOf(start, all, i);
    }
  }

  method AddImages(c: Cpio, dir: string, images: seq<Image>) returns (ok: bool)
    requires c.Valid() && Ascii(dir)
    modifies c
    ensures c.Valid() && (ok <==> forall i :: 0 <= i < |images| ==> Ascii(images[i].name))
    ensures ok ==> c.items == old(c.items) + ImageItems(dir, images)
  {
    ghost var start, all := c.items, ImageItems(dir, images);
    AllOf(start, all);
    for i := 0 to |images|
      invariant c.Valid() && c.items == start + all[..i]
      invariant forall j :: 0 <= j < i ==> Ascii(images[j].name)
    {
      ok := AddImage(c, dir, images[i]);
      if !ok { return false; }
      OneMoreOf(start, all, i);
    }
    return true;
  }

  method AddImage(c: Cpio, dir: string, image: Image) returns (ok: bool)
    requires c.Valid() && Ascii(dir)
    modifies c
    ensures c.Valid() && (ok <==> Ascii(image.name))
    ensures ok ==> c.items == old(c.items) + [ImageItem(dir, image)]
  {
    ImageNameAscii(dir, image.name);
    ok := c.AddFile(dir + "/" + image.name, image.png);
  }

  lemma ImageNameAscii(dir: string, name: string)
    requires Ascii(dir)
    ensures Ascii(dir + "/" + name) <==> Ascii(name)
  {
    var path := dir + "/" + name;
    assert forall i :: 0 <= i < |name| ==> path[|dir| + 1 + i] == name[i];
  }

  predicate LayoutAscii(l: Layout) {
    AsciiAll(l.dirs) && Ascii(l.themeDir) && Ascii(l.themeFile) && Ascii(l.confFile)
  }

  /** The calls that fill the archive, in the order `main` makes them. */
  method FillTheme(c: Cpio, l: Layout, theme: seq<Byte>, images: seq<Image>, conf: seq<Byte>) returns (ok: bool)
    requires LayoutAscii(l) && c.Valid() && c.items == []
    modifies c
    ensures c.Valid() && (ok <==> forall i :: 0 <= i < |images| ==> Ascii(images[i].name))
    ensures ok ==> c.items == ThemeItems(l, theme, images, conf)
  {
    AddDirs(c, l.dirs);
    assert [] + DirItems(l.dirs) == DirItems(l.dirs);
    var _ := c.AddFile(l.themeFile, theme);
    ok := AddImages(c, l.themeDir, images);
    if ok { var _ := c.AddFile(l.confFile, conf); }
  }

  /** The packing in `main`; `None` stands for the error that a name outside ASCII raises. */
  method PackTheme(l: Layout, theme: seq<Byte>, images: seq<Image>, conf: seq<Byte>) returns (blob: Option<seq<Byte>>)
    requires LayoutAscii(l)
    ensures blob.Some? <==> forall i :: 0 <= i < |images| ==> Ascii(images[i].name)
    ensures blob.Some? ==>
      AsciiNames(ThemeItems(l, theme, images, conf)) && blob.value == Archive(1, 1, ThemeItems(l, theme, images, conf))
  {
    var c := new Cpio();
    var ok := FillTheme(c, l, theme, images, conf);
    if !ok { return None; }
    var out := c.Finish();
    return Some(out);
  }
}
