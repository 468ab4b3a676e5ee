/**
  The paths the two boot scripts really use, and what holds of them: the splash builder's archive
  has distinct names with directories first, and repacking it passes the repacker's own check.
 */
module AlsPaths {
  import opened Bytes
  import opened Options
  import opened Newc
  import opened CpioReaders
  import opened Text
  import opened PathChain
  import opened Overlay
  import opened OverlayMeaning
  import opened OverlayFixpoint
  import opened RepackWriter
  import opened RepackMain
  import opened ThemeArchive

  function Sub(dir: string, name: string): string { dir + "/" + name }

  const USR := "usr"
  const SHARE := Sub(USR, "share")
  const PLYMOUTH := Sub(SHARE, "plymouth")
  const THEMES := Sub(PLYMOUTH, "themes")
  const ALS := Sub(THEMES, "als")
  const BGRT := Sub(THEMES, "bgrt")
  const SPINNER := Sub(THEMES, "spinner")
  const ETC := "etc"
  const CONF_DIR := Sub(ETC, "plymouth")
  const CONF := Sub(CONF_DIR, "plymouthd.conf")
  const ALS_FILE := Sub(ALS, "als.plymouth")
  const WATERMARK := "watermark.png"
  const MARK := "/themes/als/"
  const PNG := ".png"

  const LAYOUT := Layout([USR, SHARE, PLYMOUTH, THEMES, ALS, ETC, CONF_DIR], ALS, ALS_FILE, CONF)

  function AlsPlan(bgrt: seq<Byte>): Plan {
    Plan(BGRT, "bgrt.plymouth", SPINNER, MARK, PNG, bgrt,
      [Sub(BGRT, "bgrt.plymouth"), Sub(SPINNER, WATERMARK), ALS_FILE, CONF])
  }

  // ---------------------------------------------------------------- every path can be written

  lemma SubAscii(dir: string, name: string)
    requires Ascii(dir) && Ascii(name)
    ensures Ascii(Sub(dir, name)) && |Sub(dir, name)| == |dir| + 1 + |name|
    ensures dir != "" ==> Sub(dir, name) != "" && Sub(dir, name)[0] == dir[0]
  {
  }

  lemma UsrPathsAscii()
    ensures Ascii(SHARE) && Ascii(PLYMOUTH) && Ascii(THEMES) && |THEMES| == 25 && THEMES[0] == 'u'
  {
    SubAscii(USR, "share");
    SubAscii(SHARE, "plymouth");
    SubAscii(PLYMOUTH, "themes");
  }

  lemma ThemePathsAscii()
    ensures Ascii(ALS) && Ascii(BGRT) && Ascii(SPINNER) && Ascii(ALS_FILE)
    ensures |BGRT| == 30 && |SPINNER| == 33 && BGRT[0] == 'u' && SPINNER[0] == 'u'
  {
    UsrPathsAscii();
    SubAscii(THEMES, "als");
    SubAscii(THEMES, "bgrt");
    SubAscii(THEMES, "spinner");
    SubAscii(ALS, "als.plymouth");
  }

  lemma ConfPathsAscii()
    ensures Ascii(ETC) && Ascii(CONF_DIR) && Ascii(CONF)
  {
    SubAscii(ETC, "plymouth");
    SubAscii(CONF_DIR, "plymouthd.conf");
  }

  lemma LayoutIsAscii()
    ensures LayoutAscii(LAYOUT)
  {
    UsrPathsAscii();
    ThemePathsAscii();
    ConfPathsAscii();
  }

  lemma PlanIsWritable(bgrt: seq<Byte>)
    requires |bgrt| < TWO32
    ensures PlanAscii(AlsPlan(bgrt)) && Writable(AlsPlan(bgrt))
  {
    ThemePathsAscii();
  }

  // ---------------------------------------------------------------- the overrides are not our own images

  /** A mark that ends with a slash can only end at the last slash of a path, or before it. */
  lemma MarkInSub(dir: string, name: string, mark: string)
    requires '/' !in name && |mark| > 0 && mark[|mark| - 1] == '/'
    requires Contains(Sub(dir, name), mark)
    ensures EndsWith(dir, mark[..|mark| - 1]) || Contains(dir, mark)
  {
    var s, m := Sub(dir, name), |mark|;
    var i :| 0 <= i <= |s| && OccursAt(s, i, mark);
    var last := i + m - 1;
    assert s[last] == mark[m - 1];
    if last < |dir| {
      assert dir[i..i + m] == s[i..i + m];
      assert OccursAt(dir, i, mark);
    } else {
      assert last == |dir|;
      assert dir[i..] == s[i..i + m][..m - 1];
    }
  }

  /** A path ending in another letter does not end in our directory. */
  lemma EndsOtherwise(dir: string, mark: string)
    requires |dir| >= 2 && |mark| >= 3
    requires dir[|dir| - 1] != mark[|mark| - 2] || dir[|dir| - 2] != mark[|mark| - 3]
    ensures !EndsWith(dir, mark[..|mark| - 1])
  {
    if EndsWith(dir, mark[..|mark| - 1]) { LastTwo(dir, mark[..|mark| - 1]); }
  }

  lemma LastTwo(s: string, suffix: string)
    requires EndsWith(s, suffix) && |suffix| >= 2
    ensures s[|s| - 1] == suffix[|suffix| - 1] && s[|s| - 2] == suffix[|suffix| - 2]
  {
    assert s[|s| - 1] == s[|s| - |suffix|..][|suffix| - 1];
    assert s[|s| - 2] == s[|s| - |suffix|..][|suffix| - 2];
  }

  /** Going down into a directory whose parent is not the marked one never meets the mark. */
  lemma StaysUnmarked(dir: string, name: string)
    requires '/' !in name && |dir| >= 2 && !Contains(dir, MARK)
    requires dir[|dir| - 1] != 's' || dir[|dir| - 2] != 'l'
    ensures !Contains(Sub(dir, name), MARK)
  {
    assert |MARK| == 12 && MARK[11] == '/' && MARK[10] == 's' && MARK[9] == 'l';
    EndsOtherwise(dir, MARK);
    if Contains(Sub(dir, name), MARK) { MarkInSub(dir, name, MARK); }
  }

  lemma LastLetters(dir: string, name: string)
    requires |name| >= 2
    ensures var s := Sub(dir, name); s[|s| - 1] == name[|name| - 1] && s[|s| - 2] == name[|name| - 2] && |s| >= 3
  {
  }

  lemma ThemesUnmarked()
    ensures !Contains(THEMES, MARK) && |THEMES| >= 2 && THEMES[|THEMES| - 2] == 'e'
  {
    assert !Contains(USR, MARK) by { NoSlash(USR); }
    StaysUnmarked(USR, "share");
    LastLetters(USR, "share");
    StaysUnmarked(SHARE, "plymouth");
    LastLetters(SHARE, "plymouth");
    StaysUnmarked(PLYMOUTH, "themes");
    LastLetters(PLYMOUTH, "themes");
  }

  lemma NoSlash(name: string)
    requires '/' !in name
    ensures !Contains(name, MARK)
  {
    if Contains(name, MARK) {
      var i :| 0 <= i <= |name| && OccursAt(name, i, MARK);
      FirstOccurs(name, i, MARK);
    }
  }

  lemma FirstOccurs(s: string, i: nat, part: string)
    requires part != "" && OccursAt(s, i, part)
    ensures part[0] in s
  {
    assert s[i..i + |part|][0] == s[i];
  }

  lemma PlanIsSound(bgrt: seq<Byte>)
    ensures Sound(AlsPlan(bgrt))
  {
    var p := AlsPlan(bgrt);
    ThemesUnmarked();
    StaysUnmarked(THEMES, "bgrt");
    LastLetters(THEMES, "bgrt");
    StaysUnmarked(BGRT, "bgrt.plymouth");
    StaysUnmarked(THEMES, "spinner");
    LastLetters(THEMES, "spinner");
    forall base | '/' !in base ensures !Contains(SpinPath(p, base), p.mark) {
      StaysUnmarked(SPINNER, base);
    }
    NotAPrefix();
  }

  lemma NotAPrefix()
    ensures !(Sub(BGRT, "bgrt.plymouth") <= SPINNER)
  {
    ThemePathsAscii();
    SubAscii(BGRT, "bgrt.plymouth");
  }

  // ---------------------------------------------------------------- the splash builder's archive

  /** What `build_images` guarantees of the file names it makes. */
  ghost predicate ImageNames(images: seq<Image>) {
    && (forall i, j :: 0 <= i < j < |images| ==> images[i].name != images[j].name)
    && (forall i :: 0 <= i < |images| ==> '/' !in images[i].name && images[i].name != "als.plymouth")
    && (forall i :: 0 <= i < |images| ==> Ascii(images[i].name))
    && exists i :: 0 <= i < |images| && images[i].name == WATERMARK
  }

  lemma DistinctAppend(a: seq<Item>, b: seq<Item>)
    requires Distinct(a) && Distinct(b) && forall x, y :: x in a && y in b ==> x.name != y.name
    ensures Distinct(a + b)
  {
  }

  lemma PathLengths()
    ensures |USR| == 3 && |SHARE| == 9 && |PLYMOUTH| == 18 && |THEMES| == 25 && |ALS| == 29
    ensures |ETC| == 3 && |CONF_DIR| == 12 && |CONF| == 27 && |ALS_FILE| == 42
    ensures USR[0] == SHARE[0] == PLYMOUTH[0] == THEMES[0] == ALS[0] == ALS_FILE[0] == 'u'
    ensures ETC[0] == CONF_DIR[0] == CONF[0] == 'e'
  {
  }

  lemma DirsDistinct()
    ensures Distinct(DirItems(LAYOUT.dirs))
    ensures forall x :: x in DirItems(LAYOUT.dirs) ==> |x.name| <= 29
    ensures forall x :: x in DirItems(LAYOUT.dirs) && |x.name| > 12 ==> x.name[0] == 'u'
  {
    PathLengths();
  }

  lemma ImagesDistinct(images: seq<Image>)
    requires ImageNames(images)
    ensures Distinct(ImageItems(ALS, images))
    ensures forall x :: x in ImageItems(ALS, images) ==> |x.name| > 29 && x.name[0] == 'u' && x.name != ALS_FILE
  {
    PathLengths();
    forall i, j | 0 <= i < j < |images| ensures Sub(ALS, images[i].name) != Sub(ALS, images[j].name) {
      SubInjective(ALS, images[i].name, images[j].name);
    }
    forall i | 0 <= i < |images| ensures Sub(ALS, images[i].name) != ALS_FILE {
      SubInjective(ALS, images[i].name, "als.plymouth");
    }
  }

  lemma SubInjective(dir: string, a: string, b: string)
    ensures Sub(dir, a) == Sub(dir, b) ==> a == b
  {
    assert Sub(dir, a)[|dir| + 1..] == a && Sub(dir, b)[|dir| + 1..] == b;
  }

  /** No name occurs twice in what the splash builder packs. */
  lemma ThemeDistinct(theme: seq<Byte>, images: seq<Image>, conf: seq<Byte>)
    requires ImageNames(images)
    ensures Distinct(ThemeItems(LAYOUT, theme, images, conf))
  {
    var dirs, file := DirItems(LAYOUT.dirs), [Item(ALS_FILE, FILE_MODE, theme)];
    PathLengths();
    DirsDistinct();
    ImagesDistinct(images);
    DistinctAppend(dirs, file);
    DistinctAppend(dirs + file, ImageItems(ALS, images));
    DistinctAppend(dirs + file + ImageItems(ALS, images), [Item(CONF, FILE_MODE, conf)]);
  }

  /** Every directory precedes what it contains. */
  lemma ThemeParents(theme: seq<Byte>, images: seq<Image>, conf: seq<Byte>)
    requires ImageNames(images)
    ensures ParentsFirst(ThemeItems(LAYOUT, theme, images, conf), {})
  {
    DirsInOrder();
    LayoutParents(LAYOUT, "als.plymouth", CONF_DIR, "plymouthd.conf", theme, images, conf);
  }

  lemma LayoutParents(l: Layout, themeName: string, confDir: string, confName: string,
                      theme: seq<Byte>, images: seq<Image>, conf: seq<Byte>)
    requires l.themeFile == Sub(l.themeDir, themeName) && l.confFile == Sub(confDir, confName)
    requires '/' !in themeName && '/' !in confName && forall i :: 0 <= i < |images| ==> '/' !in images[i].name
    requires l.themeDir != "" && confDir != "" && ParentsFirst(DirItems(l.dirs), {})
    requires Ancestors(l.themeDir) + {l.themeDir} + Ancestors(confDir) + {confDir} <= Names(DirItems(l.dirs))
    ensures ParentsFirst(ThemeItems(l, theme, images, conf), {})
  {
    var dirs := DirItems(l.dirs);
    AncestorsInside(l.themeDir, themeName);
    AncestorsInside(confDir, confName);
    PicturesBelong(l.themeDir, images, dirs);
    FilesInTheme(dirs, [Item(l.themeFile, FILE_MODE, theme)], ImageItems(l.themeDir, images),
                 [Item(l.confFile, FILE_MODE, conf)]);
  }

  /** The directories of all these files are there. */
  predicate Belong(files: seq<Item>, dirs: seq<Item>) {
    forall k :: 0 <= k < |files| ==> Ancestors(files[k].name) <= Names(dirs)
  }

  lemma PicturesBelong(dir: string, images: seq<Image>, dirs: seq<Item>)
    requires dir != "" && Ancestors(dir) + {dir} <= Names(dirs)
    requires forall i :: 0 <= i < |images| ==> '/' !in images[i].name
    ensures Belong(ImageItems(dir, images), dirs)
  {
    forall k | 0 <= k < |images| ensures Ancestors(ImageItems(dir, images)[k].name) <= Names(dirs) {
      AncestorsInside(dir, images[k].name);
    }
  }

  lemma FilesInTheme(dirs: seq<Item>, file: seq<Item>, pictures: seq<Item>, last: seq<Item>)
    requires ParentsFirst(dirs, {}) && Belong(file, dirs) && Belong(pictures, dirs) && Belong(last, dirs)
    ensures ParentsFirst(dirs + file + pictures + last, {})
  {
    FilesAfter(dirs, file);
    FilesAfter(dirs + file, pictures);
    FilesAfter(dirs + file + pictures, last);
  }

  lemma FilesAfter(there: seq<Item>, files: seq<Item>)
    requires ParentsFirst(there, {}) && Belong(files, there)
    ensures ParentsFirst(there + files, {}) && Names(there) <= Names(there + files)
  {
    ParentsAppend(there, files, {});
    NamesAppend(there, files);
  }

  lemma AddDirItem(dirs: seq<string>, d: string)
    requires ParentsFirst(DirItems(dirs), {}) && Ancestors(d) <= Names(DirItems(dirs))
    ensures ParentsFirst(DirItems(dirs + [d]), {})
    ensures Names(DirItems(dirs + [d])) == Names(DirItems(dirs)) + {d}
  {
    var item := Item(d, DIR_MODE, []);
    assert DirItems(dirs + [d]) == DirItems(dirs) + [item];
    ParentsAppend(DirItems(dirs), [item], {});
    NamesSnoc(DirItems(dirs), item);
  }

  /** A new top directory, or one inside a directory that is already listed, keeps the order. */
  lemma AddSub(dirs: seq<string>, dir: string, name: string)
    requires ParentsFirst(DirItems(dirs), {}) && dir != "" && '/' !in name
    requires Ancestors(dir) + {dir} <= Names(DirItems(dirs))
    ensures ParentsFirst(DirItems(dirs + [Sub(dir, name)]), {})
    ensures Ancestors(Sub(dir, name)) + {Sub(dir, name)} <= Names(DirItems(dirs + [Sub(dir, name)]))
    ensures Names(DirItems(dirs)) <= Names(DirItems(dirs + [Sub(dir, name)]))
  {
    AncestorsInside(dir, name);
    AddDirItem(dirs, Sub(dir, name));
  }

  lemma AddTop(dirs: seq<string>, name: string)
    requires ParentsFirst(DirItems(dirs), {}) && '/' !in name
    ensures ParentsFirst(DirItems(dirs + [name]), {})
    ensures Ancestors(name) + {name} <= Names(DirItems(dirs + [name]))
    ensures Names(DirItems(dirs)) <= Names(DirItems(dirs + [name]))
  {
    AddDirItem(dirs, name);
  }

  lemma InOrder(usr: string, share: string, plymouth: string, themes: string, als: string, etc: string)
    requires usr != "" && etc != "" && '/' !in usr + share + plymouth + themes + als + etc
    ensures var p2 := Sub(usr, share);
      var p3 := Sub(p2, plymouth);
      var p4 := Sub(p3, themes);
      var p5 := Sub(p4, als);
      var dirs := [usr] + [p2] + [p3] + [p4] + [p5] + [etc] + [Sub(etc, plymouth)];
      && ParentsFirst(DirItems(dirs), {})
      && Ancestors(p5) + {p5} + Ancestors(Sub(etc, plymouth)) + {Sub(etc, plymouth)} <= Names(DirItems(dirs))
  {
    assert [] + [usr] == [usr];
    AddTop([], usr);
    AddSub([usr], usr, share);
    var p2 := Sub(usr, share);
    AddSub([usr] + [p2], p2, plymouth);
    var p3 := Sub(p2, plymouth);
    AddSub([usr] + [p2] + [p3], p3, themes);
    var p4 := Sub(p3, themes);
    AddSub([usr] + [p2] + [p3] + [p4], p4, als);
    var p5 := Sub(p4, als);
    AddTop([usr] + [p2] + [p3] + [p4] + [p5], etc);
    AddSub([usr] + [p2] + [p3] + [p4] + [p5] + [etc], etc, plymouth);
  }

  lemma DirsInOrder()
    ensures ParentsFirst(DirItems(LAYOUT.dirs), {})
    ensures Ancestors(ALS) + {ALS} + Ancestors(CONF_DIR) + {CONF_DIR} <= Names(DirItems(LAYOUT.dirs))
  {
    InOrder(USR, "share", "plymouth", "themes", "als", ETC);
    assert [USR] + [SHARE] + [PLYMOUTH] + [THEMES] + [ALS] + [ETC] + [CONF_DIR] == LAYOUT.dirs;
  }

  // ---------------------------------------------------------------- the repacker's final check

  lemma {:induction false} AfterLastOfSub(dir: string, name: string)
    requires '/' !in name
    ensures AfterLast(Sub(dir, name), '/') == name
    decreases |dir|
  {
    var s := Sub(dir, name);
    assert s[|dir|] == '/';
    var k := IndexOf(s, '/');
    assert k <= |dir|;
    if k == |dir| {
      assert s[k + 1..] == name;
    } else {
      assert s[k + 1..] == Sub(dir[k + 1..], name);
      AfterLastOfSub(dir[k + 1..], name);
    }
  }

  lemma WatermarkIsFrame(bgrt: seq<Byte>)
    ensures IsFrame(AlsPlan(bgrt), Sub(ALS, WATERMARK))
  {
    var s := Sub(ALS, WATERMARK);
    PathLengths();
    assert s[18..30] == MARK;
    assert OccursAt(s, 18, MARK);
    assert s[|s| - 4..] == WATERMARK[|WATERMARK| - 4..] == PNG;
  }

  /**
    Repacking what the splash builder packs always finds images, and the check at the end of
    `main` can never fail: every path it asks for is in the new archive.
   */
  lemma ThemePassesCheck(theme: seq<Byte>, images: seq<Image>, conf: seq<Byte>, bgrt: seq<Byte>)
    requires ImageNames(images)
    ensures var p, items := AlsPlan(bgrt), ThemeItems(LAYOUT, theme, images, conf);
      Frames(p, items) != [] && NamesAll(Repacked(p, items), p.need)
  {
    var p, items := AlsPlan(bgrt), ThemeItems(LAYOUT, theme, images, conf);
    ThemeHas(theme, images, conf);
    WatermarkIsFrame(bgrt);
    AfterLastOfSub(ALS, WATERMARK);
    FrameBases(p, items);
    assert WATERMARK in FrameNames(p, items);
    SpinHas(p, Frames(p, items), WATERMARK);
    RepackedNames(p, items);
    NeedIs(bgrt);
  }

  lemma ThemeHas(theme: seq<Byte>, images: seq<Image>, conf: seq<Byte>)
    requires ImageNames(images)
    ensures {Sub(ALS, WATERMARK), ALS_FILE, CONF} <= Names(ThemeItems(LAYOUT, theme, images, conf))
  {
    var dirs, pictures := DirItems(LAYOUT.dirs), ImageItems(ALS, images);
    NamesSnoc(dirs, Item(ALS_FILE, FILE_MODE, theme));
    NamesAppend(dirs + [Item(ALS_FILE, FILE_MODE, theme)], pictures);
    NamesSnoc(dirs + [Item(ALS_FILE, FILE_MODE, theme)] + pictures, Item(CONF, FILE_MODE, conf));
    var i :| 0 <= i < |images| && images[i].name == WATERMARK;
    assert pictures[i].name == Sub(ALS, WATERMARK);
  }

  lemma SpinHas(p: Plan, frames: seq<Frame>, base: string)
    requires base in Bases(frames)
    ensures SpinPath(p, base) in Names(Spin(p, frames)) && frames != []
  {
    var k :| 0 <= k < |frames| && frames[k].base == base;
    assert Spin(p, frames)[k].name == SpinPath(p, base);
  }

  lemma NeedIs(bgrt: seq<Byte>)
    ensures forall i :: 0 <= i < |AlsPlan(bgrt).need| ==>
      AlsPlan(bgrt).need[i] in {BgrtPath(AlsPlan(bgrt)), SpinPath(AlsPlan(bgrt), WATERMARK), ALS_FILE, CONF}
  {
  }

  lemma ThemeAscii(theme: seq<Byte>, images: seq<Image>, conf: seq<Byte>)
    requires ImageNames(images)
    ensures AsciiNames(ThemeItems(LAYOUT, theme, images, conf))
  {
    LayoutIsAscii();
    forall i | 0 <= i < |images| ensures Ascii(ImageItems(ALS, images)[i].name) { SubAscii(ALS, images[i].name); }
  }

  /** The archive that packing a theme writes. */
  ghost function ThemeBlob(theme: seq<Byte>, images: seq<Image>, conf: seq<Byte>): seq<Byte>
    requires ImageNames(images)
  {
    ThemeAscii(theme, images, conf);
    Archive(1, 1, ThemeItems(LAYOUT, theme, images, conf))
  }

  /** An archive of less than 4 GiB is readable: every number in it fits its field. */
  lemma ThemeReadsBack(theme: seq<Byte>, images: seq<Image>, conf: seq<Byte>)
    requires ImageNames(images) && |ThemeBlob(theme, images, conf)| < TWO32
    ensures ReadCpioFrom(ThemeBlob(theme, images, conf), 0) == Ok(ThemeItems(LAYOUT, theme, images, conf))
  {
    var items := ThemeItems(LAYOUT, theme, images, conf);
    ThemeAscii(theme, images, conf);
    ThemeStorable(theme, images, conf);
    ArchiveBounds(1, 1, items);
    forall k | 0 <= k < |items| ensures Fits(items[k]) { ThemeMode(theme, images, conf, k); }
    ArchiveRoundTrip(1, 1, items);
    UpToTrailerIsAll(items);
  }

  lemma ThemeMode(theme: seq<Byte>, images: seq<Image>, conf: seq<Byte>, k: nat)
    requires k < |ThemeItems(LAYOUT, theme, images, conf)|
    ensures ThemeItems(LAYOUT, theme, images, conf)[k].mode < TWO32
  {
  }

  /**
    From one script to the other: the archive the splash builder writes reads back as what was
    packed, its repacked form reads back complete and with directories first, and what that
    unpacks to is the packed tree except for the overrides and the directories they need.
   */
  lemma BootArchiveRepacks(theme: seq<Byte>, images: seq<Image>, conf: seq<Byte>, bgrt: seq<Byte>, path: string)
    requires ImageNames(images) && |ThemeBlob(theme, images, conf)| < TWO32 && |bgrt| < TWO32
    ensures var p, items, raw := AlsPlan(bgrt), ThemeItems(LAYOUT, theme, images, conf), ThemeBlob(theme, images, conf);
      && PlanAscii(p) && ReadCpioFrom(raw, 0) == Ok(items)
      && ReadCpioFrom(Rewritten(p, raw), 0) == Ok(Repacked(p, items))
      && NamesAll(Repacked(p, items), p.need) && ParentsFirst(Repacked(p, items), {})
      && (path in Names(items) && !Overridden(p, items, path) ==> Find(Repacked(p, items), path) == Find(items, path))
  {
    var p, items := AlsPlan(bgrt), ThemeItems(LAYOUT, theme, images, conf);
    ThemeDistinct(theme, images, conf);
    ThemeParents(theme, images, conf);
    ThemePassesCheck(theme, images, conf, bgrt);
    ThemeReadsBack(theme, images, conf);
    PlanIsWritable(bgrt);
    PlanIsSound(bgrt);
    RewrittenReadsBack(p, ThemeBlob(theme, images, conf));
    RepackParents(p, items);
    DistinctFirstIsLast(items, path);
    RepackMeaning(p, items, path);
    FirstSome(items, path);
  }

  /** And repacking it again settles at once: the tree stays as it is, and the third archive is the second. */
  lemma BootArchiveSettles(theme: seq<Byte>, images: seq<Image>, conf: seq<Byte>, bgrt: seq<Byte>, path: string)
    requires ImageNames(images) && |ThemeBlob(theme, images, conf)| < TWO32 && |bgrt| < TWO32
    ensures var p, items, raw := AlsPlan(bgrt), ThemeItems(LAYOUT, theme, images, conf), ThemeBlob(theme, images, conf);
      && PlanAscii(p) && ReadCpioFrom(raw, 0).Ok? && ReadCpioFrom(Rewritten(p, raw), 0).Ok?
      && var twice := Rewritten(p, Rewritten(p, raw));
      && ReadCpioFrom(twice, 0).Ok? && Rewritten(p, twice) == twice
      && Find(Repacked(p, Repacked(p, items)), path) == Find(Repacked(p, items), path)
  {
    var p, items := AlsPlan(bgrt), ThemeItems(LAYOUT, theme, images, conf);
    ThemeReadsBack(theme, images, conf);
    ThemeDistinct(theme, images, conf);
    PlanIsWritable(bgrt);
    PlanIsSound(bgrt);
    RepackSettles(p, ThemeBlob(theme, images, conf));
    DistinctKeepsTree(p, items, path);
  }

  lemma ThemeStorable(theme: seq<Byte>, images: seq<Image>, conf: seq<Byte>)
    requires ImageNames(images)
    ensures forall k :: 0 <= k < |ThemeItems(LAYOUT, theme, images, conf)| ==>
      ThemeItems(LAYOUT, theme, images, conf)[k].name != TRAILER
  {
    PathLengths();
    DirsDistinct();
    ImagesDistinct(images);
    var items := ThemeItems(LAYOUT, theme, images, conf);
    forall k | 0 <= k < |items| ensures items[k].name != "" && items[k].name[0] != 'T' {
      PackedName(theme, images, conf, k);
    }
  }

  lemma PackedName(theme: seq<Byte>, images: seq<Image>, conf: seq<Byte>, k: nat)
    requires ImageNames(images) && k < |ThemeItems(LAYOUT, theme, images, conf)|
    ensures var name := ThemeItems(LAYOUT, theme, images, conf)[k].name;
      name != "" && (name[0] == 'u' || name[0] == 'e')
  {
    PathLengths();
    ImagesDistinct(images);
  }
}
