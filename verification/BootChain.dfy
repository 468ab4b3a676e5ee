/**
  From the words on the screen to the repacked boot archive: `main` of tools/boot/make-splash.py
  followed by `main` of tools/boot/add-bgrt-override.py.
 */
module BootChain {
  import opened Bytes
  import opened Options
  import opened Newc
  import opened Overlay
  import opened OverlayMeaning
  import opened RepeatedNames
  import opened RepackMain
  import opened CpioReaders
  import opened RepackWriter
  import opened ThemeArchive
  import opened AlsPaths
  import opened Canvas
  import opened SplashFont
  import opened Splash
  import Png
  import opened ThemeNames

  // ---------------------------------------------------------------- sorting by name

  predicate NameSorted(images: seq<Image>) {
    forall i, j :: 0 <= i < j < |images| ==> Less(images[i].name, images[j].name)
  }

  predicate NamesDistinct(images: seq<Image>) {
    forall i, j :: 0 <= i < j < |images| ==> images[i].name != images[j].name
  }

  function Place(images: seq<Image>, image: Image): (r: seq<Image>)
    ensures |r| == |images| + 1 && forall x :: x in r <==> x in images || x == image
  {
    if images == [] then [image]
    else if Less(image.name, images[0].name) then [image] + images
    else
      var r := Place(images[1..], image);
      assert images == [images[0]] + images[1..];
      [images[0]] + r
  }

  /** `sorted(made)`: the names are distinct, so only they decide. */
  function ByName(images: seq<Image>): (r: seq<Image>)
    ensures |r| == |images| && forall x :: x in r <==> x in images
  {
    if images == [] then []
    else
      assert images == images[..|images| - 1] + [images[|images| - 1]];
      Place(ByName(images[..|images| - 1]), images[|images| - 1])
  }

  lemma {:induction false} PlaceSorts(images: seq<Image>, image: Image)
    requires NameSorted(images) && forall x :: x in images ==> x.name != image.name
    ensures NameSorted(Place(images, image))
  {
    if images != [] {
      var first, r := images[0], Place(images, image);
      LessIsStrict(image.name, first.name);
      if Less(image.name, first.name) {
        forall j | 0 < j < |r| ensures Less(image.name, r[j].name) {
          if j > 1 { LessChains(image.name, first.name, images[j - 1].name); }
        }
      } else {
        PlaceSorts(images[1..], image);
        forall j | 0 < j < |r| ensures Less(first.name, r[j].name) {
          assert r[j] in Place(images[1..], image);
        }
      }
    }
  }

  lemma {:induction false} ByNameSorts(images: seq<Image>)
    requires NamesDistinct(images)
    ensures NameSorted(ByName(images))
  {
    if images != [] {
      ByNameSorts(images[..|images| - 1]);
      PlaceSorts(ByName(images[..|images| - 1]), images[|images| - 1]);
    }
  }

  lemma SortedAreDistinct(images: seq<Image>)
    requires NameSorted(images)
    ensures NamesDistinct(images)
  {
    forall i, j | 0 <= i < j < |images| ensures images[i].name != images[j].name {
      LessIsStrict(images[i].name, images[j].name);
    }
  }

  /** Sorting keeps what packing needs of the names. */
  lemma ByNameKeeps(images: seq<Image>)
    requires ImageNames(images)
    ensures ImageNames(ByName(images)) && NameSorted(ByName(images))
  {
    var sorted := ByName(images);
    ByNameSorts(images);
    SortedAreDistinct(sorted);
    forall i | 0 <= i < |sorted|
      ensures '/' !in sorted[i].name && sorted[i].name != "als.plymouth" && Ascii(sorted[i].name)
    {
      assert sorted[i] in images;
    }
    var k :| 0 <= k < |images| && images[k].name == WATERMARK;
    assert images[k] in sorted;
  }

  // ---------------------------------------------------------------- building and packing

  /** The picture can be written: its numbers fit their fields. */
  predicate Writes(p: Picture, compress: Png.Codec) {
    p.w < TWO32 && p.h < TWO32 && |compress(Png.Scanlines(p.pixels, p.w * 4, 0, p.h))| < TWO32
  }

  predicate AllWrite(made: seq<Picture>, compress: Png.Codec) {
    forall i :: 0 <= i < |made| ==> Writes(made[i], compress)
  }

  /** The picture's file. */
  predicate IsFileOf(image: Image, p: Picture, compress: Png.Codec, crc: Png.Checksum) {
    Writes(p, compress) && image.name == p.name && image.png == Png.Encode(p.w, p.h, p.pixels, compress, crc)
  }

  /** One file for each picture, and nothing else. */
  ghost predicate FilesOf(images: seq<Image>, made: seq<Picture>, compress: Png.Codec, crc: Png.Checksum) {
    && |images| == |made|
    && (forall p :: p in made ==> HasFile(images, p, compress, crc))
    && (forall image :: image in images ==> HasPicture(made, image, compress, crc))
  }

  ghost predicate HasFile(images: seq<Image>, p: Picture, compress: Png.Codec, crc: Png.Checksum) {
    exists image :: image in images && IsFileOf(image, p, compress, crc)
  }

  ghost predicate HasPicture(made: seq<Picture>, image: Image, compress: Png.Codec, crc: Png.Checksum) {
    exists p :: p in made && IsFileOf(image, p, compress, crc)
  }

  method WriteAll(made: seq<Picture>, compress: Png.Codec, crc: Png.Checksum) returns (images: Option<seq<Image>>)
    ensures images.Some? <==> AllWrite(made, compress)
    ensures images.Some? ==>
      && |images.value| == |made|
      && forall i :: 0 <= i < |made| ==> IsFileOf(images.value[i], made[i], compress, crc)
  {
    var written: seq<Image> := [];
    for i := 0 to |made|
      invariant |written| == i && forall j :: 0 <= j < i ==> IsFileOf(written[j], made[j], compress, crc)
    {
      var png := Png.WritePng(made[i].w, made[i].h, made[i].pixels, compress, crc);
      if png.None? { return None; }
      written := written + [Image(made[i].name, png.value)];
    }
    return Some(written);
  }

  /** Sorting keeps the files. */
  lemma SortedFiles(images: seq<Image>, made: seq<Picture>, compress: Png.Codec, crc: Png.Checksum)
    requires |images| == |made| && forall i :: 0 <= i < |made| ==> IsFileOf(images[i], made[i], compress, crc)
    ensures FilesOf(ByName(images), made, compress, crc)
  {
    SameFiles(images, ByName(images), made, compress, crc);
  }

  lemma SameFiles(images: seq<Image>, sorted: seq<Image>, made: seq<Picture>, compress: Png.Codec, crc: Png.Checksum)
    requires |images| == |made| && forall i :: 0 <= i < |made| ==> IsFileOf(images[i], made[i], compress, crc)
    requires |sorted| == |images| && forall image :: image in sorted <==> image in images
    ensures FilesOf(sorted, made, compress, crc)
  {
    forall p | p in made ensures HasFile(sorted, p, compress, crc) {
      var i :| 0 <= i < |made| && made[i] == p;
      assert images[i] in sorted;
    }
    forall image | image in sorted ensures HasPicture(made, image, compress, crc) {
      var i :| 0 <= i < |images| && images[i] == image;
      assert made[i] in made;
    }
  }

  lemma {:induction false} WrittenNames(made: seq<Picture>, images: seq<Image>, font: Font, wordmark: string,
                                        subtitle: string, n: nat)
    requires IsFont(font) && AllDrawable(font, wordmark) && AllDrawable(font, subtitle)
    requires IsTheme(made, font, wordmark, subtitle, n)
    requires |images| == |made| && forall i :: 0 <= i < |made| ==> images[i].name == made[i].name
    ensures ImageNames(ByName(images)) && NameSorted(ByName(images))
  {
    ThemeImageNames(made, font, wordmark, subtitle, n, images, (i: nat) => i);
    ByNameKeeps(images);
  }

  /** Packing pictures with such names never fails. */
  method PackAls(theme: seq<Byte>, images: seq<Image>, conf: seq<Byte>) returns (blob: seq<Byte>)
    requires ImageNames(images)
    ensures blob == ThemeBlob(theme, images, conf)
  {
    LayoutIsAscii();
    var packed := PackTheme(LAYOUT, theme, images, conf);
    blob := packed.value;
  }

  /** All texts are in the font. */
  predicate BothDrawable(font: Font, wordmark: string, subtitle: string) {
    AllDrawable(font, wordmark) && AllDrawable(font, subtitle)
  }

  /** The pictures of the theme, if the texts can be drawn. */
  ghost predicate IsMade(made: seq<Picture>, font: Font, wordmark: string, subtitle: string, frames: int)
    requires IsFont(font)
  {
    BothDrawable(font, wordmark, subtitle) ==> IsTheme(made, font, wordmark, subtitle, Max(frames, 0))
  }

  /** The archive is that of these files, sorted by name. */
  ghost predicate IsPacked(blob: seq<Byte>, images: seq<Image>, theme: seq<Byte>, conf: seq<Byte>) {
    ImageNames(images) && NameSorted(images) && blob == ThemeBlob(theme, images, conf)
  }

  /**
    `main` of the splash builder, up to the archive, which is written if and only if all texts are
    in the font and all pictures fit.
   */
  method BuildAndPack(font: Font, wordmark: string, subtitle: string, frames: int, theme: seq<Byte>, conf: seq<Byte>,
                      compress: Png.Codec, crc: Png.Checksum)
    returns (ghost made: seq<Picture>, images: seq<Image>, blob: Option<seq<Byte>>)
    requires IsFont(font) && Ascii(wordmark) && Ascii(subtitle)
    ensures IsMade(made, font, wordmark, subtitle, frames)
    ensures blob.Some? <==> BothDrawable(font, wordmark, subtitle) && AllWrite(made, compress)
    ensures blob.Some? ==> IsPacked(blob.value, images, theme, conf)
    ensures blob.Some? ==> FilesOf(images, made, compress, crc)
  {
    made, images, blob := [], [], None;
    var pictures := BuildImages(font, wordmark, subtitle, frames);
    if pictures.Some? {
      made := pictures.value;
      var written := WriteAll(pictures.value, compress, crc);
      if written.Some? {
        WrittenNames(made, written.value, font, wordmark, subtitle, Max(frames, 0));
        SortedFiles(written.value, made, compress, crc);
        images := ByName(written.value);
        var packed := PackAls(theme, images, conf);
        blob := Some(packed);
      }
    }
  }

  /**
    Both scripts, one after the other: the splash builder's archive as above, and if it is smaller
    than 4 GiB, the repacked one, which passes the repacker's final check.
   */
  method BuildPackRepack(wordmark: string, subtitle: string, frames: int, theme: seq<Byte>, conf: seq<Byte>,
                         bgrt: seq<Byte>, compress: Png.Codec, crc: Png.Checksum)
    returns (ghost made: seq<Picture>, images: seq<Image>, blob: Option<seq<Byte>>, r: Option<Outcome>)
    requires Ascii(wordmark) && Ascii(subtitle) && |bgrt| < TWO32
    ensures IsFont(FONT) && IsMade(made, FONT, wordmark, subtitle, frames)
    ensures blob.Some? <==> BothDrawable(FONT, wordmark, subtitle) && AllWrite(made, compress)
    ensures blob.Some? ==> IsPacked(blob.value, images, theme, conf)
    ensures blob.Some? ==> FilesOf(images, made, compress, crc)
    ensures r.Some? <==> blob.Some?
    ensures r.Some? && |blob.value| < TWO32 ==> IsRepacked(r.value, bgrt, theme, images, conf)
  {
    FontIsWellFormed();
    var packed;
    made, images, packed := BuildAndPack(FONT, wordmark, subtitle, frames, theme, conf, compress, crc);
    blob, r := packed, None;
    if blob.Some? {
      PlanIsWritable(bgrt);
      var out := Repack(AlsPlan(bgrt), blob.value);
      r := Some(out);
      if |blob.value| < TWO32 { RepackedIsComplete(out, bgrt, theme, images, conf); }
    }
  }

  /** The repacker's archive is that of the repacked theme, and passes the final check. */
  ghost predicate IsRepacked(r: Outcome, bgrt: seq<Byte>, theme: seq<Byte>, images: seq<Image>, conf: seq<Byte>) {
    && r.Written? && r.complete == Ok(true)
    && ReadCpioFrom(r.out, 0) == Ok(Repacked(AlsPlan(bgrt), ThemeItems(LAYOUT, theme, images, conf)))
  }

  /** What `Repack` says of its outcome. */
  ghost predicate IsOutcome(r: Outcome, p: Plan, raw: seq<Byte>)
    requires PlanAscii(p)
  {
    && (r.Unreadable? <==> ReadCpioFrom(raw, 0).Err?)
    && (r.NoImages? <==> ReadCpioFrom(raw, 0).Ok? && Frames(p, ReadCpioFrom(raw, 0).value) == [])
    && (r.Written? ==>
          && r.out == Rewritten(p, raw)
          && var back := ReadCpioFrom(r.out, 0);
             r.complete == if back.Err? then Err(back.error) else Ok(NamesAll(back.value, p.need)))
  }

  lemma RepackedIsComplete(r: Outcome, bgrt: seq<Byte>, theme: seq<Byte>, images: seq<Image>, conf: seq<Byte>)
    requires PlanAscii(AlsPlan(bgrt)) && |bgrt| < TWO32 && ImageNames(images)
      && |ThemeBlob(theme, images, conf)| < TWO32
    requires IsOutcome(r, AlsPlan(bgrt), ThemeBlob(theme, images, conf))
    ensures IsRepacked(r, bgrt, theme, images, conf)
  {
    BootArchiveRepacks(theme, images, conf, bgrt, "");
    ThemePassesCheck(theme, images, conf, bgrt);
  }

  // ---------------------------------------------------------------- what a repeated name does

  /** The same with the real paths: a file the repacker has no business with. */
  lemma RepeatedNotesChange(bgrt: seq<Byte>)
    ensures var p, items := AlsPlan(bgrt), Twice("notes", [1], [2]);
      && Find(Repacked(p, items), "notes") == Some(Node(FILE_MODE, [1]))
      && Find(items, "notes") == Some(Node(FILE_MODE, [2]))
  {
    PlanIsSound(bgrt);
    ThemePathsAscii();
    RepeatedFileChanges(AlsPlan(bgrt), "notes", [1], [2]);
  }

  /** And the wordmark, packed twice: a second repacking puts the older copy into the spinner theme. */
  lemma RepeatedWatermarkChanges(bgrt: seq<Byte>)
    ensures var p, copy := AlsPlan(bgrt), SpinPath(AlsPlan(bgrt), WATERMARK);
      var once := Repacked(p, Twice(Sub(ALS, WATERMARK), [1], [2]));
      Find(once, copy) == Some(Node(FILE_MODE, [2])) && Find(Repacked(p, once), copy) == Some(Node(FILE_MODE, [1]))
  {
    PlanIsSound(bgrt);
    WatermarkIsFrame(bgrt);
    AfterLastOfSub(ALS, WATERMARK);
    RepeatedImageChanges(AlsPlan(bgrt), Sub(ALS, WATERMARK), [1], [2]);
  }
}
