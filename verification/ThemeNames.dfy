/** The file names `build_images` makes are what packing and repacking need them to be. */
module ThemeNames {
  import opened Bytes
  import opened Decimal
  import opened Canvas
  import opened Splash
  import opened ThemeArchive
  import opened AlsPaths

  datatype Role = Mark | Throbber(f: nat) | Animation(f: nat) | Box | EntryBox | Bullet | Lock

  /** What the `k`-th picture is, when there are `n` frames. */
  function RoleOf(n: nat, k: nat): Role
    requires k < 2 * n + 5
  {
    if k == 0 then Mark
    else if k <= 2 * n then if k % 2 == 1 then Throbber((k - 1) / 2) else Animation((k - 2) / 2)
    else if k == 2 * n + 1 then Box
    else if k == 2 * n + 2 then EntryBox
    else if k == 2 * n + 3 then Bullet
    else Lock
  }

  function NameOf(r: Role): string {
    match r
    case Mark => "watermark.png"
    case Throbber(f) => FrameName("throbber-", f)
    case Animation(f) => FrameName("animation-", f)
    case Box => "box.png"
    case EntryBox => "entry.png"
    case Bullet => "bullet.png"
    case Lock => "lock.png"
  }

  /** The pictures carry these names in this order. */
  predicate NamedBy(made: seq<Picture>, n: nat, name: Role -> string) {
    && |made| == 2 * n + 5 && made[0].name == name(Mark)
    && (forall f :: 0 <= f < n ==>
          made[2 * f + 1].name == name(Throbber(f)) && made[2 * f + 2].name == name(Animation(f)))
    && made[2 * n + 1].name == name(Box) && made[2 * n + 2].name == name(EntryBox)
    && made[2 * n + 3].name == name(Bullet) && made[2 * n + 4].name == name(Lock)
  }

  predicate Named(made: seq<Picture>, n: nat) { NamedBy(made, n, NameOf) }

  lemma ThemeIsNamed(made: seq<Picture>, font: Font, wordmark: string, subtitle: string, n: nat)
    requires IsFont(font) && AllDrawable(font, wordmark) && AllDrawable(font, subtitle)
    requires IsTheme(made, font, wordmark, subtitle, n)
    ensures Named(made, n)
  {
  }

  lemma PictureName(made: seq<Picture>, n: nat, k: nat, name: Role -> string)
    requires NamedBy(made, n, name) && k < |made|
    ensures made[k].name == name(RoleOf(n, k))
  {
    if 0 < k <= 2 * n {
      var f := (k - 1) / 2;
      FrameRoles(n, f);
      assert made[2 * f + 1].name == name(Throbber(f)) && made[2 * f + 2].name == name(Animation(f));
      assert k == 2 * f + 1 || k == 2 * f + 2;
    }
  }

  lemma FrameRoles(n: nat, f: nat)
    requires f < n
    ensures RoleOf(n, 2 * f + 1) == Throbber(f) && RoleOf(n, 2 * f + 2) == Animation(f)
  {
  }

  lemma RolesDiffer(n: nat, i: nat, j: nat)
    requires i < j < 2 * n + 5
    ensures RoleOf(n, i) != RoleOf(n, j)
  {
  }

  /** The first two letters tell the kinds of picture apart. */
  function Initials(r: Role): string {
    match r
    case Mark => "wa"
    case Throbber(_) => "th"
    case Animation(_) => "an"
    case Box => "bo"
    case EntryBox => "en"
    case Bullet => "bu"
    case Lock => "lo"
  }

  lemma StartsWithInitials(r: Role)
    ensures |NameOf(r)| >= 2 && NameOf(r)[..2] == Initials(r)
  {
  }

  lemma FrameNameInjective(prefix: string, f: nat, g: nat)
    requires FrameName(prefix, f) == FrameName(prefix, g)
    ensures f == g
  {
    var a, b := Padded(f + 1, 4), Padded(g + 1, 4);
    Cancel(prefix, a, b, ".png");
    PaddedInjective(f + 1, g + 1, 4);
  }

  lemma Cancel(prefix: string, a: string, b: string, suffix: string)
    requires prefix + a + suffix == prefix + b + suffix
    ensures a == b
  {
    var s := prefix + a + suffix;
    assert |a| == |b|;
    assert s[|prefix|..|prefix| + |a|] == a && s[|prefix|..|prefix| + |b|] == b;
  }

  lemma NamesDiffer(r: Role, s: Role)
    requires r != s
    ensures NameOf(r) != NameOf(s)
  {
    StartsWithInitials(r);
    StartsWithInitials(s);
    if NameOf(r) == NameOf(s) {
      if r.Throbber? { FrameNameInjective("throbber-", r.f, s.f); }
      if r.Animation? { FrameNameInjective("animation-", r.f, s.f); }
    }
  }

  lemma {:induction false} NumeralDigits(n: nat)
    ensures '/' !in Numeral(n)
  {
    if n >= 10 { NumeralDigits(n / 10); }
  }

  lemma FrameNameHasNoSlash(prefix: string, suffix: string, f: nat)
    requires '/' !in prefix && '/' !in suffix
    ensures '/' !in prefix + Padded(f + 1, 4) + suffix
  {
    NumeralDigits(f + 1);
  }

  lemma NoSlashInName(r: Role)
    ensures '/' !in NameOf(r)
  {
    match r
    case Throbber(f) => FrameNameHasNoSlash("throbber-", ".png", f);
    case Animation(f) => FrameNameHasNoSlash("animation-", ".png", f);
    case _ =>
  }

  lemma {:induction false} NumeralAscii(n: nat)
    ensures Ascii(Numeral(n))
  {
    if n >= 10 { NumeralAscii(n / 10); }
  }

  lemma AsciiJoin(a: string, b: string)
    requires Ascii(a) && Ascii(b)
    ensures Ascii(a + b)
  {
  }

  lemma FrameNameAscii(prefix: string, suffix: string, f: nat)
    requires Ascii(prefix) && Ascii(suffix)
    ensures Ascii(prefix + Padded(f + 1, 4) + suffix)
  {
    NumeralAscii(f + 1);
    AsciiJoin(prefix, Padded(f + 1, 4));
    AsciiJoin(prefix + Padded(f + 1, 4), suffix);
  }

  lemma NameIsAscii(r: Role)
    ensures Ascii(NameOf(r))
  {
    match r
    case Throbber(f) => FrameNameAscii("throbber-", ".png", f);
    case Animation(f) => FrameNameAscii("animation-", ".png", f);
    case _ =>
  }

  lemma NamedImages(made: seq<Picture>, n: nat, images: seq<Image>, order: nat -> nat)
    requires Named(made, n)
    requires forall i: nat :: i < |images| ==> order(i) < |made| && images[i].name == made[order(i)].name
    requires forall i: nat, j: nat :: i < j < |images| ==> order(i) != order(j)
    requires exists i: nat :: i < |images| && order(i) == 0
    ensures ImageNames(images)
  {
    forall i: nat | i < |images| ensures images[i].name == NameOf(RoleOf(n, order(i))) {
      PictureName(made, n, order(i), NameOf);
    }
    forall i: nat, j: nat | i < j < |images| ensures images[i].name != images[j].name {
      if order(i) < order(j) { RolesDiffer(n, order(i), order(j)); } else { RolesDiffer(n, order(j), order(i)); }
      NamesDiffer(RoleOf(n, order(i)), RoleOf(n, order(j)));
    }
    forall i: nat | i < |images|
      ensures '/' !in images[i].name && images[i].name != "als.plymouth" && Ascii(images[i].name)
    {
      NameIsAscii(RoleOf(n, order(i)));
      NoSlashInName(RoleOf(n, order(i)));
      NotThemeFile(RoleOf(n, order(i)), "als.plymouth");
    }
    var i: nat :| i < |images| && order(i) == 0;
    assert RoleOf(n, 0) == Mark;
    MarkIsWatermark();
  }

  lemma NotThemeFile(r: Role, file: string)
    requires file == "als.plymouth"
    ensures NameOf(r) != file
  {
    StartsWithInitials(r);
    assert file[..2] == "al";
  }

  lemma MarkIsWatermark()
    ensures NameOf(Mark) == WATERMARK
  {
  }

  /** In whatever order the pictures are packed, no two share a name and none takes another file's place. */
  lemma ThemeImageNames(made: seq<Picture>, font: Font, wordmark: string, subtitle: string, n: nat,
                        images: seq<Image>, order: nat -> nat)
    requires IsFont(font) && AllDrawable(font, wordmark) && AllDrawable(font, subtitle)
    requires IsTheme(made, font, wordmark, subtitle, n)
    requires forall i: nat :: i < |images| ==> order(i) < |made| && images[i].name == made[order(i)].name
    requires forall i: nat, j: nat :: i < j < |images| ==> order(i) != order(j)
    requires exists i: nat :: i < |images| && order(i) == 0
    ensures ImageNames(images)
  {
    ThemeIsNamed(made, font, wordmark, subtitle, n);
    NamedImages(made, n, images, order);
  }
}
