# Boot splash, Markdown and small-tool models

A Dafny model of the standalone Python tools of the repository, with the properties they depend on.
`dafny verify dfyconfig.toml` checks all of it.

* **The boot splash** (`tools/boot/make-splash.py`): pixel-exact drawing of text, discs, rectangles and all theme
  pictures into RGBA buffers; PNG framing; the newc archive writer as a class over a growing buffer; the archive reader.
  Modules `Canvas`, `SplashFont`, `Splash`, `Decimal`, `Png`, `Newc`, `CpioWriter`, `CpioReaders`, `ThemeArchive`,
  `ThemeNames`; `BootChain` runs it together with the next tool.
* **The repacker** (`tools/boot/add-bgrt-override.py`): a second archive parser and printer, and the overlay of BGRT and
  spinner files over an archive. Modules `CpioReaders`, `PathChain`, `Overlay`, `OverlayMeaning`, `OverlayFixpoint`,
  `RepeatedNames`, `RepackWriter`, `RepackMain`, `AlsPaths`.
* **The Markdown front end** (`tools/md-to-pdf.py`, `tools/verify-pdf.py`): escaping, emphasis, code spans and links; the
  block parser; the independent heading scanner; table column widths over the reals. Modules `Escape`, `Emphasis`,
  `EmphasisMeaning`, `Inline`, `LinkMarks`, `LinkCuts`, `MarkupReader`, `InlineNesting`, `InlineText`, `LinkAddresses`,
  `InlineLinks`, `BrokenLinks`, `MdLines`, `Blocks`, `LineShapes`, `BlockRuns`, `BlockInk`, `BlockWriter`, `LineReader`,
  `HeadingScan`, `ScanDisagreements`, `Stalling`, `ColWidths`, `ColWidthLimits`.
* **Two small cores**: the watch loop of `tools/gui/fullscreen-x.py` against an arbitrary X server (`WindowFixer`), and the
  counting in `paper/assemble.py` (`Assemble`).

`Bytes`, `Options`, `Reals` and `Text` are shared helpers.

## What the proofs found

* `parse` never ends on a document in which some turn of its outer loop starts at a list marker with only whitespace
  behind it (`"- "`): line 294 looks at the line without trailing whitespace, line 321 at the raw line.
  `BlockRuns.Termination` says the loop ends if and only if no turn does; `BlockRuns.HyphenNeverEnds` is the smallest such
  document. `Stalling.DivergesIff` decides it for every document in one pass over its lines, `Stalling.TidyDivergesIff` by
  fences alone.
* The repacker keeps the first of two entries with one name, unpacking keeps the last. `OverlayMeaning.OriginalKept` and
  `OverlayFixpoint.SecondKeepsTree` give the exact conditions under which files keep their contents, and under which a
  second repacking changes nothing; archives of the splash builder meet both. `RepeatedNames.RepeatedFileChanges` and
  `RepeatedNames.RepeatedImageChanges` show both failing for every repeated name, `BootChain.RepeatedNotesChange` and
  `BootChain.RepeatedWatermarkChanges` with the real paths.
* `inline` does not always write well-nested markup. `InlineNesting.NestsIffSound` is the exact condition, for every text:
  no match of the second link substitution closes its bracket or its parenthesis inside a web link (`CutFree`), no address
  that is left holds a quote or an asterisk (`CleanAddrs`), and the emphasis open where a link's words begin is never closed
  inside them and is all that is open where they end (`Level`). `BrokenLinks` has a family and a short text for each way to
  fail: `[a](http://x"y)`, `[a](http://x*y)`, `*[a*](http://x)`, `[q](z [b)c](http://x)` (the opening link tag is
  swallowed), `[a](http://x[y)[b](http://x](w)c)` (an address is cut short).
* The dashes are set after the links, and so in their addresses too: `[a](http://x--y)` leads to `http://x&#8211;y`
  (`InlineLinks.DashExample`). `InlineLinks.AddressKeptIff` is exact, `LinkAddresses.LinksLead` says for every text whose
  markup nests where its links lead.
* With thirteen columns `col_widths` can return a negative width, and with twelve a width under its own floor
  (`ColWidthLimits.NegativeWidth`, `ColWidthLimits.DonorBelowFloor`). `ColWidths.KeepsFloorIff` says exactly when no column
  ends under the floor, `ColWidths.AllPositiveIff` when none is negative.
* The heading scanner and the block parser disagree. `LineReader` reads the block structure line by line, and
  `HeadingScan.BlocksAreSum` says, for every document, that the blocks hold what their lines hold there;
  `HeadingScan.SameIffUnremarkable` says of each line whether the scanner finds the same on it. As long as no fence line
  carries on a list or a table, the code is the same and the headings are if and only if no heading line carries on a list
  or a table (`HeadingScan.ScannersAgreeIff`). `ScanDisagreements` has a document for each way to fail: `- a`, ` # b`;
  `a | b`, `-|-`, `# c | d`; and with the fence lines ` ``` ` after `- a` and ```` ``` | x ```` after the same table.

## Model

| member | source | states |
|---|---|---|
| Canvas.NewCanvas | tools/boot/make-splash.py:127-128 | a new buffer of four bytes a pixel, every pixel transparent |
| Canvas.Put | tools/boot/make-splash.py:131-133 | exactly one pixel changes; the position must be on the canvas, where the slice assignment cannot grow the buffer |
| Canvas.SlotsApart | tools/boot/make-splash.py:131-133 | different pixels on the canvas own disjoint four-byte slots |
| Canvas.FillBlock | tools/boot/make-splash.py:146-150 | the two innermost loops paint exactly a scale-by-scale box |
| Canvas.DrawGlyph | tools/boot/make-splash.py:143-150 | a pixel changes iff the glyph's bit that covers it, found by dividing by the scale, is '1' |
| Canvas.TextStep | tools/boot/make-splash.py:139-151 | the closed form of a text with one more character is the old ink or the new glyph at its advance |
| Canvas.UpperIs | tools/boot/make-splash.py:137-140 | texts that differ in case alone are drawn alike |
| Canvas.DrawText | tools/boot/make-splash.py:136-152 | pixel-exact: painted iff the closed form with div and mod says so, nothing else changes; fails exactly when the font lacks a character, with the text before it drawn; returns the advance |
| Canvas.DrawDisc | tools/boot/make-splash.py:159-165 | exactly the pixels within the radius change, for any disc whose ink is on the canvas |
| Canvas.DrawRect | tools/boot/make-splash.py:168-173 | exactly the box changes: border on its four edges, fill elsewhere |
| SplashFont.FontIsWellFormed | tools/boot/make-splash.py:55-97 | every glyph of the real font has seven rows of five bits |
| Splash.BuildWatermark | tools/boot/make-splash.py:365-378 | every pixel of the watermark in closed form, for all ASCII texts in the font: the floor-division centring never leaves the canvas and the two lines never overlap |
| Splash.BuildFrame | tools/boot/make-splash.py:390-400 | both files of a frame show the same twelve dots, each pixel in closed form, all inside 301 by 14 |
| Splash.DotsChase | tools/boot/make-splash.py:390-396 | each frame is the one before with its dots moved one to the right, the last round to the first |
| Splash.DotsFade | tools/boot/make-splash.py:393-394 | one dot is opaque, the next ones to its right fade by 40 down to 40 |
| Splash.FrameNameIs | tools/boot/make-splash.py:398 | frames are numbered from 1, with at least four digits |
| Splash.BuildPanel | tools/boot/make-splash.py:402-412 | the prompt boxes: border and fill, pixel by pixel |
| Splash.BuildBullet | tools/boot/make-splash.py:413-416 | the bullet picture, pixel by pixel |
| Splash.BuildLock | tools/boot/make-splash.py:417-430 | the padlock with its shackle, pixel by pixel, all writes on the canvas |
| Splash.BuildImages | tools/boot/make-splash.py:361-431 | all pictures in order with names, sizes and pixels; it fails exactly when a text has a character the font lacks |
| Decimal.PaddedInjective | tools/boot/make-splash.py:397-400 | `%04d` numbers frames injectively, also past four digits |
| ThemeNames.ThemeImageNames | tools/boot/make-splash.py:493-497 | in whatever order they are packed, the pictures have distinct names without slashes, none is the theme file, and the watermark is among them |
| Png.WritePng | tools/boot/make-splash.py:106-124 | the bytes written are signature, IHDR, IDAT and IEND of the filtered scanlines; it fails exactly when a size does not fit 32 bits |
| Png.ReadsChunks | tools/boot/make-splash.py:113-117 | any list of chunks, whatever their data, is read back chunk by chunk (section 3.2 of RFC 2083) |
| Png.UnfilterScanlines | tools/boot/make-splash.py:108-111 | dropping each row's zero filter byte returns the pixel buffer |
| Png.PngRoundTrip | tools/boot/make-splash.py:106-124 | a conforming reader recovers width, height and exactly the pixels, for every compressor its inflater inverts |
| Png.PngBytes | tools/boot/make-splash.py:118-121 | the fixed bytes of every picture: signature, header chunk for eight-bit RGBA, empty end chunk (sections 3.1, 4.1.1 and 4.1.4 of RFC 2083) |
| Newc.HexRoundTrip | tools/boot/add-bgrt-override.py:106-107 | parsing the eight hexadecimal digits of a field returns the number |
| Newc.FieldWidth | tools/boot/make-splash.py:185-191 | a field has eight digits exactly when the number is below 2^32 |
| Newc.EntryAligned | tools/boot/make-splash.py:185-195 | an entry's length is a multiple of four |
| Newc.EncodeAppend | tools/boot/add-bgrt-override.py:120-161 | concatenated archives are the archive of the concatenated entries, inode numbers continued |
| Newc.HeadFields | tools/boot/make-splash.py:221-228 | the header of an entry written anywhere reads back field by field |
| Newc.HeadSays | tools/boot/make-splash.py:185-189 | the thirteen fields of a header in order, behind the six bytes `070701` |
| Newc.ParseHexEitherCase | tools/boot/add-bgrt-override.py:92-93 | fields are read alike in capitals and small letters |
| CpioWriter.PaddedByOffset | tools/boot/make-splash.py:191-195 | padding by the buffer's length gives the entry that padding by its own length gives |
| CpioWriter.Cpio.constructor | tools/boot/make-splash.py:180-183 | an empty archive, inode numbers from 1 |
| CpioWriter.Cpio.AddEntry | tools/boot/make-splash.py:185-195 | the buffer is the encoding of all entries so far and the lists of names and inodes follow; a name outside ASCII raises before anything is written |
| CpioWriter.Cpio.AddDir | tools/boot/make-splash.py:197-198 | one directory entry more |
| CpioWriter.Cpio.AddFile | tools/boot/make-splash.py:200-201 | one file entry more |
| CpioWriter.Cpio.Finish | tools/boot/make-splash.py:203-213 | the archive, a multiple of 512 bytes long, from which both readers get the entries back, whatever bytes the data holds; after any calls of `add_dir` and `add_file`, `read_back` lists `d` for each of the former and `f` for each of the latter, with names and sizes |
| CpioReaders.ReadBack | tools/boot/make-splash.py:216-236 | the loop computes the step-by-step reading of plain hexadecimal fields, errors and end of file included |
| CpioReaders.ListedByType | tools/boot/make-splash.py:233 | whatever file it stands in, an entry is listed as a directory iff the four type bits of its mode are 4 |
| CpioReaders.ReadCpio | tools/boot/add-bgrt-override.py:85-101 | the loop computes the step-by-step reading of plain hexadecimal fields, errors and end of file included |
| CpioReaders.PaddingAgrees | tools/boot/add-bgrt-override.py:94-100 | from an offset divisible by four, padding relative to the entry and to the file end at the same byte |
| CpioReaders.ArchiveRoundTrip | tools/boot/make-splash.py:203-236 | both readers recover every entry of a written archive in order, up to one named like the trailer |
| CpioReaders.UpToTrailerIsAll | tools/boot/make-splash.py:231-234 | nothing is lost iff no entry has the trailer's name |
| CpioReaders.ArchiveSize | tools/boot/make-splash.py:211-212 | finished archives are whole 512-byte blocks |
| CpioReaders.ReadersAgree | tools/boot/add-bgrt-override.py:85-101 | on any file that `read_back` accepts the other reader succeeds too; the listing is, entry by entry, what it yields and then what `read_back` finds from where it stopped: nothing at the end of the file, the trailer, or whatever lies beyond a zero byte |
| ThemeArchive.FillTheme | tools/boot/make-splash.py:488-498 | the calls that fill the archive add directories, theme file, pictures and configuration in this order |
| ThemeArchive.PackTheme | tools/boot/make-splash.py:488-499 | the blob is the archive of these entries; it fails exactly when a picture name is not ASCII |
| PathChain.LinkIsPrefix | tools/boot/add-bgrt-override.py:133-138 | what `add_dir` joins is always the path up to a slash, the last time the whole path |
| PathChain.SlashEndsLink | tools/boot/add-bgrt-override.py:133-138 | and every slash of the path is reached |
| PathChain.AncestorsAreEarlier | tools/boot/add-bgrt-override.py:133-138 | the ancestors of each directory added are the ones added before it |
| Overlay.IsFrameIff | tools/boot/add-bgrt-override.py:126 | an image to copy is a name that holds the mark and ends in the extension |
| Overlay.BaseIs | tools/boot/add-bgrt-override.py:125 | its base name is what follows the last slash |
| Overlay.DedupKeepsFirst | tools/boot/add-bgrt-override.py:141-144 | the copy loop keeps every name and its first entry |
| OverlayMeaning.FramesAre | tools/boot/add-bgrt-override.py:125-126 | the dictionary of frames, sorted, gives each base name the data of its last image |
| OverlayMeaning.LessIff | tools/boot/add-bgrt-override.py:154 | the order is decided by the code points at the first difference, or by length |
| OverlayMeaning.FindDirs | tools/boot/add-bgrt-override.py:133-138 | `add_dir` makes exactly the missing directories on the way down |
| OverlayMeaning.RepackMeaning | tools/boot/add-bgrt-override.py:121-161 | what the output unpacks to, path by path: copied images, the theme override, the first original entry, missing directories, nothing else |
| OverlayMeaning.PresentIff | tools/boot/add-bgrt-override.py:121-161 | a path is in the output iff an image is copied to it, it is the override, it was there before, or it is a directory on the way |
| OverlayMeaning.OriginalKept | tools/boot/add-bgrt-override.py:141-144 | all other files keep what they unpack to iff no name is repeated with different first and last entries |
| OverlayMeaning.DistinctFirstIsLast | tools/boot/add-bgrt-override.py:141-144 | with distinct names the condition holds |
| OverlayFixpoint.RepackParents | tools/boot/add-bgrt-override.py:133-158 | if every parent directory came first in the input, it does in the output |
| OverlayFixpoint.ThirdEqualsSecond | tools/boot/add-bgrt-override.py:121-161 | for any archive, the third repacking equals the second |
| OverlayFixpoint.SecondKeepsTree | tools/boot/add-bgrt-override.py:125-158 | the second repacking unpacks to the same tree iff, for every base name, the last image before and after dropping repeated names has the same contents |
| RepeatedNames.RepeatedFileChanges | tools/boot/add-bgrt-override.py:141-144 | a file named twice comes out with its first contents where unpacking the input gave the last |
| RepeatedNames.RepeatedImageChanges | tools/boot/add-bgrt-override.py:124-158 | an image named twice is copied with its last contents, and by a second repacking with its first |
| OverlayFixpoint.DistinctKeepsTree | tools/boot/add-bgrt-override.py:121-161 | with distinct names, twice unpacks to the same tree as once |
| RepackWriter.Repacker.constructor | tools/boot/add-bgrt-override.py:121-131 | nothing written, nothing seen |
| RepackWriter.Repacker.Extend | tools/boot/add-bgrt-override.py:104-114 | one entry appended with inode 0, the buffer being the encoding of the entries so far |
| RepackWriter.Repacker.Copy | tools/boot/add-bgrt-override.py:141-144 | an entry is copied and its name marked seen, unless it was |
| RepackWriter.Repacker.AddDir | tools/boot/add-bgrt-override.py:133-138 | the missing directories are appended and marked seen |
| RepackWriter.Repacker.Close | tools/boot/add-bgrt-override.py:160-161 | the trailer and the padding to whole blocks |
| RepackMain.CollectFrames | tools/boot/add-bgrt-override.py:124-126 | the frames, each base name once, in order |
| RepackMain.CopyEntries | tools/boot/add-bgrt-override.py:141-144 | what has been written is the input without repeated names |
| RepackMain.WriteOverlay | tools/boot/add-bgrt-override.py:146-161 | the output is the archive of the repacked entries |
| RepackMain.Repack | tools/boot/add-bgrt-override.py:117-178 | all outcomes: unreadable input, no images, and the written archive with the verdict of its own check |
| RepackMain.RewrittenReadsBack | tools/boot/add-bgrt-override.py:160-168 | an archive below 4 GiB is repacked into one that reads back entry for entry |
| RepackMain.CheckPassesIff | tools/boot/add-bgrt-override.py:168-178 | below 4 GiB the final check passes iff each needed path is present in that sense, and fails whenever one is not |
| RepackMain.RepackSettles | tools/boot/add-bgrt-override.py:117-161 | from any archive below 4 GiB, the third output is byte for byte the second |
| AlsPaths.LayoutIsAscii | tools/boot/make-splash.py:490-498 | every constant path encodes as ASCII, so packing can fail on a picture's name only |
| AlsPaths.PlanIsSound | tools/boot/add-bgrt-override.py:125-158 | the real paths meet what the fixpoint needs: overrides are no frames and do not collide |
| AlsPaths.ThemeDistinct | tools/boot/make-splash.py:488-498 | the splash builder's archive has distinct names |
| AlsPaths.ThemeParents | tools/boot/make-splash.py:488-498 | and every parent directory before its children |
| AlsPaths.ThemePassesCheck | tools/boot/add-bgrt-override.py:168-178 | the final check can never fail for it |
| AlsPaths.BootArchiveRepacks | tools/boot/add-bgrt-override.py:117-178 | all of it together, from the bytes the splash builder packs to the bytes of the repacked archive |
| AlsPaths.BootArchiveSettles | tools/boot/add-bgrt-override.py:117-161 | repacking that again leaves the tree as it is, and the third archive is the second |
| BootChain.BuildAndPack | tools/boot/make-splash.py:434-499 | an archive is written iff the font has all characters of both texts and every compressed picture is below 4 GiB; it is the archive of the layout with exactly one file for each picture built, holding its PNG, sorted by name |
| BootChain.BuildPackRepack | tools/boot/add-bgrt-override.py:117-178 | both scripts, one after the other: the second runs iff the first wrote an archive, of exactly the pictures built; below 4 GiB it is always repacked, passes the final check and reads back as the repacked entries |
| BootChain.RepeatedNotesChange | tools/boot/add-bgrt-override.py:141-144 | with the real paths: `notes`, packed twice, changes its contents |
| BootChain.RepeatedWatermarkChanges | tools/boot/add-bgrt-override.py:124-158 | with the real paths: the watermark, packed twice, changes in the spinner theme when repacked twice |
| Escape.EscIsEscEach | tools/md-to-pdf.py:117-118 | three global replacements are one escape per character, for every string |
| Escape.EscHasNoAngles | tools/md-to-pdf.py:117-118 | the result holds no angle bracket |
| Escape.UnescapeEsc | tools/md-to-pdf.py:117-118 | unescaping returns the text, so different texts stay different |
| Emphasis.Emphasise | tools/md-to-pdf.py:121-176 | the loops with their stack compute the token function, for every text; what it means is `EmphasisMeaning.EmphasisIsMeant` |
| Emphasis.EmphasisNests | tools/md-to-pdf.py:121-176 | every close matches the latest open, the stack never holds more than two entries nor one twice, all are closed at the end |
| Emphasis.EmphasisKeepsText | tools/md-to-pdf.py:121-176 | without the tags, the text with each maximal run of r asterisks shortened to max(0, r - 3) |
| EmphasisMeaning.TurnMeans | tools/md-to-pdf.py:142-172 | one asterisk toggles italic, two bold, three or more both; closing a kind closes what was opened after it; and no tag is written but what leads from the one state to the other |
| EmphasisMeaning.EmphasisIsMeant | tools/md-to-pdf.py:121-176 | for every text the tokens are exactly those of that meaning |
| EmphasisMeaning.EmphasisLooks | tools/md-to-pdf.py:121-176 | for every text an independent reader of the tags sees each character, surplus asterisks included, in just the style the asterisks before it ask for |
| EmphasisMeaning.StarsMean | tools/md-to-pdf.py:121-176 | `*a*` is italic, `**a**` bold, `***a***` italic inside bold |
| Inline.PartsKeepText | tools/md-to-pdf.py:198 | splitting at code spans loses nothing |
| Inline.PartsAreParts | tools/md-to-pdf.py:198 | every prose part is free of code spans, every code part is non-empty and free of backticks: exactly the spans are found |
| Inline.Inline | tools/md-to-pdf.py:194-212 | the loop over the parts gives the markup of each in turn; what that is for links is `InlineLinks.LinkIff` and `LinkAddresses.LinksLead` |
| InlineLinks.LinkIff | tools/md-to-pdf.py:206-208 | what the two patterns match, piece by piece: words without `]`, a target without `)`, which for the first is one of the two schemes and more |
| InlineLinks.WebLinkIs | tools/md-to-pdf.py:206-210 | `[words](http://rest)` and `[words](https://rest)` come out as a link tag with exactly this address around exactly these words |
| InlineLinks.OtherLinkIs | tools/md-to-pdf.py:208 | with any other target the words alone come out |
| InlineLinks.CodeSpanIs | tools/md-to-pdf.py:198-203 | text between backticks comes out escaped, in the code font, and otherwise as it is |
| LinkMarks.MarkedIsLinked | tools/md-to-pdf.py:206-207 | the first substitution with the pieces of its tags kept apart from the text |
| LinkMarks.SubMarksAreLinks | tools/md-to-pdf.py:208 | the second substitution on such pieces is the second substitution on the string they spell, for any pieces |
| LinkCuts.WholeIffCutFree | tools/md-to-pdf.py:206-208 | the link tags stay whole through the second substitution iff none of its matches closes its bracket in an address or its parenthesis in a link's words |
| MarkupReader.WalkDashed | tools/md-to-pdf.py:210 | replacing double hyphens changes nothing for a reader of the tags, for any text, tags cut or whole |
| InlineNesting.ReadMarks | tools/md-to-pdf.py:206-209 | the reader gets through the markup of any pieces if their tags are whole, their addresses clean and the emphasis level, and otherwise fails in it |
| InlineNesting.NestsIffSound | tools/md-to-pdf.py:194-212 | for every text: an independent reader finds the output balanced and properly nested iff every stretch of prose meets the three conditions |
| InlineNesting.NoWebLinkIsSound | tools/md-to-pdf.py:194-212 | prose without web links always meets them |
| InlineText.SoundShows | tools/md-to-pdf.py:194-212 | for sound prose, the output before its dashes are set shows, without tags, each link as its words and each run of asterisks, up to the next tag, shortened by three |
| InlineText.NoWebLinkShows | tools/md-to-pdf.py:206-209 | without web links the second substitution acts on the text itself, and what is shown is its result with each run of asterisks shortened |
| InlineText.PlainProseShows | tools/md-to-pdf.py:206-209 | without brackets, tags taken out and entities resolved, what is shown is the text itself with each run of asterisks shortened by three |
| LinkAddresses.LinksLead | tools/md-to-pdf.py:194-212 | for every text whose markup nests: the addresses a reader collects from the opening link tags are, in order, those that the two substitutions leave, with dashes for double hyphens, and each starts with one of the two schemes |
| InlineLinks.AddressKeptIff | tools/md-to-pdf.py:210 | an address stays as it was written iff it has no double hyphen |
| InlineLinks.DashExample | tools/md-to-pdf.py:206-210 | `[a](http://x--y)` |
| BrokenLinks.OneLinkNests | tools/md-to-pdf.py:206-209 | prose with one web link and no other bracket nests iff the address is clean and the emphasis level |
| BrokenLinks.TargetBreaksNesting | tools/md-to-pdf.py:206-209 | a quote or an asterisk in the address always breaks the tag |
| BrokenLinks.CrossingBreaksNesting | tools/md-to-pdf.py:206-209 | an italic stretch that ends inside a link's words crosses the link |
| BrokenLinks.SwallowingBreaksNesting | tools/md-to-pdf.py:206-208 | a match of the second substitution that ends in a link's words swallows the opening tag |
| BrokenLinks.StraddlingBreaksNesting | tools/md-to-pdf.py:206-208 | a match of the second substitution that begins in an address cuts it short |
| BrokenLinks.QuoteExample | tools/md-to-pdf.py:206-207 | `[a](http://x"y)` |
| BrokenLinks.StarExample | tools/md-to-pdf.py:206-209 | `[a](http://x*y)` |
| BrokenLinks.CrossingExample | tools/md-to-pdf.py:206-209 | `*[a*](http://x)` |
| BrokenLinks.SwallowingExample | tools/md-to-pdf.py:206-208 | `[q](z [b)c](http://x)` |
| BrokenLinks.StraddlingExample | tools/md-to-pdf.py:206-208 | `[a](http://x[y)[b](http://x](w)c)` |
| MdLines.BareMarkerShape | tools/md-to-pdf.py:294-321 | a line that is a list marker raw but not without its trailing whitespace is a marker and whitespace, nothing else |
| LineShapes.HasMarkerIff | tools/md-to-pdf.py:321 | a line is marked iff it is indentation, a bullet or digits with `.` or `)`, whitespace, and anything |
| LineShapes.IsItemIff | tools/md-to-pdf.py:294-300 | a line is an item iff without the whitespace at its end it is marked and the rest starts and ends visibly |
| LineShapes.ItemEntry | tools/md-to-pdf.py:309-310 | and its entry is then exactly the depth, marker and text it shows |
| LineShapes.IsRuleIff | tools/md-to-pdf.py:261 | a rule is three or more times the same mark, whitespace after each |
| LineShapes.IsHeadingIff | tools/md-to-pdf.py:319 | one to six hashes and whitespace |
| LineShapes.HeadingIff | tools/md-to-pdf.py:267-269 | a heading of a level and text is as many hashes, whitespace, and that text |
| LineShapes.IsTitleIff | tools/verify-pdf.py:55-57 | a heading of the scanner is one to three hashes, whitespace, and anything |
| LineShapes.IsSepIff | tools/md-to-pdf.py:219-221 | a separator is an optional pipe, pipes, colons, hyphens and whitespace with a hyphen among them, an optional pipe; and has a pipe |
| LineShapes.StripIff | tools/md-to-pdf.py:242-243 | stripping takes exactly the whitespace off both ends |
| LineShapes.IsContinuationIff | tools/md-to-pdf.py:303-305 | a line carries on an item iff it is visible and starts with a space or a tab |
| LineShapes.EndsParaIff | tools/md-to-pdf.py:317-324 | a paragraph ends at a blank line and at what looks like the start of another block |
| LineShapes.TurnIs | tools/md-to-pdf.py:241-328 | for every document, the kind of block a turn makes is the first of the eight that its line looks like, in the order of the source; headings with their level and text |
| Blocks.GatherItems | tools/md-to-pdf.py:295-311 | the list loop: an item starts an entry, an indented line extends the last, anything else ends the list |
| Blocks.ParseTurn | tools/md-to-pdf.py:241-328 | one turn of the outer loop, all eight kinds, each with its own inner loop |
| Blocks.LinesAreSplit | tools/md-to-pdf.py:235 | the lines, found break by break, are the two global replacements followed by the split |
| Blocks.Parse | tools/md-to-pdf.py:233-330 | the whole loop: the blocks of all turns, or the line it is stuck at for ever; what the turns make of which lines is `LineShapes.TurnIs` |
| BlockRuns.TurnAdvances | tools/md-to-pdf.py:240-328 | a turn advances iff its first line is not a bare list marker; if it is one, nothing changes |
| BlockRuns.Termination | tools/md-to-pdf.py:240-330 | the loop has ended after as many turns as there are lines iff no turn starts at a bare marker; otherwise its variables never change again |
| BlockRuns.HyphenNeverEnds | tools/md-to-pdf.py:294-321 | the document of the one line `"- "` never gets past its start |
| BlockRuns.NothingSkipped | tools/md-to-pdf.py:233-330 | the blocks' lines are in order and disjoint and leave out only blank lines |
| BlockWriter.ListDocument | tools/md-to-pdf.py:294-312 | a document of item lines is one list of exactly the entries they show, ordered iff the first marker starts with a digit, unless its first line is a rule or starts a table |
| BlockWriter.DocumentReads | tools/md-to-pdf.py:233-330 | blocks of all seven kinds, written down as Markdown with a blank line after each, are read back as they were |
| BlockInk.BlocksAreFaithful | tools/md-to-pdf.py:249-328 | code is the verbatim slice between its fences; a paragraph its stripped lines joined by one space; a table the cells of each of its lines; a quote and a heading the exact rest of their lines behind the mark; a list entry marker, depth and texts of its own lines; only an unclosed fence runs past the end |
| BlockInk.HeadingIs | tools/md-to-pdf.py:266-271 | a heading line is its hashes, whitespace and its text, which is not empty and has no outer whitespace |
| BlockInk.QuoteIs | tools/md-to-pdf.py:285-292 | a quote line is indentation, `>`, at most one whitespace character, and its text |
| BlockInk.RowIsSplit | tools/md-to-pdf.py:223-230 | the cells of a row are, and nothing else is, stripped parts without pipes that joined by pipes are the row without its outer ones |
| BlockInk.RowKeepsInk | tools/md-to-pdf.py:223-230 | splitting a table row loses only pipes and outer whitespace |
| BlockInk.EntriesAre | tools/md-to-pdf.py:295-311 | each entry is made of the lines from its item to the next: marker and depth of the first, and the stripped texts of all joined by one space; nothing crosses from one entry to another |
| BlockInk.ListInk | tools/md-to-pdf.py:295-311 | the markers and texts of a list's entries hold all ink of its lines |
| LineReader.TurnCovers | tools/md-to-pdf.py:240-328 | the nested loops as one automaton over lines: a turn at a line that starts anew covers exactly the lines that carry on, or stays where it is for ever |
| LineReader.ParserGoesTo | tools/md-to-pdf.py:240-330 | a run of the parser passes only lines that stop nothing, and is stuck only at a line that stops it |
| LineReader.StuckIff | tools/md-to-pdf.py:240-330 | for every document: the parser never ends iff the line reader ends at a stop |
| HeadingScan.ScanDocument | tools/verify-pdf.py:44-58 | the toggling loop computes the scanner's state line by line |
| HeadingScan.ScanIsSum | tools/verify-pdf.py:44-58 | what the scanner collects is the sum of what it finds in each line, inside a fence or not by the number of fence lines before |
| HeadingScan.BlocksAreSum | tools/md-to-pdf.py:240-330 | for every document: the headings 1 to 3 and the code of the blocks are the sum of what each line holds to the line reader |
| HeadingScan.SameIffUnremarkable | tools/verify-pdf.py:44-58 | for every line of every document: the scanner finds what the blocks hold iff the line is a fence or blank, or in code to both, or outside to both and no heading that carries on a block |
| HeadingScan.InStepIff | tools/verify-pdf.py:49-52 | scanner and parser agree on what is inside a fence, up to any line, iff no fence line before carries on anything but a fence |
| HeadingScan.ScannersAgreeIff | tools/verify-pdf.py:44-63 | where no fence line carries on another block, the code collected is that of the blocks, and the headings are iff no heading line carries on a block |
| HeadingScan.ScannersAgree | tools/verify-pdf.py:44-63 | where heading and fence lines outside fences have no pipe and no indentation, headings 1 to 3 and code lines collected by the scanner are those of the blocks |
| ScanDisagreements.IndentedHeadingDisagrees | tools/verify-pdf.py:44-58 | the lines `- a` and ` # b`: an indented heading carries on a list item |
| ScanDisagreements.PipedHeadingDisagrees | tools/verify-pdf.py:44-58 | a table and then `# c` with a pipe behind it: the heading is a row to the block parser |
| ScanDisagreements.FenceInListDisagrees | tools/verify-pdf.py:44-58 | an indented fence line carries on a list item: what follows is code to the scanner alone |
| ScanDisagreements.FenceInTableDisagrees | tools/verify-pdf.py:44-58 | a fence line with a pipe carries on a table: what follows is code to the scanner alone |
| Stalling.DivergesIff | tools/md-to-pdf.py:294-321 | for every document: the parser runs for ever iff some bare marker starts anew, which the line reader decides |
| Stalling.TidyDivergesIff | tools/md-to-pdf.py:294-321 | where fence lines outside fences and bare markers have no indentation and those fence lines no pipe, the parser runs for ever iff a bare marker stands outside all fences |
| ColWidths.Weigh | tools/md-to-pdf.py:344-351 | the weight of each column: its longest cell without markup, body cells damped at 64, at least 4 |
| ColWidths.CleanIsBare | tools/md-to-pdf.py:341-342 | cleaning leaves no asterisk, backtick, bracket or closed parenthesis, and adds nothing |
| ColWidths.CleanKeepsBare | tools/md-to-pdf.py:341-342 | text without them is left alone, so cleaning twice is cleaning once |
| ColWidths.CleanText | tools/md-to-pdf.py:341-342 | up to the first parenthesis exactly the four marks go |
| ColWidths.CleanClosed | tools/md-to-pdf.py:341-342 | a parenthesis goes with everything up to the first that closes it |
| ColWidths.CleanUnclosed | tools/md-to-pdf.py:341-342 | one that is never closed stays |
| ColWidths.LongestIsMaximum | tools/md-to-pdf.py:346-350 | the longest cell of a column bounds what every cell counts for, and some cell attains it |
| ColWidths.Redistribute | tools/md-to-pdf.py:355-365 | the two in-place loops give the settled widths, and touch nothing unless some but not all columns are short |
| ColWidths.ColumnWidths | tools/md-to-pdf.py:337-366 | the widths returned are the settled widths and always add up to the total |
| ColWidths.SettledReplaces | tools/md-to-pdf.py:355-365 | each short column becomes exactly the floor, and all donors are scaled by one factor: what the short columns leave, over the pool |
| ColWidths.SettledKeepsTotal | tools/md-to-pdf.py:355-365 | redistribution neither adds nor loses width |
| ColWidths.AllPositiveIff | tools/md-to-pdf.py:355-365 | all widths are positive iff the short columns' floors do not fill the total |
| ColWidths.KeepsFloorIff | tools/md-to-pdf.py:355-365 | no settled width is under the floor iff every donor's share of what is left is as large as the floor; without redistribution, iff no column was short |
| ColWidths.DonorKeeps | tools/md-to-pdf.py:364-365 | the settled width of a donor is at least the floor times one minus the short columns' share of the total |
| ColWidthLimits.TwelveColumnsFit | tools/md-to-pdf.py:45-47 | on the page at 174 mm with a 15 mm floor, up to twelve columns are always positive |
| ColWidthLimits.DonorBelowFloor | tools/md-to-pdf.py:355-365 | a table of twelve columns whose donor ends at 9 mm, below the floor |
| ColWidthLimits.NegativeWidth | tools/md-to-pdf.py:355-365 | a table of thirteen columns with a width of -6 mm |
| WindowFixer.FixWindow | tools/gui/fullscreen-x.py:121-136 | the calls one window gets, by what the server answers about it |
| WindowFixer.WatchLasts | tools/gui/fullscreen-x.py:119-138 | a whole watch looks 600 times and sleeps 1560 seconds |
| WindowFixer.NeedsFixingIff | tools/gui/fullscreen-x.py:124-129 | which windows are touched, in whole numbers: no override-redirect, viewable, at least three fifths of the screen both ways, and not exactly the screen |
| WindowFixer.Watch | tools/gui/fullscreen-x.py:114-138 | all 600 ticks against a server that may answer anything, and the run is orderly in the sense of `RunIsGood` |
| WindowFixer.RunIsGood | tools/gui/fullscreen-x.py:119-138 | every window is raised and focused at most once, straight after a resize of it, resized only straight after it was seen eligible and out of place, and always then; the first resize is always followed by both |
| WindowFixer.OnlyMainWindows | tools/gui/fullscreen-x.py:124-136 | what is raised or focused was just seen: no override-redirect, viewable, at least 60% of the screen both ways |
| WindowFixer.ResizedOnceIff | tools/gui/fullscreen-x.py:119-138 | a window is resized at most once iff no later look finds it out of place |
| WindowFixer.QuietScreen | tools/gui/fullscreen-x.py:119-138 | if nothing else moves a window, it is resized at most once |
| Assemble.Measure | paper/assemble.py:32-45 | the loop computes the tally of prose words and tables |
| Assemble.RowIff | paper/assemble.py:38 | a table's line is one whose first visible character is a pipe |
| Assemble.OneLineCounts | paper/assemble.py:38-44 | a row counts as a table and for no words, any other line for its words |
| Assemble.WordsAreCounted | paper/assemble.py:44 | however many words stand in a line and whatever whitespace is around them, that is the count |
| Assemble.TablesAreRuns | paper/assemble.py:32-45 | the table count is the number of runs of consecutive rows |
| Assemble.CountsAdd | paper/assemble.py:32-45 | word counts add over any two lists of lines; table counts too, less one when both sides meet inside a table |
| Assemble.MeasureAcross | paper/assemble.py:32-45 | the same for two texts joined by one line feed |
| Assemble.MeasureJoined | paper/assemble.py:73-75 | two texts joined by a blank line measure as the sum, for all texts and line breaks |
| Assemble.TotalsAreOfTheWhole | paper/assemble.py:59-75 | the section totals are the measure of the bodies joined by blank lines |
| Assemble.BodyHasNoNotes | paper/assemble.py:21-29 | no body contains the drafting-notes heading |
| Assemble.BodyIs | paper/assemble.py:21-29 | the body is, and nothing else is, the stripped text up to the drafting notes of what follows the first `---` line, if that comes within 400 characters, or of the whole section |
| Assemble.AssemblePaper | paper/assemble.py:59-75 | the loop of `main`: the header, the joined bodies in the sense of `BodyIs` and a line feed, and totals that are the counts of exactly the joined bodies |

## Left out

- Canvas.DrawText: text is ASCII. Upper-casing other text can change its length, while the width is taken before. The
  text must fit the canvas, as every text of the pictures is proved to.
- Canvas.Put: off the canvas the slice assignment would hit another row or grow the buffer; every call for a picture is
  proved to be on it.
- Canvas.FillBlock: only blocks on the canvas, for the same reason.
- Canvas.DrawGlyph: only glyphs on the canvas, for the same reason.
- Canvas.DrawDisc: only discs whose ink is on the canvas, for the same reason.
- Canvas.DrawRect: only rectangles on the canvas, for the same reason.
- Splash.BuildWatermark: ASCII texts, as for `Canvas.DrawText`.
- Splash.BuildImages: ASCII texts, as for `Canvas.DrawText`.
- BootChain.BuildAndPack: ASCII texts, as for `Canvas.DrawText`.
- BootChain.BuildPackRepack: the same; archives of 4 GiB and more, as for `RepackMain.RewrittenReadsBack`.
- InlineNesting.NestsIffSound: the reader knows the six emphasis and font tags and link tags of exactly the shape written,
  and refuses a `<` inside a quoted address, as section 3.1 of XML 1.0 does; that an asterisk in an address always breaks the
  tag rests on this rule, since in `[a](http://x*y*z)` both tags stand between the quotes. Other well-formedness rules of the
  markup, such as those for entities, are not modelled.
- InlineText.SoundShows: what is shown is stated before double hyphens become dashes, where they may also join across a tag
  that was taken out, and with its entities; `InlineText.PlainProseShows` resolves them for prose without brackets.
- BlockWriter.DocumentReads: paragraphs are written on one line, list entries on one line each, and a block's texts must not
  look like another block (`Writable`); what longer ones are read as is `BlockInk.BlocksAreFaithful`.
- LinkAddresses.LinksLead: texts whose markup does not nest, where tags are cut or broken.
- InlineLinks.WebLinkIs: words and addresses that nothing else in `inline` touches; `LinkAddresses.LinksLead` has the rest.
- HeadingScan.ScannersAgreeIff: where a fence line carries on a list or a table, the totals may or may not agree by
  coincidence; `HeadingScan.SameIffUnremarkable` is exact line by line there too. The table cells and `strip_md` are
  not modelled, the latter being an arbitrary function here.
- HeadingScan.ScannersAgree: the conditions read off the text are sufficient; `HeadingScan.ScannersAgreeIff` is exact.
- Stalling.TidyDivergesIff: an indented bare marker may carry on a list item, so whether it stalls the parser depends on the
  lines before it; `Stalling.DivergesIff` covers that case.
- RepackMain.RewrittenReadsBack: archives of 4 GiB and more, whose sizes no longer fit the header's fields.
- RepackMain.RepackSettles: the same.
- CpioReaders.ReadCpio: `int(x, 16)` is modelled on plain hexadecimal digits; Python also takes signs, underscores, `0x`
  and outer whitespace in a field, and a negative size can move a reader backwards.
- CpioReaders.ReadBack: fields as for `CpioReaders.ReadCpio`.
- CpioReaders.ReadersAgree: fields as for `CpioReaders.ReadCpio`.
- MdLines.BareMarkerShape: `\d` is modelled as the ASCII digits.
- ColWidths.ColumnWidths: real arithmetic; rounding of floating point is not modelled.
- WindowFixer.RunIsGood: the bound of 60% is taken over the reals; a dying connection and the X error handler are not
  modelled.
- Blocks.Parse: a loop that never ends is reported as being stuck at a line, since a method here must end.
- Compression, CRC-32 and inflation are parameters of the PNG model; the text of the theme files and of BGRT are
  parameters of the archives.
- The dictionary of frames and its sorting are one sorted list; an unpacked tree is a map from a path to the mode and data
  of its last entry.
- Reading and writing files, command lines and reports of all `main` functions; copying to the stick.
- Rendering blocks to PDF, page furniture, tables of contents, and the checks of `tools/verify-pdf.py` on the PDF itself.
- The web application, its database and the server under `tools/gui`: wiring, or code this model would have to invent.
