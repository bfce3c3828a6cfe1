/** What the COG code is for: a file authored from an image, opened and read
    again, shows that image at every level. */
module RoundTrip {
  import opened Wrappers
  import opened Globe
  import opened Grid
  import opened Raster
  import opened Chunks
  import opened Deflate
  import opened Author
  import opened PyramidBuild
  import opened Tiff
  import opened Pixels
  import opened CogFile
  import opened WindowReader
  import opened CogOpen
  import GeoKeys

  /** The levels of a COG of `img` and the tags that go with them. */
  ghost predicate Authored(levels: seq<LevelBuild>, meta: Meta, codec: Codec, kernel: Kernel, img: Image, ts: nat) {
    && Lossless(codec) && ShowsPyramid(levels, codec, kernel, img, ts)
    && img.w < 0x1_0000_0000 && img.h < 0x1_0000_0000 && ts < 0x1_0000_0000
    && img.c == meta.bands.ChannelCount()
    && (meta.bands == Palette ==> meta.colormap.Some? && |meta.colormap.value| == 768)
  }

  // ---- Sizes -------------------------------------------------------------

  lemma {:induction false} PyramidShrinks(kernel: Kernel, img: Image, n: nat)
    ensures Pyramid(kernel, img, n).w <= img.w && Pyramid(kernel, img, n).h <= img.h
    ensures Pyramid(kernel, img, n).c == img.c
  {
    if n > 0 { PyramidShrinks(kernel, img, n - 1); }
  }

  lemma AuthoredSizes(levels: seq<LevelBuild>, meta: Meta, codec: Codec, kernel: Kernel, img: Image, ts: nat)
    requires Authored(levels, meta, codec, kernel, img, ts)
    ensures AllSized(levels)
    ensures forall i: nat {:trigger levels[i]} :: i < |levels| - 1 ==> levels[i + 1].width == Half(levels[i].width)
  {
    hide Pyramid, TilesShow;
    forall i: nat | i < |levels| ensures Sized(levels[i]) { PyramidShrinks(kernel, img, i); }
    forall i: nat | i < |levels| - 1 ensures levels[i + 1].width == Half(levels[i].width) { NextWidth(kernel, img, i); }
  }

  lemma NextWidth(kernel: Kernel, img: Image, i: nat)
    ensures Pyramid(kernel, img, i + 1).w == Half(Pyramid(kernel, img, i).w)
  {
  }

  // ---- Tags found again --------------------------------------------------

  lemma {:induction false} FindAscending(fields: seq<Field>, k: nat)
    requires k < |fields|
    requires forall i: nat, j: nat :: i < j < |fields| ==> fields[i].id < fields[j].id
    ensures Find(fields, fields[k].id) == Some(fields[k])
  {
    if k < |fields| - 1 { FindAscending(fields[..|fields| - 1], k); }
  }

  /** An id that no tag has is not found. */
  lemma {:induction false} FindMissing(fields: seq<Field>, id: nat)
    requires forall i: nat :: i < |fields| ==> fields[i].id != id
    ensures Find(fields, id) == None
  {
    if fields != [] { FindMissing(fields[..|fields| - 1], id); }
  }

  lemma LookupTag(tags: seq<TagEntry>, k: nat)
    requires k < |tags|
    requires forall i: nat, j: nat :: i < j < |tags| ==> tags[i].id < tags[j].id
    ensures Find(FieldsOf(tags), tags[k].id) == Some(FieldOf(tags[k]))
    ensures !tags[k].value.Double? ==> Lookup(FieldsOf(tags), tags[k].id) == Some(tags[k].value.Items())
    ensures tags[k].value.Double? ==> Doubles(FieldsOf(tags), tags[k].id) == tags[k].value.bits
  {
    hide FieldsOf, Find;
    assert FieldsOf(tags)[k] == FieldOf(tags[k]);
    FindAscending(FieldsOf(tags), k);
  }

  /** Every tag the reader asks for, by its place in the list. */
  lemma TagPlaces(level: LevelBuild, meta: Meta, isMain: bool, offsets: seq<u32>, counts: seq<u32>)
    requires Sized(level)
    ensures var t, p := LevelTags(level, meta, isMain, offsets, counts), if meta.colormap.Some? then 1 else 0;
            && |t| >= 11 + p
            && t[0] == TagEntry(256, Long([level.width])) && t[1] == TagEntry(257, Long([level.height]))
            && t[2] == TagEntry(258, Short(seq(meta.bands.ChannelCount(), _ => 8))) && t[3] == TagEntry(259, Short([8]))
            && t[4] == TagEntry(262, Short([Photometric(meta.bands)])) && t[5] == TagEntry(277, Short([meta.bands.ChannelCount()]))
            && t[6] == TagEntry(284, Short([1])) && (p == 1 ==> t[7] == TagEntry(320, Short(meta.colormap.value)))
            && t[7 + p] == TagEntry(322, Long([level.tileSize])) && t[8 + p] == TagEntry(323, Long([level.tileSize]))
            && t[9 + p] == TagEntry(324, Long(offsets)) && t[10 + p] == TagEntry(325, Long(counts))
            && (isMain ==>
                  var q := if meta.bands == Rgba then 12 + p else 11 + p;
                  && |t| == q + 3 && t[q] == TagEntry(33550, Double(meta.pixelScale)) && t[q + 1] == TagEntry(33922, Double(meta.tiepoint))
                  && t[q + 2] == TagEntry(34735, Short(meta.geoDirectory)))
            && (if meta.bands == Rgba then |t| > 11 + p && t[11 + p] == TagEntry(338, Short([2])) else forall i: nat :: i < |t| ==> t[i].id != 338)
            && forall i: nat :: i < |t| ==> t[i].id != 42113
  {
  }

  lemma LongTag(tags: seq<TagEntry>, k: nat, id: u16, longs: seq<u32>)
    requires k < |tags| && tags[k] == TagEntry(id, Long(longs))
    requires forall i: nat, j: nat :: i < j < |tags| ==> tags[i].id < tags[j].id
    ensures Lookup(FieldsOf(tags), id) == Some(longs)
    ensures longs != [] ==> First(FieldsOf(tags), id) == Some(longs[0])
  {
    hide FieldsOf, Find;
    LookupTag(tags, k);
  }

  lemma ShortTag(tags: seq<TagEntry>, k: nat, id: u16, shorts: seq<u16>)
    requires k < |tags| && tags[k] == TagEntry(id, Short(shorts))
    requires forall i: nat, j: nat :: i < j < |tags| ==> tags[i].id < tags[j].id
    ensures Lookup(FieldsOf(tags), id) == Some(shorts)
    ensures shorts != [] ==> First(FieldsOf(tags), id) == Some(shorts[0])
  {
    hide FieldsOf, Find;
    LookupTag(tags, k);
  }

  /** What the reader learns about the image. */
  lemma ShapeFields(level: LevelBuild, meta: Meta, isMain: bool, offsets: seq<u32>, counts: seq<u32>)
    requires Sized(level)
    ensures var f := FieldsOf(LevelTags(level, meta, isMain, offsets, counts));
            && First(f, 256) == Some(level.width) && First(f, 257) == Some(level.height)
            && Lookup(f, 258) == Some(seq(meta.bands.ChannelCount(), _ => 8)) && First(f, 259) == Some(8)
            && First(f, 262) == Some(Photometric(meta.bands)) && First(f, 277) == Some(meta.bands.ChannelCount())
  {
    TagPlaces(level, meta, isMain, offsets, counts);
    TagsAscend(level, meta, isMain, offsets, counts);
    hide LevelTags, FieldsOf, FieldOf, Lookup, First, Photometric, Bands.ChannelCount;
    var t, c := LevelTags(level, meta, isMain, offsets, counts), meta.bands.ChannelCount();
    LongTag(t, 0, 256, [level.width]);
    LongTag(t, 1, 257, [level.height]);
    ShortTag(t, 2, 258, seq(c, _ => 8));
    ShortTag(t, 3, 259, [8]);
    ShortTag(t, 4, 262, [Photometric(meta.bands)]);
    ShortTag(t, 5, 277, [c]);
  }

  /** What other readers are told: samples of a pixel lie together, and the
      fourth one, if there is one, is unassociated alpha. */
  lemma LayoutFields(level: LevelBuild, meta: Meta, isMain: bool, offsets: seq<u32>, counts: seq<u32>)
    requires Sized(level)
    ensures var f := FieldsOf(LevelTags(level, meta, isMain, offsets, counts));
            First(f, 284) == Some(1) && First(f, 338) == if meta.bands == Rgba then Some(2) else None
  {
    TagPlaces(level, meta, isMain, offsets, counts);
    TagsAscend(level, meta, isMain, offsets, counts);
    hide LevelTags, FieldsOf, FieldOf, Lookup, First, Photometric, Bands.ChannelCount;
    var t, p := LevelTags(level, meta, isMain, offsets, counts), if meta.colormap.Some? then 1 else 0;
    ShortTag(t, 6, 284, [1]);
    if meta.bands == Rgba { ShortTag(t, 11 + p, 338, [2]); } else { NoTag(t, 338); }
  }

  lemma NoTag(tags: seq<TagEntry>, id: nat)
    requires forall i: nat :: i < |tags| ==> tags[i].id != id
    ensures First(FieldsOf(tags), id) == None
  {
    FindMissing(FieldsOf(tags), id);
  }

  /** What the reader learns about the tiles. */
  lemma TileFields(level: LevelBuild, meta: Meta, isMain: bool, offsets: seq<u32>, counts: seq<u32>)
    requires Sized(level)
    ensures var f := FieldsOf(LevelTags(level, meta, isMain, offsets, counts));
            && First(f, 322) == Some(level.tileSize) && First(f, 323) == Some(level.tileSize)
            && Lookup(f, 324) == Some(offsets) && Lookup(f, 325) == Some(counts)
            && (meta.colormap.Some? ==> Lookup(f, 320) == Some(meta.colormap.value))
  {
    TagPlaces(level, meta, isMain, offsets, counts);
    TagsAscend(level, meta, isMain, offsets, counts);
    hide LevelTags, FieldsOf, FieldOf, Lookup, First, Photometric, Bands.ChannelCount;
    var t, p := LevelTags(level, meta, isMain, offsets, counts), if meta.colormap.Some? then 1 else 0;
    if p == 1 { ShortTag(t, 7, 320, meta.colormap.value); }
    assert t[7 + p] == TagEntry(322, Long([level.tileSize])) && t[8 + p] == TagEntry(323, Long([level.tileSize]));
    assert t[9 + p] == TagEntry(324, Long(offsets)) && t[10 + p] == TagEntry(325, Long(counts));
    TileTags(t, 7 + p, level.tileSize, offsets, counts);
  }

  lemma TileTags(t: seq<TagEntry>, k: nat, ts: u32, offsets: seq<u32>, counts: seq<u32>)
    requires k + 3 < |t| && t[k] == TagEntry(322, Long([ts])) && t[k + 1] == TagEntry(323, Long([ts]))
    requires t[k + 2] == TagEntry(324, Long(offsets)) && t[k + 3] == TagEntry(325, Long(counts))
    requires forall i: nat, j: nat :: i < j < |t| ==> t[i].id < t[j].id
    ensures First(FieldsOf(t), 322) == Some(ts) && First(FieldsOf(t), 323) == Some(ts)
    ensures Lookup(FieldsOf(t), 324) == Some(offsets) && Lookup(FieldsOf(t), 325) == Some(counts)
  {
    hide FieldsOf, FieldOf, Lookup, First;
    LongTag(t, k, 322, [ts]);
    LongTag(t, k + 1, 323, [ts]);
    LongTag(t, k + 2, 324, offsets);
    LongTag(t, k + 3, 325, counts);
  }

  /** What the reader learns about the place of the main image; it declares no
      missing value. */
  lemma PlaceFields(level: LevelBuild, meta: Meta, offsets: seq<u32>, counts: seq<u32>)
    requires Sized(level)
    ensures var f := FieldsOf(LevelTags(level, meta, true, offsets, counts));
            && Doubles(f, 33550) == meta.pixelScale && Doubles(f, 33922) == meta.tiepoint
            && GeoDirectory(f) == meta.geoDirectory && NodataOf(f) == Some(Absent)
  {
    TagPlaces(level, meta, true, offsets, counts);
    TagsAscend(level, meta, true, offsets, counts);
    hide LevelTags, Lookup, Doubles, Find, FieldOf;
    var t, q := LevelTags(level, meta, true, offsets, counts), |LevelTags(level, meta, true, offsets, counts)| - 3;
    FindMissing(FieldsOf(t), 42113);
    hide FieldsOf;
    LookupTag(t, q);
    LookupTag(t, q + 1);
    LookupTag(t, q + 2);
  }

  // ---- Directories found again -------------------------------------------

  function AuthoredIfd(levels: seq<LevelBuild>, meta: Meta, i: nat): Ifd
    requires AllSized(levels) && i < |levels|
  {
    Ifd(FieldsOf(FinalTags(levels, meta, i)), if i + 1 < |levels| then IfdStart(levels, meta, i + 1) else 0)
  }

  function AuthoredIfds(levels: seq<LevelBuild>, meta: Meta, i: nat): seq<Ifd>
    requires AllSized(levels) && i <= |levels|
    decreases |levels| - i
  {
    if i == |levels| then [] else [AuthoredIfd(levels, meta, i)] + AuthoredIfds(levels, meta, i + 1)
  }

  lemma {:induction false} AuthoredIfdsAt(levels: seq<LevelBuild>, meta: Meta, i: nat, k: nat)
    requires AllSized(levels) && i <= k < |levels|
    ensures |AuthoredIfds(levels, meta, i)| == |levels| - i
    ensures AuthoredIfds(levels, meta, i)[k - i] == AuthoredIfd(levels, meta, k)
    decreases |levels| - i
  {
    hide AuthoredIfd;
    if i < k {
      AuthoredIfdsAt(levels, meta, i + 1, k);
    } else if i + 1 < |levels| {
      AuthoredIfdsAt(levels, meta, i + 1, i + 1);
    }
  }

  /** The chain from directory `i` on is the directories from `i` on. */
  lemma {:induction false} ChainFrom(levels: seq<LevelBuild>, meta: Meta, i: nat, seen: set<nat>)
    requires AllSized(levels) && i < |levels| && Addressable(levels, meta)
    requires forall at :: at in seen ==> at < IfdStart(levels, meta, i)
    ensures Chain(CogBytes(levels, meta), IfdStart(levels, meta, i), seen) == Some(AuthoredIfds(levels, meta, i))
    decreases |levels| - i
  {
    hide CogBytes, FinalTags, IfdPiece, Placed, ParseIfd, FieldsOf, IfdStart;
    var file, at := CogBytes(levels, meta), IfdStart(levels, meta, i);
    IfdIsRead(levels, meta, i);
    IfdInside(levels, meta, i);
    if i + 1 < |levels| {
      ChainFrom(levels, meta, i + 1, seen + {at});
    }
  }

  lemma {:induction false} IfdInside(levels: seq<LevelBuild>, meta: Meta, i: nat)
    requires AllSized(levels) && i < |levels|
    ensures 8 <= IfdStart(levels, meta, i) < IfdStart(levels, meta, i + 1)
    ensures IfdStart(levels, meta, i) < |CogBytes(levels, meta)|
  {
    hide CogBytes, LevelTags, Placed;
    IfdPlaced(levels, meta, i);
    PlannedSizeIsReal(levels, meta, i);
    PlacedInside(CogBytes(levels, meta), IfdStart(levels, meta, i), IfdPiece(levels, meta, i));
    if i > 0 { IfdInside(levels, meta, i - 1); }
  }

  /** Following the header and the links recovers every level's tag list. */
  lemma DirectoriesReadBack(levels: seq<LevelBuild>, meta: Meta)
    requires AllSized(levels) && Addressable(levels, meta)
    ensures Directories(CogBytes(levels, meta)) == Some(AuthoredIfds(levels, meta, 0))
  {
    var file := CogBytes(levels, meta);
    HeaderReadsBack(levels, meta);
    hide CogBytes, ParseIfd, Chain, AuthoredIfds, MainIfd;
    ChainFrom(levels, meta, 0, {});
  }

  lemma HeaderReadsBack(levels: seq<LevelBuild>, meta: Meta)
    requires AllSized(levels)
    ensures MainIfd(CogBytes(levels, meta)) == Some(8)
  {
    FileRegions(levels, meta);
    hide CogBytes, MainIfd;
    HeaderIsRead(CogBytes(levels, meta));
  }

  lemma HeaderIsRead(file: seq<byte>)
    requires Placed(file, 0, Header(8))
    ensures MainIfd(file) == Some(8)
  {
    Powers();
    hide Placed, ToLe, ReadLe, Pow256;
    PlacedInside(file, 0, Header(8));
    PlacedParts(file, 0, [0x49, 0x49] + ToLe(42, 2), ToLe(8, 4));
    PlacedParts(file, 0, [0x49, 0x49], ToLe(42, 2));
    PlacedFirst(file, [0x49, 0x49]);
    LeRoundTrip(file, 2, 42, 2);
    LeRoundTrip(file, 4, 8, 4);
  }

  lemma PlacedFirst(file: seq<byte>, mark: seq<byte>)
    requires |mark| == 2 && Placed(file, 0, mark)
    ensures |file| >= 2 && file[0] == mark[0] && file[1] == mark[1]
  {
    assert file[0 + 0] == mark[0] && file[0 + 1] == mark[1];
  }

  // ---- Levels found again ------------------------------------------------

  function AuthoredLevel(levels: seq<LevelBuild>, i: nat): Level
    requires i < |levels|
  {
    Level(i, levels[i].width, levels[i].height, levels[i].tileSize, levels[i].tileSize)
  }

  lemma BandsReadBack(fields: seq<Field>, bands: Bands)
    requires First(fields, 262) == Some(Photometric(bands)) && First(fields, 277) == Some(bands.ChannelCount())
    requires Lookup(fields, 258) == Some(seq(bands.ChannelCount(), _ => 8))
    ensures BandsOf(fields) == Some(bands)
  {
    hide Lookup;
  }

  lemma LevelReadsBack(levels: seq<LevelBuild>, meta: Meta, i: nat)
    requires AllSized(levels) && i < |levels|
    requires TilingOf(AuthoredLevel(levels, i), meta.bands).Valid()
    ensures LevelOf(AuthoredIfd(levels, meta, i), i) == Some((AuthoredLevel(levels, i), meta.bands))
    ensures meta.colormap.Some? ==> Lookup(AuthoredIfd(levels, meta, i).fields, 320) == Some(meta.colormap.value)
  {
    ShapeFields(levels[i], meta, i == 0, RecordedOffsets(levels, meta, i), RecordedCounts(levels[i]));
    TileFields(levels[i], meta, i == 0, RecordedOffsets(levels, meta, i), RecordedCounts(levels[i]));
    hide LevelTags, FieldsOf, Lookup, BandsOf;
    BandsReadBack(AuthoredIfd(levels, meta, i).fields, meta.bands);
  }

  ghost predicate OnTheGlobe(meta: Meta) { GeoKeys.Georeferenced(meta.pixelScale, meta.tiepoint, meta.geoDirectory) }

  /** Every directory of an authored file passes the checks of opening, and the
      first one says what the others do not. */
  lemma AuthoredIsSupported(levels: seq<LevelBuild>, meta: Meta, codec: Codec, kernel: Kernel, img: Image, ts: nat)
    requires Authored(levels, meta, codec, kernel, img, ts) && AllSized(levels)
    ensures var ifds := AuthoredIfds(levels, meta, 0);
            && |ifds| == |levels| > 0
            && (forall i: nat :: i < |ifds| ==> Supported(ifds[i], i, meta.bands) && LevelOf(ifds[i], i).value.0 == AuthoredLevel(levels, i))
            && ColormapFits(ifds[0], meta.bands) && NodataOf(ifds[0].fields) == Some(Absent)
            && Doubles(ifds[0].fields, 33550) == meta.pixelScale && Doubles(ifds[0].fields, 33922) == meta.tiepoint
            && GeoDirectory(ifds[0].fields) == meta.geoDirectory
  {
    hide LevelOf, Lookup, AuthoredIfd, AuthoredIfds, NodataOf, Doubles, GeoDirectory, FinalTags;
    var ifds := AuthoredIfds(levels, meta, 0);
    forall i: nat | i < |levels|
      ensures |ifds| == |levels| && ifds[i] == AuthoredIfd(levels, meta, i)
      ensures LevelOf(ifds[i], i) == Some((AuthoredLevel(levels, i), meta.bands))
    {
      AuthoredIfdsAt(levels, meta, 0, i);
      ValidLevel(levels, meta, codec, kernel, img, ts, i);
      LevelReadsBack(levels, meta, i);
    }
    ValidLevel(levels, meta, codec, kernel, img, ts, 0);
    LevelReadsBack(levels, meta, 0);
    MainFields(levels, meta);
  }

  lemma MainFields(levels: seq<LevelBuild>, meta: Meta)
    requires AllSized(levels) && |levels| > 0
    ensures var f := AuthoredIfd(levels, meta, 0).fields;
            && Doubles(f, 33550) == meta.pixelScale && Doubles(f, 33922) == meta.tiepoint
            && GeoDirectory(f) == meta.geoDirectory && NodataOf(f) == Some(Absent)
  {
    hide LevelTags, FieldsOf, Doubles, GeoDirectory, NodataOf;
    PlaceFields(levels[0], meta, RecordedOffsets(levels, meta, 0), RecordedCounts(levels[0]));
  }

  /** The levels an authored file opens with, in order already. */
  lemma {:induction false} AuthoredOrder(levels: seq<LevelBuild>, meta: Meta, codec: Codec, kernel: Kernel, img: Image, ts: nat, found: seq<Level>)
    requires Authored(levels, meta, codec, kernel, img, ts) && AllSized(levels)
    requires |found| == |levels| && forall i: nat :: i < |found| ==> found[i] == AuthoredLevel(levels, i)
    ensures SortDesc(found) == found
  {
    hide SortDesc, Pyramid, TilesShow;
    AuthoredSizes(levels, meta, codec, kernel, img, ts);
    WidthsDescend(levels, found);
    SortDescKeepsOrder(found);
  }

  function AuthoredLevels(levels: seq<LevelBuild>): (found: seq<Level>)
    ensures |found| == |levels| && forall i: nat :: i < |levels| ==> found[i] == AuthoredLevel(levels, i)
  {
    seq(|levels|, (i: nat) requires i < |levels| => AuthoredLevel(levels, i))
  }

  /** Where the tags place the image. */
  function PlaceOf(meta: Meta, levels: seq<LevelBuild>): Option<Georef>
    requires OnTheGlobe(meta) && |levels| > 0
  {
    GeorefOf(GeoKeys.TransformOf(meta.pixelScale, meta.tiepoint), AuthoredLevel(levels, 0))
  }

  /** An addressable authored file can be opened exactly on the globe; opening
      then finds its bands, every level in order, and the place of its tags. */
  lemma AuthoredOpens(levels: seq<LevelBuild>, meta: Meta, codec: Codec, kernel: Kernel, img: Image, ts: nat)
    requires Authored(levels, meta, codec, kernel, img, ts) && AllSized(levels) && Addressable(levels, meta)
    ensures var file := CogBytes(levels, meta);
            && (Openable(file) <==> OnTheGlobe(meta))
            && (Openable(file) ==> Opened(file) == CogMeta(meta.bands, AuthoredLevels(levels), Absent, PlaceOf(meta, levels)))
  {
    hide CogBytes, Directories, LevelOf, Authored, AllSized, Addressable, SortDesc, AuthoredIfds, ColormapFits, NodataOf, Doubles, GeoDirectory, GeoKeys.TransformOf;
    DirectoriesReadBack(levels, meta);
    AuthoredIsSupported(levels, meta, codec, kernel, img, ts);
    AuthoredOrder(levels, meta, codec, kernel, img, ts, AuthoredLevels(levels));
    if OnTheGlobe(meta) {
      assert LevelsOf(AuthoredIfds(levels, meta, 0), meta.bands) == AuthoredLevels(levels);
    }
  }

  /** Opening it: succeeds exactly on the globe, and finds all of that. */
  method OpenAuthored(file: seq<byte>, ghost levels: seq<LevelBuild>, ghost meta: Meta, ghost codec: Codec,
                      ghost kernel: Kernel, ghost img: Image, ghost ts: nat)
    returns (r: Result<CogMeta, OpenError>)
    requires Authored(levels, meta, codec, kernel, img, ts)
    requires AllSized(levels) && file == CogBytes(levels, meta) && Addressable(levels, meta)
    ensures |levels| > 0
    ensures r.Ok? <==> OnTheGlobe(meta)
    ensures r.Ok? ==> r.value == CogMeta(meta.bands, AuthoredLevels(levels), Absent, PlaceOf(meta, levels))
  {
    hide CogBytes, Openable, Opened, AllSized, Addressable, OnTheGlobe;
    AuthoredOpens(levels, meta, codec, kernel, img, ts);
    r := Open(file);
  }

  lemma ValidLevel(levels: seq<LevelBuild>, meta: Meta, codec: Codec, kernel: Kernel, img: Image, ts: nat, i: nat)
    requires Authored(levels, meta, codec, kernel, img, ts) && i < |levels|
    ensures TilingOf(AuthoredLevel(levels, i), meta.bands).Valid()
    ensures TilingOf(AuthoredLevel(levels, i), meta.bands).Fits(Pyramid(kernel, img, i))
  {
    hide Pyramid, TilesShow;
    PyramidShrinks(kernel, img, i);
  }

  lemma WidthsDescend(levels: seq<LevelBuild>, found: seq<Level>)
    requires |found| == |levels| && forall i: nat {:trigger levels[i]} :: i < |levels| ==> found[i].width == levels[i].width
    requires forall i: nat {:trigger levels[i]} :: i < |levels| - 1 ==> levels[i + 1].width == Half(levels[i].width)
    ensures Descending(found)
  {
    forall i: nat, j: nat | i <= j < |found| ensures found[i].width >= found[j].width { WidthDescends(levels, i, j); }
  }

  lemma {:induction false} WidthDescends(levels: seq<LevelBuild>, i: nat, j: nat)
    requires forall i: nat {:trigger levels[i]} :: i < |levels| - 1 ==> levels[i + 1].width == Half(levels[i].width)
    requires i <= j < |levels|
    ensures levels[i].width >= levels[j].width
  {
    if i < j {
      WidthDescends(levels, i, j - 1);
      assert levels[j - 1 + 1].width == Half(levels[j - 1].width);
    }
  }

  // ---- Chunks found again ------------------------------------------------

  lemma {:induction false} CutRows(chunk: seq<byte>, stride: nat, run: nat, rows: nat)
    requires run <= stride && Mul(rows, stride) <= |chunk|
    ensures |Cut(chunk, stride, run, rows)| == Mul(rows, run)
    ensures forall y: nat, x: nat {:trigger Cell(Cut(chunk, stride, run, rows), run, y, x)} :: y < rows && x < run ==>
              Cell(Cut(chunk, stride, run, rows), run, y, x) == Cell(chunk, stride, y, x)
  {
    hide Mul;
    MulStep(0, run);
    if rows > 0 {
      MulStep(rows - 1, stride);
      MulStep(rows - 1, run);
      CutRows(chunk, stride, run, rows - 1);
      OffInside(run, rows - 1);
      OffInside(stride, rows);
      var cut, front := Cut(chunk, stride, run, rows), Cut(chunk, stride, run, rows - 1);
      forall y: nat, x: nat | y < rows && x < run ensures Cell(cut, run, y, x) == Cell(chunk, stride, y, x) {
        if y < rows - 1 { assert Cell(front, run, y, x) == Cell(chunk, stride, y, x); }
      }
    }
  }

  /** A padded tile of the image is a chunk of the image, padded or cut. */
  lemma TileIsChunk(t: Tiling, tile: seq<byte>, img: Image, cx: nat, cy: nat)
    requires t.Valid() && t.Fits(img) && t.chunkW == t.chunkH && cx < t.Across() && cy < t.Down()
    requires TileShows(tile, img, t.chunkW, cy, cx)
    ensures |tile| == t.PaddedLen() && t.Shows(tile, img, cx, cy)
    ensures Mul(t.DataW(cx), t.channels) <= Mul(t.chunkW, t.channels) && Mul(t.DataH(cy), Mul(t.chunkW, t.channels)) <= |tile|
    ensures var cut := Cut(tile, Mul(t.chunkW, t.channels), Mul(t.DataW(cx), t.channels), t.DataH(cy));
            |cut| == t.UnpaddedLen(cx, cy) && t.Shows(cut, img, cx, cy)
  {
    hide Mul, Div, Mod, Cell, Cut;
    var tn, run := Mul(t.chunkW, t.channels), Mul(t.DataW(cx), t.channels);
    CutFits(t, cx, cy);
    PaddedTile(t, tile, img, cx, cy);
    CutRows(tile, tn, run, t.DataH(cy));
    MulLaws(t.DataW(cx), t.DataH(cy), t.channels);
    PixelOffset(t.DataW(cx), t.channels, t.DataH(cy), 0);
  }

  lemma PaddedTile(t: Tiling, tile: seq<byte>, img: Image, cx: nat, cy: nat)
    requires t.Valid() && t.Fits(img) && t.chunkW == t.chunkH && cx < t.Across() && cy < t.Down()
    requires TileShows(tile, img, t.chunkW, cy, cx)
    ensures |tile| == t.PaddedLen() && t.Holds(tile, img, cx, cy, t.chunkW)
  {
    hide Mul, Div, Mod, Cell;
    CeilDivBlocks(t.width, t.chunkW, cx);
    CeilDivBlocks(t.height, t.chunkH, cy);
    MulLaws(t.chunkW, t.chunkH, t.channels);
    PixelOffset(t.chunkW, t.channels, t.chunkH, 0);
    TileColumns(t.width, t.chunkW, t.channels, cx);
  }

  lemma SliceOfPlaced(file: seq<byte>, at: nat, piece: seq<byte>)
    requires Placed(file, at, piece)
    ensures at + |piece| <= |file| && file[at..at + |piece|] == piece
  {
    assert forall i: nat {:trigger piece[i]} :: i < |piece| ==> file[at..at + |piece|][i] == piece[i];
  }

  /** The entry of a tile is what was recorded for it. */
  lemma EntryReadsBack(levels: seq<LevelBuild>, meta: Meta, k: nat, index: nat)
    requires AllSized(levels) && k < |levels| && index < |levels[k].tiles|
    ensures ChunkEntry(AuthoredIfd(levels, meta, k).fields, index)
         == Some((RecordedOffsets(levels, meta, k)[index] as nat, RecordedCounts(levels[k])[index] as nat, 8))
  {
    var offsets, counts := RecordedOffsets(levels, meta, k), RecordedCounts(levels[k]);
    ShapeFields(levels[k], meta, k == 0, offsets, counts);
    TileFields(levels[k], meta, k == 0, offsets, counts);
    hide LevelTags, FieldsOf, Lookup, RecordedOffsets, RecordedCounts;
  }

  /** The entry of a tile leads to the tile. */
  lemma TileReadsBack(levels: seq<LevelBuild>, meta: Meta, tf: TiledFile, k: nat, index: nat)
    requires AllSized(levels) && k < |levels| && index < |levels[k].tiles|
    requires tf.file == CogBytes(levels, meta) && Addressable(levels, meta)
    ensures var entry := ChunkEntry(AuthoredIfd(levels, meta, k).fields, index);
            && entry.Some? && entry.value.1 == |levels[k].tiles[index]| && entry.value.2 == 8
            && Decoded(tf, entry.value.0, entry.value.1, entry.value.2) == tf.codec.inflate(levels[k].tiles[index])
  {
    hide CogBytes, AuthoredIfd, ChunkEntry, Placed, RecordedOffsets, RecordedCounts, TileStart;
    EntryReadsBack(levels, meta, k, index);
    RecordsAreExact(levels, meta, k, index);
    SliceOfPlaced(tf.file, TileStart(levels, meta, k, index), levels[k].tiles[index]);
  }

  /** Every chunk of an authored level is found and shows the level's image,
      whether the decoding library keeps or cuts its padding. */
  lemma ChunkReadsBack(levels: seq<LevelBuild>, meta: Meta, kernel: Kernel, img: Image, ts: nat, tf: TiledFile, k: nat, cx: nat, cy: nat)
    requires Authored(levels, meta, tf.codec, kernel, img, ts) && AllSized(levels) && k < |levels|
    requires tf.file == CogBytes(levels, meta) && Addressable(levels, meta)
    requires TilingOf(AuthoredLevel(levels, k), meta.bands).Valid()
    requires cx < TilingOf(AuthoredLevel(levels, k), meta.bands).Across() && cy < TilingOf(AuthoredLevel(levels, k), meta.bands).Down()
    ensures var t, fields := TilingOf(AuthoredLevel(levels, k), meta.bands), AuthoredIfd(levels, meta, k).fields;
            && !Unreadable(tf, fields, t, meta.bands, cx, cy)
            && t.Fits(Pyramid(kernel, img, k))
            && t.Shows(Fetched(tf, fields, t, meta.bands, cx, cy).value, Pyramid(kernel, img, k), cx, cy)
  {
    hide Mul, Div, Mod, CogBytes, Pyramid, AuthoredIfd, ChunkEntry, Decoded, TileShows, Cut, Tiling.Shows;
    ValidLevel(levels, meta, tf.codec, kernel, img, ts, k);
    var t, level := TilingOf(AuthoredLevel(levels, k), meta.bands), Pyramid(kernel, img, k);
    OffInside(t.Across(), t.Down());
    var index := Off(t.Across(), cy, cx);
    var stored := levels[k].tiles[index];
    assert StoredTile(tf.codec, stored, level, ts, cy, cx);
    var tile := tf.codec.inflate(stored).value;
    TileReadsBack(levels, meta, tf, k, index);
    TileIsChunk(t, tile, level, cx, cy);
  }

  // ---- The theorem -------------------------------------------------------

  lemma AllChunksShow(levels: seq<LevelBuild>, meta: Meta, kernel: Kernel, img: Image, ts: nat, tf: TiledFile, k: nat, win: PixelWindow)
    requires Authored(levels, meta, tf.codec, kernel, img, ts) && AllSized(levels) && k < |levels|
    requires tf.file == CogBytes(levels, meta) && Addressable(levels, meta)
    requires TilingOf(AuthoredLevel(levels, k), meta.bands).Valid() && win.Inside(levels[k].width, levels[k].height)
    ensures var t, fields := TilingOf(AuthoredLevel(levels, k), meta.bands), AuthoredIfd(levels, meta, k).fields;
            && ChunksShow(tf, fields, t, meta.bands, win, Pyramid(kernel, img, k))
            && forall cx: nat, cy: nat :: Touches(t, win, cx, cy) ==> !Unreadable(tf, fields, t, meta.bands, cx, cy)
  {
    hide Mul, Div, Mod, CogBytes, Pyramid, AuthoredIfd, Authored, Touches, Fetched, CeilDiv, Tiling.Shows;
    var t, fields := TilingOf(AuthoredLevel(levels, k), meta.bands), AuthoredIfd(levels, meta, k).fields;
    ValidLevel(levels, meta, tf.codec, kernel, img, ts, k);
    forall cx: nat, cy: nat | cx < t.Across() && cy < t.Down()
      ensures !Unreadable(tf, fields, t, meta.bands, cx, cy)
      ensures t.Shows(Fetched(tf, fields, t, meta.bands, cx, cy).value, Pyramid(kernel, img, k), cx, cy)
    {
      ChunkReadsBack(levels, meta, kernel, img, ts, tf, k, cx, cy);
    }
    forall cx: nat, cy: nat | Touches(t, win, cx, cy) ensures !Unreadable(tf, fields, t, meta.bands, cx, cy) {
      TouchedChunk(t, win, cx, cy);
    }
  }

  // ---- Authoring ---------------------------------------------------------

  datatype InputError = MoreImages | NoPhotometric | StripedPalette | OtherBands | OtherCompression | OtherColormap | OffTheGlobe

  datatype Failure = Rejected(why: InputError) | Authoring(a: AuthorError) | Encoding(e: EncodeError)

  /** A plain GeoTIFF to author from: its first directory, and its chunks as
      they decode. */
  datatype Input = Input(ifd: Ifd, src: Source) {
    /** The chunks are those the directory describes. */
    ghost predicate Valid() {
      && src.Valid() && First(ifd.fields, 256) == Some(src.t.width) && First(ifd.fields, 257) == Some(src.t.height)
      && (BandsOf(ifd.fields).Some? ==> src.t.channels == BandsOf(ifd.fields).value.ChannelCount())
    }

    predicate Paletted() { First(ifd.fields, 262) == Some(3) }

    predicate Tiled() { First(ifd.fields, 322).Some? && First(ifd.fields, 323).Some? }

    /** The refusals by name, all before anything is written. */
    predicate Refused(ts: nat, mode: ResampleMode) {
      || ts == 0 || ifd.next != 0 || BandsOf(ifd.fields).None?
      || First(ifd.fields, 259) !in {Some(1), Some(8)}
      || (Paletted() && (mode == BoxAverage || !Tiled() || ColormapOf(ifd.fields).None?))
      || !Georeferenced(ifd.fields)
    }
  }

  /** A colour table of 256 entries of 16 bits in three planes. */
  function ColormapOf(fields: seq<Field>): Option<seq<u16>> {
    var table := Lookup(fields, 320);
    if table.Some? && |table.value| == 768 && forall i :: 0 <= i < 768 ==> table.value[i] < 0x1_0000 then Some(table.value) else None
  }

  /** What is carried over from the input's tags. */
  function MetaOf(fields: seq<Field>): Meta
    requires BandsOf(fields).Some?
  {
    var bands := BandsOf(fields).value;
    Meta(bands, Doubles(fields, 33550), Doubles(fields, 33922), GeoKeys.Narrowed(GeoDirectory(fields)),
         if bands == Palette then ColormapOf(fields) else None)
  }

  lemma PaletteIs(fields: seq<Field>)
    requires BandsOf(fields).Some?
    ensures BandsOf(fields) == Some(Palette) <==> First(fields, 262) == Some(3)
    ensures First(fields, 262).Some?
  {
  }

  /** The checks on the input's tags, in the order in which they are made. */
  method CheckInput(input: Input, ts: nat, mode: ResampleMode) returns (r: Result<Meta, Failure>)
    ensures r.Err? <==> input.Refused(ts, mode)
    ensures var fields, paletted := input.ifd.fields, First(input.ifd.fields, 262) == Some(3);
            r.Ok? <==>
              && ts > 0 && input.ifd.next == 0 && BandsOf(fields).Some? && Georeferenced(fields)
              && (First(fields, 259) == Some(1) || First(fields, 259) == Some(8))
              && (paletted ==> mode != BoxAverage && First(fields, 322).Some? && First(fields, 323).Some? && ColormapOf(fields).Some?)
    ensures r.Ok? ==> BandsOf(input.ifd.fields).Some? && r.value == MetaOf(input.ifd.fields)
  {
    hide Lookup, BandsOf, Georeferenced, Doubles, GeoDirectory;
    var fields := input.ifd.fields;
    if ts == 0 {
      return Err(Authoring(ZeroTileSize));
    }
    if input.ifd.next != 0 {
      return Err(Rejected(MoreImages));
    }
    var bands := BandsOf(fields);
    if bands.Some? { PaletteIs(fields); }
    if First(fields, 262).None? {
      return Err(Rejected(NoPhotometric));
    }
    var paletted := input.Paletted();
    if ChooseKernel(mode, paletted).None? {
      return Err(Authoring(AveragedPalette));
    }
    if paletted && !input.Tiled() {
      return Err(Rejected(StripedPalette));
    }
    if bands.None? {
      return Err(Rejected(OtherBands));
    }
    if First(fields, 259) !in {Some(1), Some(8)} {
      return Err(Rejected(OtherCompression));
    }
    var colormap := if paletted then ColormapOf(fields) else None;
    if paletted && colormap.None? {
      return Err(Rejected(OtherColormap));
    }
    var placed := CheckGeoreference(fields);
    if placed.Err? {
      return Err(Rejected(OffTheGlobe));
    }
    return Ok(Meta(bands.value, Doubles(fields, 33550), Doubles(fields, 33922), GeoKeys.Narrowed(GeoDirectory(fields)), colormap));
  }

  /** The tiles are those of overview `k` of `img`. */
  ghost predicate ShowsOverview(level: LevelBuild, codec: Codec, img: Image, k: nat, unblended: bool) {
    exists overview :: IsLevel(img, k, overview, unblended) && LevelShows(level, codec, overview)
  }

  /** Authoring: fails exactly on a refused input, a source chunk of no known
      length or a tile of 4 GiB; otherwise the file is the layout of the
      pyramid of `img` under the input's own tags. A palette is never blended,
      nor is anything else if that was asked for. */
  method AuthorCog(codec: Codec, input: Input, ts: nat, mode: ResampleMode, ghost img: Image)
    returns (r: Result<seq<byte>, Failure>, levels: seq<LevelBuild>)
    requires Lossless(codec) && input.Valid() && input.src.Shows(img)
    requires img.w < 0x1_0000_0000 && img.h < 0x1_0000_0000 && ts < 0x1_0000_0000
    ensures r.Err? <==> NotBuilt(input, ts, mode) || TilesTooLong(levels)
    ensures !NotBuilt(input, ts, mode) ==>
      && Authored(levels, MetaOf(input.ifd.fields), codec, if input.Paletted() || mode == NearestNeighbor then Nearest else Average, img, ts)
      && AllSized(levels)
      && forall k: nat :: k < |levels| ==> ShowsOverview(levels[k], codec, img, k, input.Paletted() || mode == NearestNeighbor)
    ensures r.Ok? ==> r.value == CogBytes(levels, MetaOf(input.ifd.fields))
  {
    hide CogBytes, BadRows, Lookup, BandsOf, Georeferenced, Pyramid, TilesShow, MetaOf, Input.Refused;
    levels := [];
    var checked := CheckInput(input, ts, mode);
    if checked.Err? {
      return Err(checked.error), levels;
    }
    var meta := checked.value;
    Accepted(input, ts, mode);
    var built := BuildLevels(codec, input.src, ts, mode, input.Paletted(), img);
    if built.Err? {
      return Err(Authoring(built.error)), levels;
    }
    levels := built.value;
    ghost var kernel := if input.Paletted() || mode == NearestNeighbor then Nearest else Average;
    AuthoredSizes(levels, meta, codec, kernel, img, ts);
    forall k: nat | k < |levels| ensures ShowsOverview(levels[k], codec, img, k, kernel == Nearest) {
      PyramidIsLevel(kernel, img, k);
    }
    var written := WriteCog(levels, meta);
    r := if written.Ok? then Ok(written.value.0) else Err(Encoding(written.error));
  }

  /** No levels come out: the input is refused or one of its chunks has no
      known length. */
  ghost predicate NotBuilt(input: Input, ts: nat, mode: ResampleMode)
    requires input.src.Valid()
  {
    input.Refused(ts, mode) || BadRows(input.src, 0, input.src.t.height)
  }

  ghost predicate TilesTooLong(levels: seq<LevelBuild>) {
    exists i: nat, j: nat :: LongTile(levels, i, j)
  }

  /** What an accepted input gives to the levels and the tags. */
  lemma Accepted(input: Input, ts: nat, mode: ResampleMode)
    requires !input.Refused(ts, mode)
    ensures ts > 0 && !(input.Paletted() && mode == BoxAverage) && BandsOf(input.ifd.fields).Some?
    ensures var meta := MetaOf(input.ifd.fields);
            && (meta.bands == Palette <==> input.Paletted()) && Some(meta.bands) == BandsOf(input.ifd.fields)
            && (meta.bands == Palette ==> meta.colormap.Some? && |meta.colormap.value| == 768)
  {
    hide Lookup, Georeferenced, Doubles, GeoDirectory;
    PaletteIs(input.ifd.fields);
  }

  /** What an authored level lets a reader find. */
  lemma AuthoredIsReadable(levels: seq<LevelBuild>, meta: Meta, kernel: Kernel, img: Image, ts: nat, tf: TiledFile, k: nat, win: PixelWindow)
    requires Authored(levels, meta, tf.codec, kernel, img, ts) && AllSized(levels) && k < |levels|
    requires tf.file == CogBytes(levels, meta) && Addressable(levels, meta)
    requires TilingOf(AuthoredLevel(levels, k), meta.bands).Valid() && win.Inside(levels[k].width, levels[k].height)
    ensures Readable(tf, AuthoredLevel(levels, k), meta.bands, win)
    ensures Carries(tf, AuthoredLevel(levels, k), meta.bands, win, Pyramid(kernel, img, k))
  {
    hide CogBytes, Pyramid, Authored, Addressable, Touches, Fetched, ChunksShow, Unreadable, Reach, MainIfd, FieldsOf, LevelTags, Lookup;
    LinkTo(levels, meta, k);
    ShapeFields(levels[k], meta, k == 0, RecordedOffsets(levels, meta, k), RecordedCounts(levels[k]));
    ValidLevel(levels, meta, tf.codec, kernel, img, ts, k);
    AllChunksShow(levels, meta, kernel, img, ts, tf, k, win);
  }

  /** Author, open, read: any window of any level of an addressable authored
      file is the crop of the image halved that many times, widened. */
  method ReadAuthored(tf: TiledFile, k: nat, style: Style, win: PixelWindow,
                      ghost levels: seq<LevelBuild>, ghost meta: Meta, ghost kernel: Kernel, ghost img: Image, ghost ts: nat)
    returns (r: Result<seq<byte>, ReadError>)
    requires Authored(levels, meta, tf.codec, kernel, img, ts) && AllSized(levels)
    requires tf.file == CogBytes(levels, meta) && Addressable(levels, meta) && OnTheGlobe(meta)
    requires k < |levels| && style.bands == meta.bands
    requires win.Inside(CeilDiv(img.w, Pow2(k)), CeilDiv(img.h, Pow2(k)))
    ensures Pyramid(kernel, img, k).c == style.bands.ChannelCount()
    ensures r.Ok? && RowsOf(r.value, Shown(Pyramid(kernel, img, k), style, win), 0, win.y1 - win.y0)
  {
    hide CogBytes, Pyramid, Authored, Addressable, OnTheGlobe, Readable, Carries, RowsOf, Shown, CeilDiv;
    PyramidSize(kernel, img, k);
    ValidLevel(levels, meta, tf.codec, kernel, img, ts, k);
    var cog := OpenAuthored(tf.file, levels, meta, tf.codec, kernel, img, ts);
    AuthoredIsReadable(levels, meta, kernel, img, ts, tf, k, win);
    r := ReadLevelWindow(tf, cog.value.levels[k], style, win, Pyramid(kernel, img, k));
  }

  datatype Refusal = NotAuthored(why: Failure) | TooLarge | KeysLost | NoSuchLevel

  /** The copied directory still places the file: its count is kept modulo
      2^16, so only so many of its keys still speak. */
  predicate KeysSurvive(fields: seq<Field>)
    requires Georeferenced(fields)
  {
    var d := GeoDirectory(fields);
    GeoKeys.CrsOfKeys(d, d[3] % 0x1_0000) == Some(GeoKeys.Crs(4326, true))
  }

  lemma KeysSurviveIff(fields: seq<Field>)
    requires Georeferenced(fields) && BandsOf(fields).Some?
    ensures OnTheGlobe(MetaOf(fields)) <==> KeysSurvive(fields)
    ensures GeoDirectory(fields)[3] < 0x1_0000 ==> KeysSurvive(fields)
  {
    hide Lookup, BandsOf, Doubles, GeoDirectory;
    GeoKeys.NarrowedDeclares(GeoDirectory(fields));
  }

  /** The pixels are those of overview `k` of `img` in the window. */
  ghost predicate ReadsOverview(pixels: seq<byte>, img: Image, k: nat, unblended: bool, style: Style, win: PixelWindow)
    requires win.x0 <= win.x1 && win.y0 <= win.y1
  {
    exists overview: Image ::
      && IsLevel(img, k, overview, unblended) && overview.c == style.bands.ChannelCount()
      && RowsOf(pixels, Shown(overview, style, win), 0, win.y1 - win.y0)
  }

  lemma PyramidIsRead(pixels: seq<byte>, kernel: Kernel, img: Image, k: nat, style: Style, win: PixelWindow)
    requires win.x0 <= win.x1 && win.y0 <= win.y1 && Pyramid(kernel, img, k).c == style.bands.ChannelCount()
    requires RowsOf(pixels, Shown(Pyramid(kernel, img, k), style, win), 0, win.y1 - win.y0)
    ensures ReadsOverview(pixels, img, k, kernel == Nearest, style, win)
  {
    hide Pyramid, RowsOf, Shown, IsLevel;
    PyramidIsLevel(kernel, img, k);
  }

  /** From a plain source raster to the pixels of any window of any level: the
      whole way. It is refused exactly if authoring is, if the last tile of the
      file starts at 4 GiB or later, if copying the key directory cuts off what
      places the file, or if the level before already fits one tile. */
  method AuthorThenRead(codec: Codec, crop: nat -> bool, input: Input, ts: nat, mode: ResampleMode,
                        k: nat, style: Style, win: PixelWindow, ghost img: Image)
    returns (r: Result<seq<byte>, Refusal>, levels: seq<LevelBuild>)
    requires Lossless(codec) && input.Valid() && input.src.Shows(img)
    requires img.w < 0x1_0000_0000 && img.h < 0x1_0000_0000 && ts < 0x1_0000_0000
    requires BandsOf(input.ifd.fields).Some? ==> style.bands == BandsOf(input.ifd.fields).value
    requires win.Inside(CeilDiv(img.w, Pow2(k)), CeilDiv(img.h, Pow2(k)))
    ensures !NotBuilt(input, ts, mode) ==>
      && BandsOf(input.ifd.fields).Some?
      && Authored(levels, MetaOf(input.ifd.fields), codec, if input.Paletted() || mode == NearestNeighbor then Nearest else Average, img, ts)
      && AllSized(levels) && levels[|levels| - 1].tiles != []
    ensures var fields := input.ifd.fields;
      if NotBuilt(input, ts, mode) || TilesTooLong(levels) then r.Err? && r.error.NotAuthored?
      else
        && Georeferenced(fields)
        && if LastTileStart(levels, MetaOf(fields)) >= 0x1_0000_0000 then r == Err(TooLarge)
           else if !KeysSurvive(fields) then r == Err(KeysLost)
           else if k > 0 && CeilDiv(img.w, Pow2(k - 1)) <= ts && CeilDiv(img.h, Pow2(k - 1)) <= ts then r == Err(NoSuchLevel)
           else r.Ok? && ReadsOverview(r.value, img, k, input.Paletted() || mode == NearestNeighbor, style, win)
  {
    hide Mul, Div, Mod, CogBytes, Pyramid, RowsOf, Shown, CeilDiv, Pow2, BadRows, ReadsOverview, ShowsOverview, Authored, MetaOf, BandsOf, LastTileStart;
    hide Georeferenced, KeysSurvive, OnTheGlobe, TilesTooLong;
    var authored: Result<seq<byte>, Failure>;
    authored, levels := AuthorCog(codec, input, ts, mode, img);
    if !NotBuilt(input, ts, mode) {
      Accepted(input, ts, mode);
      LastTileExists(levels, MetaOf(input.ifd.fields), codec, if input.Paletted() || mode == NearestNeighbor then Nearest else Average, img, ts);
    }
    if authored.Err? {
      return Err(NotAuthored(authored.error)), levels;
    }
    ghost var fields := input.ifd.fields;
    ghost var meta, kernel := MetaOf(fields), if input.Paletted() || mode == NearestNeighbor then Nearest else Average;
    KeysSurviveIff(fields);
    var tiles := levels[|levels| - 1].tiles;
    LastTileIsLast(levels, meta, |levels| - 1, 0);
    if |authored.value| - |tiles[|tiles| - 1]| >= 0x1_0000_0000 {
      return Err(TooLarge), levels;
    }
    if !KeysSurvive(input.ifd.fields) {
      return Err(KeysLost), levels;
    }
    LevelsEnd(levels, meta, codec, kernel, img, ts, k);
    if k >= |levels| {
      return Err(NoSuchLevel), levels;
    }
    assert Addressable(levels, meta) by { FitsAddresses(levels, meta); }
    var read := ReadAuthored(TiledFile(authored.value, codec, crop), k, style, win, levels, meta, kernel, img, ts);
    PyramidIsRead(read.value, kernel, img, k, style, win);
    r := Ok(read.value);
  }

  lemma FitsAddresses(levels: seq<LevelBuild>, meta: Meta)
    requires AllSized(levels) && |levels| > 0 && levels[|levels| - 1].tiles != []
    requires LastTileStart(levels, meta) < 0x1_0000_0000 && !TilesTooLong(levels)
    ensures Addressable(levels, meta)
  {
    hide LastTileStart, LongTile;
  }

  lemma LastTileExists(levels: seq<LevelBuild>, meta: Meta, codec: Codec, kernel: Kernel, img: Image, ts: nat)
    requires Authored(levels, meta, codec, kernel, img, ts)
    ensures |levels| > 0 && levels[|levels| - 1].tiles != []
  {
    hide Mul, Div, Mod, Pyramid, TilesShow;
    var level, last := levels[|levels| - 1], Pyramid(kernel, img, |levels| - 1);
    CeilDivBlocks(last.w, ts, 0);
    CeilDivBlocks(last.h, ts, 0);
    MulStep(0, ts);
    MulLe(1, TilesDown(last, ts), TilesAcross(last, ts));
    MulStep(0, TilesAcross(last, ts));
  }

  /** There is no level `k` exactly if the one before it fits one tile. */
  lemma LevelsEnd(levels: seq<LevelBuild>, meta: Meta, codec: Codec, kernel: Kernel, img: Image, ts: nat, k: nat)
    requires Authored(levels, meta, codec, kernel, img, ts)
    ensures k >= |levels| <==> k > 0 && CeilDiv(img.w, Pow2(k - 1)) <= ts && CeilDiv(img.h, Pow2(k - 1)) <= ts
  {
    hide CeilDiv, Pyramid, Pow2, TilesShow;
    if k > 0 {
      PyramidSize(kernel, img, k - 1);
      if k >= |levels| {
        FurtherIsSmaller(kernel, img, |levels| - 1, k - 1);
      } else {
        assert levels[k - 1].width > ts || levels[k - 1].height > ts;
      }
    }
  }

  lemma {:induction false} FurtherIsSmaller(kernel: Kernel, img: Image, i: nat, k: nat)
    requires i <= k
    ensures Pyramid(kernel, img, k).w <= Pyramid(kernel, img, i).w && Pyramid(kernel, img, k).h <= Pyramid(kernel, img, i).h
    decreases k - i
  {
    if i < k { FurtherIsSmaller(kernel, img, i, k - 1); }
  }

  lemma LinkTo(levels: seq<LevelBuild>, meta: Meta, k: nat)
    requires AllSized(levels) && k < |levels| && Addressable(levels, meta)
    ensures MainIfd(CogBytes(levels, meta)).Some?
    ensures Reach(CogBytes(levels, meta), MainIfd(CogBytes(levels, meta)).value, {}, k) == Some(AuthoredIfd(levels, meta, k))
  {
    hide CogBytes, Chain, AuthoredIfds, AuthoredIfd, Reach, MainIfd, Addressable;
    DirectoriesReadBack(levels, meta);
    AuthoredIfdsAt(levels, meta, 0, k);
    ReachInChain(CogBytes(levels, meta), MainIfd(CogBytes(levels, meta)).value, {}, k);
  }

  // ---- A file that 32 bits cannot address --------------------------------

  const SIDE: nat := 0x8000
  const CHUNK: nat := 512
  const ONE: u64 := 0x3FF0_0000_0000_0000 // the bits of 1.0

  function ZeroImage(w: nat, h: nat): Image { Image(w, h, 1, (x, y, k) => 0) }

  /** Grey, at the origin, one degree a pixel. */
  function GrayMeta(): Meta {
    Meta(Gray, [ONE, ONE], [0, 0, 0, 0, 0, 0], [1, 1, 0, 2, 1024, 0, 1, 2, 2048, 0, 1, 4326], None)
  }

  lemma GrayMetaIsPlaced()
    ensures OnTheGlobe(GrayMeta()) && GeoKeys.Narrowed(GrayMeta().geoDirectory) == GrayMeta().geoDirectory
  {
    var d: seq<nat> := GrayMeta().geoDirectory;
    assert GeoKeys.KeyValue(d, 1024, 1) == Some(2);
    assert GeoKeys.KeyValue(d, 1024, 2) == Some(2) && GeoKeys.KeyValue(d, 2048, 2) == Some(4326);
    forall e | 0 <= e < 2 ensures !GeoKeys.Indirect(d, e) {
      assert e == 0 || e == 1;
    }
  }

  /** A grey image of five squares side by side, tiled small; all of its chunks
      are stored once. */
  function GrayInput(): Input {
    var n := 5 * SIDE / CHUNK * (SIDE / CHUNK);
    var level := LevelBuild(5 * SIDE, SIDE, CHUNK, 5 * SIDE / CHUNK, []);
    var tags := LevelTags(level, GrayMeta(), true, seq(n, _ => 8), seq(n, _ => 300));
    Input(Ifd(FieldsOf(tags), 0), Source(Tiling(5 * SIDE, SIDE, 1, CHUNK, CHUNK), seq(n, _ => seq(CHUNK * CHUNK, _ => 0))))
  }

  lemma GrayInputIsPlain()
    ensures var fields := GrayInput().ifd.fields;
            && First(fields, 256) == Some(5 * SIDE) && First(fields, 257) == Some(SIDE)
            && BandsOf(fields) == Some(Gray) && MetaOf(fields) == GrayMeta()
    ensures !GrayInput().Refused(SIDE, Auto) && !GrayInput().Paletted()
  {
    var n := 5 * SIDE / CHUNK * (SIDE / CHUNK);
    var level := LevelBuild(5 * SIDE, SIDE, CHUNK, 5 * SIDE / CHUNK, []);
    var offsets: seq<u32>, counts: seq<u32> := seq(n, _ => 8), seq(n, _ => 300);
    GrayMetaIsPlaced();
    ShapeFields(level, GrayMeta(), true, offsets, counts);
    PlaceFields(level, GrayMeta(), offsets, counts);
    hide LevelTags, FieldsOf, Lookup, Doubles, GeoDirectory, BandsOf, NodataOf;
    BandsReadBack(GrayInput().ifd.fields, Gray);
  }

  /** A zero image in equal chunks is a source without bad chunks. */
  lemma ZeroChunks(t: Tiling, zeros: seq<byte>, chunks: seq<seq<byte>>)
    requires t.Valid() && t.channels == 1 && |zeros| == t.PaddedLen() && forall i :: 0 <= i < |zeros| ==> zeros[i] == 0
    requires |chunks| == Mul(t.Down(), t.Across()) && forall i :: 0 <= i < |chunks| ==> chunks[i] == zeros
    ensures var src := Source(t, chunks);
            src.Valid() && src.Shows(ZeroImage(t.width, t.height)) && !BadRows(src, 0, t.height)
  {
    hide Mul, Div, Mod, CeilDiv;
    var src := Source(t, chunks);
    OffInside(t.Across(), t.Down());
    forall cx: nat, cy: nat | cx < t.Across() && cy < t.Down()
      ensures src.Valid() && src.Chunk(cx, cy) == zeros && !src.Bad(cx, cy)
      ensures t.Shows(zeros, ZeroImage(t.width, t.height), cx, cy)
    {
    }
  }

  lemma GrayChunks()
    ensures GrayInput().src.Valid()
    ensures GrayInput().src.Shows(ZeroImage(5 * SIDE, SIDE))
    ensures !BadRows(GrayInput().src, 0, SIDE)
  {
    MulIs(CHUNK, CHUNK);
    MulIs(Mul(CHUNK, CHUNK), 1);
    MulIs(320, CHUNK);
    CeilDivUnique(5 * SIDE, CHUNK, 320);
    MulIs(64, CHUNK);
    CeilDivUnique(SIDE, CHUNK, 64);
    MulIs(64, 320);
    hide Mul, LevelTags, FieldsOf, CeilDiv, Source.Valid, Source.Shows, BadRows;
    ZeroChunks(GrayInput().src.t, seq(CHUNK * CHUNK, _ => 0), GrayInput().src.chunks);
  }

  lemma OneBlock(size: nat)
    requires size > 0
    ensures CeilDiv(size, size) == 1
  {
    MulIs(1, size);
    CeilDivUnique(size, size, 1);
  }

  /** Stored as they are, tiles of one channel have the size of a square. */
  lemma StoredTiles(levels: seq<LevelBuild>, meta: Meta, kernel: Kernel, img: Image, ts: nat, i: nat, j: nat)
    requires Authored(levels, meta, Storing(), kernel, img, ts) && img.c == 1
    requires i < |levels| && j < |levels[i].tiles|
    ensures |levels[i].tiles[j]| == ts * ts
  {
    hide Mul, Div, Mod, Cell, Pyramid, Lossless;
    PyramidShrinks(kernel, img, i);
    var level, across := Pyramid(kernel, img, i), levels[i].tilesAcross;
    CeilDivBlocks(level.w, ts, 0);
    MulStep(0, ts);
    OffJoin(across, j);
    assert StoredTile(Storing(), levels[i].tiles[j], level, ts, Div(j, across), Mod(j, across));
    MulIs(ts, 1);
    MulIs(ts, Mul(ts, 1));
  }

  /** Five tiles of 1 GiB pass the only check there is, yet the offset of the
      fifth is recorded wrong. */
  method FiveLargeTiles() returns (file: seq<byte>, levels: seq<LevelBuild>)
    ensures Authored(levels, GrayMeta(), Storing(), Average, ZeroImage(5 * SIDE, SIDE), SIDE)
    ensures AllSized(levels) && file == CogBytes(levels, GrayMeta()) && |levels[0].tiles| == 5
    ensures RecordedOffsets(levels, GrayMeta(), 0)[4] != TileStart(levels, GrayMeta(), 0, 4)
  {
    StoringIsLossless();
    GrayInputIsPlain();
    GrayChunks();
    hide Mul, Div, Mod, CogBytes, LevelTags, FieldsOf, First, BandsOf, MetaOf, BadRows, Lossless, Pyramid, TilesShow, Input.Refused, TileStart, RecordedOffsets;
    var authored: Result<seq<byte>, Failure>;
    authored, levels := AuthorCog(Storing(), GrayInput(), SIDE, Auto, ZeroImage(5 * SIDE, SIDE));
    forall i: nat, j: nat ensures !LongTile(levels, i, j) {
      if i < |levels| && j < |levels[i].tiles| { StoredTiles(levels, GrayMeta(), Average, ZeroImage(5 * SIDE, SIDE), SIDE, i, j); }
    }
    file := authored.value;
    FifthTile(levels);
  }

  lemma NextTile(levels: seq<LevelBuild>, j: nat)
    requires Authored(levels, GrayMeta(), Storing(), Average, ZeroImage(5 * SIDE, SIDE), SIDE) && AllSized(levels)
    requires j < |levels[0].tiles|
    ensures TileStart(levels, GrayMeta(), 0, j + 1) == TileStart(levels, GrayMeta(), 0, j) + 0x4000_0000
  {
    hide Pyramid, LevelShows, Lossless, TileStart, AllSized;
    StoredTiles(levels, GrayMeta(), Average, ZeroImage(5 * SIDE, SIDE), SIDE, 0, j);
    TilesAreTight(levels, GrayMeta(), 0, j);
  }

  lemma FifthTile(levels: seq<LevelBuild>)
    requires Authored(levels, GrayMeta(), Storing(), Average, ZeroImage(5 * SIDE, SIDE), SIDE) && AllSized(levels)
    ensures |levels[0].tiles| == 5
    ensures RecordedOffsets(levels, GrayMeta(), 0)[4] != TileStart(levels, GrayMeta(), 0, 4)
  {
    hide Mul, Div, Mod, LevelTags, Lossless, TilesShow, TileStart, RecordedOffsets;
    var img := ZeroImage(5 * SIDE, SIDE);
    assert Pyramid(Average, img, 0) == img;
    OneBlock(SIDE);
    MulIs(5, SIDE);
    CeilDivUnique(5 * SIDE, SIDE, 5);
    MulIs(1, 5);
    NextTile(levels, 0);
    NextTile(levels, 1);
    NextTile(levels, 2);
    NextTile(levels, 3);
    OffsetRightIff(levels, GrayMeta(), 0, 4);
  }
}
