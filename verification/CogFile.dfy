/** The bytes of a finished COG: header, every directory, then every tile. */
module CogFile {
  import opened Wrappers
  import opened Grid
  import opened Raster
  import opened Tiff
  import opened Author
  import opened Pixels

  datatype Meta = Meta(bands: Bands, pixelScale: seq<u64>, tiepoint: seq<u64>, geoDirectory: seq<u16>, colormap: Option<seq<u16>>)

  const HEADER_LEN: nat := 8

  /** Unsigned 32-bit arithmetic as the release build does it. */
  function W32(x: nat): u32 { x % 0x1_0000_0000 }

  lemma W32Add(a: nat, b: nat)
    ensures W32(W32(a) + b) == W32(a + b)
  {
  }

  lemma W32Small(a: nat)
    requires a < 0x1_0000_0000
    ensures W32(a) == a
  {
  }

  /** The dimensions are 32-bit in the format. */
  predicate Sized(level: LevelBuild) {
    level.width < 0x1_0000_0000 && level.height < 0x1_0000_0000 && level.tileSize < 0x1_0000_0000
  }

  function Photometric(bands: Bands): u16 {
    match bands
    case Gray => 1
    case Rgb => 2
    case Rgba => 2
    case Palette => 3
  }

  /** One level's tags, ascending by id; only the main image is georeferenced. */
  function LevelTags(level: LevelBuild, meta: Meta, isMain: bool, offsets: seq<u32>, counts: seq<u32>): seq<TagEntry>
    requires Sized(level)
  {
    var c := meta.bands.ChannelCount();
    [ TagEntry(256, Long([level.width])),
      TagEntry(257, Long([level.height])),
      TagEntry(258, Short(seq(c, _ => 8))),
      TagEntry(259, Short([8])),
      TagEntry(262, Short([Photometric(meta.bands)])),
      TagEntry(277, Short([c])),
      TagEntry(284, Short([1])) ]
    + (if meta.colormap.Some? then [TagEntry(320, Short(meta.colormap.value))] else [])
    + [ TagEntry(322, Long([level.tileSize])),
        TagEntry(323, Long([level.tileSize])),
        TagEntry(324, Long(offsets)),
        TagEntry(325, Long(counts)) ]
    + (if meta.bands == Rgba then [TagEntry(338, Short([2]))] else [])
    + (if isMain then
         [ TagEntry(33550, Double(meta.pixelScale)),
           TagEntry(33922, Double(meta.tiepoint)),
           TagEntry(34735, Short(meta.geoDirectory)) ]
       else [])
  }

  /** TIFF 6.0 section 2 wants a directory's entries in ascending order. */
  lemma TagsAscend(level: LevelBuild, meta: Meta, isMain: bool, offsets: seq<u32>, counts: seq<u32>)
    requires Sized(level)
    ensures var t := LevelTags(level, meta, isMain, offsets, counts);
            |t| <= 16 && forall i: nat, j: nat :: i < j < |t| ==> t[i].id < t[j].id
  {
  }

  // ---- Where everything goes ---------------------------------------------

  function Concat(pieces: seq<seq<byte>>): seq<byte> {
    if pieces == [] then [] else Concat(pieces[..|pieces| - 1]) + pieces[|pieces| - 1]
  }

  predicate AllSized(levels: seq<LevelBuild>) {
    forall i :: 0 <= i < |levels| ==> Sized(levels[i])
  }

  function Zeros(n: nat): seq<u32> { seq(n, _ => 0) }

  /** The size of directory `i`, found before any offset is known. */
  function PlannedSize(levels: seq<LevelBuild>, meta: Meta, i: nat): nat
    requires AllSized(levels) && i < |levels|
  {
    IfdSize(LevelTags(levels[i], meta, i == 0, Zeros(|levels[i].tiles|), Zeros(|levels[i].tiles|)))
  }

  /** Where directory `i` starts; directory `|levels|` is where tiles start. */
  function IfdStart(levels: seq<LevelBuild>, meta: Meta, i: nat): nat
    requires AllSized(levels) && i <= |levels|
  {
    if i == 0 then HEADER_LEN else IfdStart(levels, meta, i - 1) + PlannedSize(levels, meta, i - 1)
  }

  /** The tiles of all levels before `i`, in file order. */
  function TilesBefore(levels: seq<LevelBuild>, i: nat): seq<seq<byte>>
    requires i <= |levels|
  {
    if i == 0 then [] else TilesBefore(levels, i - 1) + levels[i - 1].tiles
  }

  /** Where tile `j` of level `i` starts. */
  function TileStart(levels: seq<LevelBuild>, meta: Meta, i: nat, j: nat): nat
    requires AllSized(levels) && i < |levels| && j <= |levels[i].tiles|
  {
    IfdStart(levels, meta, |levels|) + |Concat(TilesBefore(levels, i))| + |Concat(levels[i].tiles[..j])|
  }

  /** Tile `j`'s recorded offset: its start, in 32 bits. */
  function RecordedOffsets(levels: seq<LevelBuild>, meta: Meta, i: nat): (o: seq<u32>)
    requires AllSized(levels) && i < |levels|
    ensures |o| == |levels[i].tiles|
  {
    seq(|levels[i].tiles|, j requires 0 <= j < |levels[i].tiles| => W32(TileStart(levels, meta, i, j)))
  }

  function RecordedCounts(level: LevelBuild): (c: seq<u32>)
    ensures |c| == |level.tiles|
  {
    seq(|level.tiles|, j requires 0 <= j < |level.tiles| => W32(|level.tiles[j]|))
  }

  function FinalTags(levels: seq<LevelBuild>, meta: Meta, i: nat): seq<TagEntry>
    requires AllSized(levels) && i < |levels|
  {
    LevelTags(levels[i], meta, i == 0, RecordedOffsets(levels, meta, i), RecordedCounts(levels[i]))
  }

  function NextIfd(levels: seq<LevelBuild>, meta: Meta, i: nat): u32
    requires AllSized(levels) && i < |levels|
  {
    if i + 1 < |levels| then W32(IfdStart(levels, meta, i + 1)) else 0
  }

  function IfdPiece(levels: seq<LevelBuild>, meta: Meta, i: nat): seq<byte>
    requires AllSized(levels) && i < |levels|
  {
    IfdBytes(FinalTags(levels, meta, i), NextIfd(levels, meta, i), W32(IfdStart(levels, meta, i)))
  }

  function IfdRegion(levels: seq<LevelBuild>, meta: Meta, n: nat): seq<byte>
    requires AllSized(levels) && n <= |levels|
  {
    if n == 0 then [] else IfdRegion(levels, meta, n - 1) + IfdPiece(levels, meta, n - 1)
  }

  function Header(first: nat): (h: seq<byte>)
    ensures |h| == 8
  {
    [0x49, 0x49] + ToLe(42, 2) + ToLe(first, 4)
  }

  function CogBytes(levels: seq<LevelBuild>, meta: Meta): seq<byte>
    requires AllSized(levels)
  {
    Header(HEADER_LEN) + IfdRegion(levels, meta, |levels|) + Concat(TilesBefore(levels, |levels|))
  }

  // ---- Writing it --------------------------------------------------------

  datatype EncodeError = TileTooLong

  predicate LongTile(levels: seq<LevelBuild>, i: nat, j: nat): (b: bool)
    ensures b ==> i < |levels|
  {
    i < |levels| && j < |levels[i].tiles| && |levels[i].tiles[j]| >= 0x1_0000_0000
  }

  /** First pass over one level's tiles: offsets and byte counts, the running
      cursor in 32 bits. */
  method PlaceTiles(levels: seq<LevelBuild>, meta: Meta, i: nat, start: u32)
    returns (r: Result<(seq<u32>, seq<u32>, u32), EncodeError>)
    requires AllSized(levels) && i < |levels| && start == W32(TileStart(levels, meta, i, 0))
    ensures r.Err? <==> exists j: nat :: LongTile(levels, i, j)
    ensures r.Ok? ==> r.value.0 == RecordedOffsets(levels, meta, i) && r.value.1 == RecordedCounts(levels[i])
    ensures r.Ok? ==> r.value.2 == W32(TileStart(levels, meta, i, |levels[i].tiles|))
  {
    hide W32, IfdStart;
    var tiles := levels[i].tiles;
    var offs: seq<u32> := [];
    var counts: seq<u32> := [];
    var cursor := start;
    for j := 0 to |tiles|
      invariant cursor == W32(TileStart(levels, meta, i, j))
      invariant offs == RecordedOffsets(levels, meta, i)[..j]
      invariant counts == RecordedCounts(levels[i])[..j]
      invariant forall t: nat :: t < j ==> !LongTile(levels, i, t)
    {
      offs := offs + [cursor];
      if |tiles[j]| >= 0x1_0000_0000 {
        assert LongTile(levels, i, j);
        return Err(TileTooLong);
      }
      W32Small(|tiles[j]|);
      W32Add(TileStart(levels, meta, i, j), |tiles[j]|);
      counts := counts + [|tiles[j]|];
      assert tiles[..j + 1][..j] == tiles[..j];
      cursor := W32(cursor + |tiles[j]|);
    }
    return Ok((offs, counts, cursor));
  }

  lemma FirstTile(levels: seq<LevelBuild>, meta: Meta, i: nat)
    requires AllSized(levels) && i < |levels|
    ensures TileStart(levels, meta, i, 0) == IfdStart(levels, meta, |levels|) + |Concat(TilesBefore(levels, i))|
  {
  }

  lemma NoTiles(levels: seq<LevelBuild>)
    ensures |Concat(TilesBefore(levels, 0))| == 0
  {
  }

  /** The placed directory offsets: sizes first, then the running sum. */
  method PlaceIfds(levels: seq<LevelBuild>, meta: Meta) returns (offsets: seq<u32>, tileRegion: u32)
    requires AllSized(levels)
    ensures |offsets| == |levels|
    ensures forall i: nat :: i < |levels| ==> offsets[i] == W32(IfdStart(levels, meta, i))
    ensures tileRegion == W32(IfdStart(levels, meta, |levels|))
  {
    hide LevelTags, W32, IfdSize;
    W32Small(8);
    offsets := [];
    var running: u32 := 8;
    for i := 0 to |levels|
      invariant |offsets| == i && running == W32(IfdStart(levels, meta, i))
      invariant forall k: nat :: k < i ==> offsets[k] == W32(IfdStart(levels, meta, k))
    {
      var zeros := Zeros(|levels[i].tiles|);
      var size := IfdEncodedSize(LevelTags(levels[i], meta, i == 0, zeros, zeros));
      offsets := offsets + [running];
      W32Add(IfdStart(levels, meta, i), size);
      running := W32(running + size);
    }
    tileRegion := running;
  }

  /** Every level's tile offsets and byte counts. */
  method PlaceAllTiles(levels: seq<LevelBuild>, meta: Meta, tileRegion: u32)
    returns (r: Result<(seq<seq<u32>>, seq<seq<u32>>, u32), EncodeError>)
    requires AllSized(levels) && tileRegion == W32(IfdStart(levels, meta, |levels|))
    ensures r.Err? <==> exists i: nat, j: nat :: LongTile(levels, i, j)
    ensures r.Ok? ==>
      && |r.value.0| == |r.value.1| == |levels|
      && (forall i: nat :: i < |levels| ==> r.value.0[i] == RecordedOffsets(levels, meta, i))
      && (forall i: nat :: i < |levels| ==> r.value.1[i] == RecordedCounts(levels[i]))
      && r.value.2 == W32(IfdStart(levels, meta, |levels|) + |Concat(TilesBefore(levels, |levels|))|)
  {
    hide W32, IfdStart, RecordedOffsets, RecordedCounts, LongTile, Concat;
    var offsets: seq<seq<u32>> := [];
    var counts: seq<seq<u32>> := [];
    var cursor := tileRegion;
    NoTiles(levels);
    for i := 0 to |levels|
      invariant cursor == W32(IfdStart(levels, meta, |levels|) + |Concat(TilesBefore(levels, i))|)
      invariant |offsets| == |counts| == i
      invariant forall k: nat :: k < i ==> offsets[k] == RecordedOffsets(levels, meta, k)
      invariant forall k: nat :: k < i ==> counts[k] == RecordedCounts(levels[k])
      invariant forall k: nat, j: nat :: k < i ==> !LongTile(levels, k, j)
    {
      FirstTile(levels, meta, i);
      var placed :- PlaceTiles(levels, meta, i, cursor);
      offsets := offsets + [placed.0];
      counts := counts + [placed.1];
      cursor := placed.2;
      ConcatParts(TilesBefore(levels, i), levels[i].tiles);
      assert levels[i].tiles[..|levels[i].tiles|] == levels[i].tiles;
    }
    return Ok((offsets, counts, cursor));
  }

  lemma {:induction false} ConcatParts(a: seq<seq<byte>>, b: seq<seq<byte>>)
    ensures Concat(a + b) == Concat(a) + Concat(b)
  {
    if b == [] {
      assert a + b == a;
    } else {
      ConcatParts(a, b[..|b| - 1]);
      assert (a + b)[..|a + b| - 1] == a + b[..|b| - 1];
    }
  }

  lemma FirstIfd(levels: seq<LevelBuild>, meta: Meta)
    requires AllSized(levels)
    ensures W32(IfdStart(levels, meta, 0)) == HEADER_LEN
  {
  }

  method EncodeLevel(levels: seq<LevelBuild>, meta: Meta, i: nat, offsets: seq<u32>, counts: seq<u32>, next: u32, base: u32)
    returns (encoded: seq<byte>)
    requires AllSized(levels) && i < |levels|
    requires offsets == RecordedOffsets(levels, meta, i) && counts == RecordedCounts(levels[i])
    requires next == NextIfd(levels, meta, i) && base == W32(IfdStart(levels, meta, i))
    ensures encoded == IfdPiece(levels, meta, i)
  {
    hide LevelTags, IfdBytes, W32, IfdStart, RecordedOffsets, RecordedCounts, NextIfd;
    var tags := LevelTags(levels[i], meta, i == 0, offsets, counts);
    encoded := EncodeIfd(tags, next, base);
  }

  lemma NextIs(levels: seq<LevelBuild>, meta: Meta, i: nat)
    requires AllSized(levels) && i < |levels|
    ensures NextIfd(levels, meta, i) == if i + 1 < |levels| then W32(IfdStart(levels, meta, i + 1)) else 0
  {
  }

  /** Header, then every directory linked to the next. */
  method WriteIfds(levels: seq<LevelBuild>, meta: Meta, ifdOffsets: seq<u32>, offsets: seq<seq<u32>>, counts: seq<seq<u32>>)
    returns (out: seq<byte>)
    requires AllSized(levels) && |ifdOffsets| == |offsets| == |counts| == |levels| > 0
    requires forall i: nat :: i < |levels| ==> ifdOffsets[i] == W32(IfdStart(levels, meta, i))
    requires forall i: nat :: i < |levels| ==> offsets[i] == RecordedOffsets(levels, meta, i)
    requires forall i: nat :: i < |levels| ==> counts[i] == RecordedCounts(levels[i])
    ensures out == Header(HEADER_LEN) + IfdRegion(levels, meta, |levels|)
  {
    FirstIfd(levels, meta);
    hide W32, IfdStart, RecordedOffsets, RecordedCounts, Header, IfdPiece, NextIfd;
    var region: seq<byte> := [];
    for i := 0 to |levels|
      invariant region == IfdRegion(levels, meta, i)
    {
      var next := if i + 1 < |levels| then ifdOffsets[i + 1] else 0;
      assert next == NextIfd(levels, meta, i) by { NextIs(levels, meta, i); }
      var encoded := EncodeLevel(levels, meta, i, offsets[i], counts[i], next, ifdOffsets[i]);
      region := region + encoded;
    }
    out := Header(ifdOffsets[0]) + region;
  }

  method AppendTiles(out: seq<byte>, tiles: seq<seq<byte>>) returns (more: seq<byte>)
    ensures more == out + Concat(tiles)
  {
    var data: seq<byte> := [];
    for j := 0 to |tiles|
      invariant data == Concat(tiles[..j])
    {
      assert tiles[..j + 1][..j] == tiles[..j];
      data := data + tiles[j];
    }
    assert tiles[..|tiles|] == tiles;
    more := out + data;
  }

  /** The tiles of every level, one after the other. */
  method WriteTiles(levels: seq<LevelBuild>) returns (out: seq<byte>)
    ensures out == Concat(TilesBefore(levels, |levels|))
  {
    out := [];
    NoTiles(levels);
    hide Concat;
    for i := 0 to |levels|
      invariant out == Concat(TilesBefore(levels, i))
    {
      ConcatParts(TilesBefore(levels, i), levels[i].tiles);
      out := AppendTiles(out, levels[i].tiles);
    }
  }

  /** Assembles the file. Only single tiles are checked against the 32-bit
      limit; the offsets themselves are taken modulo 2^32. */
  method WriteCog(levels: seq<LevelBuild>, meta: Meta) returns (r: Result<(seq<byte>, nat), EncodeError>)
    requires AllSized(levels) && |levels| > 0
    ensures r.Err? <==> exists i: nat, j: nat :: LongTile(levels, i, j)
    ensures r.Ok? ==> r.value.0 == CogBytes(levels, meta)
    ensures r.Ok? ==> r.value.1 == W32(IfdStart(levels, meta, |levels|) + |Concat(TilesBefore(levels, |levels|))|)
  {
    hide W32, IfdStart, RecordedOffsets, RecordedCounts, Header;
    var ifdOffsets, tileRegion := PlaceIfds(levels, meta);
    var placed :- PlaceAllTiles(levels, meta, tileRegion);
    var front := WriteIfds(levels, meta, ifdOffsets, placed.0, placed.1);
    var tiles := WriteTiles(levels);
    return Ok((front + tiles, placed.2));
  }

  // ---- What is where -----------------------------------------------------

  lemma ByteLenOfTags(level: LevelBuild, meta: Meta, isMain: bool, a: seq<u32>, b: seq<u32>, z: seq<u32>)
    requires Sized(level) && |a| == |b| == |z|
    ensures var s, t := LevelTags(level, meta, isMain, a, b), LevelTags(level, meta, isMain, z, z);
            |s| == |t| && forall i: nat :: i < |s| ==> s[i].value.ByteLen() == t[i].value.ByteLen()
  {
  }

  /** The real directory has exactly the size its placeholder had. */
  lemma PlannedSizeIsReal(levels: seq<LevelBuild>, meta: Meta, i: nat)
    requires AllSized(levels) && i < |levels|
    ensures |IfdPiece(levels, meta, i)| == IfdSize(FinalTags(levels, meta, i)) == PlannedSize(levels, meta, i)
  {
    var zeros := Zeros(|levels[i].tiles|);
    ByteLenOfTags(levels[i], meta, i == 0, RecordedOffsets(levels, meta, i), RecordedCounts(levels[i]), zeros);
    hide LevelTags;
    SizeIgnoresContents(FinalTags(levels, meta, i), LevelTags(levels[i], meta, i == 0, zeros, zeros));
  }

  lemma {:induction false} IfdRegionLength(levels: seq<LevelBuild>, meta: Meta, n: nat)
    requires AllSized(levels) && n <= |levels|
    ensures HEADER_LEN + |IfdRegion(levels, meta, n)| == IfdStart(levels, meta, n)
  {
    hide LevelTags, IfdPiece, PlannedSize;
    if n > 0 {
      PlannedSizeIsReal(levels, meta, n - 1);
      IfdRegionLength(levels, meta, n - 1);
    }
  }

  lemma {:induction false} RegionPiecePlaced(file: seq<byte>, levels: seq<LevelBuild>, meta: Meta, n: nat, i: nat)
    requires AllSized(levels) && i < n <= |levels|
    requires Placed(file, HEADER_LEN, IfdRegion(levels, meta, n))
    ensures Placed(file, IfdStart(levels, meta, i), IfdPiece(levels, meta, i))
  {
    hide Placed, IfdPiece, PlannedSize;
    IfdRegionLength(levels, meta, n - 1);
    PlacedParts(file, HEADER_LEN, IfdRegion(levels, meta, n - 1), IfdPiece(levels, meta, n - 1));
    if i < n - 1 { RegionPiecePlaced(file, levels, meta, n - 1, i); }
  }

  lemma {:induction false} ConcatPiecePlaced(file: seq<byte>, at: nat, pieces: seq<seq<byte>>, k: nat)
    requires k < |pieces| && Placed(file, at, Concat(pieces))
    ensures Placed(file, at + |Concat(pieces[..k])|, pieces[k])
  {
    hide Placed;
    var n := |pieces| - 1;
    PlacedParts(file, at, Concat(pieces[..n]), pieces[n]);
    if k < n {
      ConcatPiecePlaced(file, at, pieces[..n], k);
      assert pieces[..n][..k] == pieces[..k];
    }
  }

  lemma {:induction false} LevelTilesPlaced(file: seq<byte>, at: nat, levels: seq<LevelBuild>, n: nat, i: nat)
    requires i < n <= |levels| && Placed(file, at, Concat(TilesBefore(levels, n)))
    ensures Placed(file, at + |Concat(TilesBefore(levels, i))|, Concat(levels[i].tiles))
  {
    hide Placed, Concat;
    ConcatParts(TilesBefore(levels, n - 1), levels[n - 1].tiles);
    PlacedParts(file, at, Concat(TilesBefore(levels, n - 1)), Concat(levels[n - 1].tiles));
    if i < n - 1 { LevelTilesPlaced(file, at, levels, n - 1, i); }
  }

  /** The three regions of the file. */
  lemma FileRegions(levels: seq<LevelBuild>, meta: Meta)
    requires AllSized(levels)
    ensures var file := CogBytes(levels, meta);
            && Placed(file, 0, Header(HEADER_LEN))
            && Placed(file, HEADER_LEN, IfdRegion(levels, meta, |levels|))
            && Placed(file, IfdStart(levels, meta, |levels|), Concat(TilesBefore(levels, |levels|)))
            && |file| == IfdStart(levels, meta, |levels|) + |Concat(TilesBefore(levels, |levels|))|
  {
    hide Placed, Header, IfdRegion, IfdStart, Concat, TilesBefore;
    IfdRegionLength(levels, meta, |levels|);
    ThreeParts(Header(HEADER_LEN), IfdRegion(levels, meta, |levels|), Concat(TilesBefore(levels, |levels|)));
  }

  lemma ThreeParts(a: seq<byte>, b: seq<byte>, c: seq<byte>)
    ensures Placed(a + b + c, 0, a) && Placed(a + b + c, |a|, b) && Placed(a + b + c, |a| + |b|, c)
  {
    assert Placed(a + b + c, 0, a + b + c);
    hide Placed;
    PlacedParts(a + b + c, 0, a + b, c);
    PlacedParts(a + b + c, 0, a, b);
  }

  /** Directory `i` lies where the layout says. */
  lemma IfdPlaced(levels: seq<LevelBuild>, meta: Meta, i: nat)
    requires AllSized(levels) && i < |levels|
    ensures Placed(CogBytes(levels, meta), IfdStart(levels, meta, i), IfdPiece(levels, meta, i))
  {
    hide Placed, CogBytes, IfdPiece, IfdRegion, IfdStart, Concat, Header;
    FileRegions(levels, meta);
    RegionPiecePlaced(CogBytes(levels, meta), levels, meta, |levels|, i);
  }

  /** Tile `j` of level `i` lies where the layout says. */
  lemma TilePlaced(levels: seq<LevelBuild>, meta: Meta, i: nat, j: nat)
    requires AllSized(levels) && i < |levels| && j < |levels[i].tiles|
    ensures Placed(CogBytes(levels, meta), TileStart(levels, meta, i, j), levels[i].tiles[j])
  {
    hide Placed, CogBytes, IfdPiece, IfdRegion, IfdStart, Concat, Header, TilesBefore;
    var file, start := CogBytes(levels, meta), IfdStart(levels, meta, |levels|);
    FileRegions(levels, meta);
    LevelTilesPlaced(file, start, levels, |levels|, i);
    ConcatPiecePlaced(file, start + |Concat(TilesBefore(levels, i))|, levels[i].tiles, j);
  }

  /** The directories follow the header and one another without a gap, and the
      tiles follow the last one. */
  lemma IfdsAreTight(levels: seq<LevelBuild>, meta: Meta, i: nat)
    requires AllSized(levels) && i < |levels|
    ensures IfdStart(levels, meta, 0) == HEADER_LEN
    ensures IfdStart(levels, meta, i + 1) == IfdStart(levels, meta, i) + |IfdPiece(levels, meta, i)|
    ensures TileStart(levels, meta, 0, 0) == IfdStart(levels, meta, |levels|)
  {
    hide IfdPiece, PlannedSize;
    PlannedSizeIsReal(levels, meta, i);
  }

  /** The tiles of a level follow one another without a gap. */
  lemma TilesAreTight(levels: seq<LevelBuild>, meta: Meta, i: nat, j: nat)
    requires AllSized(levels) && i < |levels| && j < |levels[i].tiles|
    ensures TileStart(levels, meta, i, j + 1) == TileStart(levels, meta, i, j) + |levels[i].tiles[j]|
  {
    hide IfdStart;
    var tiles := levels[i].tiles;
    assert tiles[..j + 1][..j] == tiles[..j];
  }

  /** Each level's tiles follow the previous level's, and the last tile ends
      with the file. */
  lemma LevelsAreTight(levels: seq<LevelBuild>, meta: Meta, i: nat)
    requires AllSized(levels) && i < |levels|
    ensures var end := TileStart(levels, meta, i, |levels[i].tiles|);
            if i + 1 < |levels| then end == TileStart(levels, meta, i + 1, 0) else end == |CogBytes(levels, meta)|
  {
    hide IfdStart, CogBytes, IfdRegion, Header;
    FileRegions(levels, meta);
    var tiles := levels[i].tiles;
    assert tiles[..|tiles|] == tiles;
    ConcatParts(TilesBefore(levels, i), tiles);
    if i + 1 < |levels| { FirstTile(levels, meta, i + 1); }
  }

  /** So every piece ends at or before the end of the file. */
  lemma {:induction false} TileInsideFile(levels: seq<LevelBuild>, meta: Meta, i: nat, j: nat)
    requires AllSized(levels) && i < |levels| && j < |levels[i].tiles|
    ensures IfdStart(levels, meta, |levels|) <= TileStart(levels, meta, i, j)
    ensures TileStart(levels, meta, i, j) + |levels[i].tiles[j]| <= |CogBytes(levels, meta)|
  {
    hide Placed, CogBytes, IfdStart, Concat;
    TilePlaced(levels, meta, i, j);
    PlacedInside(CogBytes(levels, meta), TileStart(levels, meta, i, j), levels[i].tiles[j]);
  }

  lemma {:induction false} IfdsAscend(levels: seq<LevelBuild>, meta: Meta, i: nat, k: nat)
    requires AllSized(levels) && i < k <= |levels|
    ensures IfdStart(levels, meta, i) + |IfdPiece(levels, meta, i)| <= IfdStart(levels, meta, k)
  {
    hide IfdPiece, IfdStart;
    IfdsAreTight(levels, meta, k - 1);
    if i < k - 1 { IfdsAscend(levels, meta, i, k - 1); }
  }

  lemma {:induction false} TilesAscend(levels: seq<LevelBuild>, meta: Meta, i: nat, j: nat, k: nat)
    requires AllSized(levels) && i < |levels| && j < k <= |levels[i].tiles|
    ensures TileStart(levels, meta, i, j) + |levels[i].tiles[j]| <= TileStart(levels, meta, i, k)
  {
    hide TileStart;
    TilesAreTight(levels, meta, i, k - 1);
    if j < k - 1 { TilesAscend(levels, meta, i, j, k - 1); }
  }

  lemma {:induction false} LevelsAscend(levels: seq<LevelBuild>, meta: Meta, i: nat, k: nat)
    requires AllSized(levels) && i < k < |levels|
    ensures TileStart(levels, meta, i, |levels[i].tiles|) <= TileStart(levels, meta, k, 0)
  {
    hide TileStart;
    LevelsAreTight(levels, meta, k - 1);
    if i < k - 1 {
      LevelsAscend(levels, meta, i, k - 1);
      if levels[k - 1].tiles != [] { TilesAscend(levels, meta, k - 1, 0, |levels[k - 1].tiles|); }
    }
  }

  /** No two tiles share a byte: a tile ends before any later one begins, and
      after every directory. */
  lemma TilesAreDisjoint(levels: seq<LevelBuild>, meta: Meta, i: nat, j: nat, i': nat, j': nat)
    requires AllSized(levels) && i < |levels| && j < |levels[i].tiles| && i' < |levels| && j' < |levels[i'].tiles|
    requires i < i' || (i == i' && j < j')
    ensures IfdStart(levels, meta, |levels|) <= TileStart(levels, meta, i, j)
    ensures TileStart(levels, meta, i, j) + |levels[i].tiles[j]| <= TileStart(levels, meta, i', j')
  {
    hide TileStart, IfdStart, CogBytes;
    TileInsideFile(levels, meta, i, j);
    if i == i' {
      TilesAscend(levels, meta, i, j, j');
    } else {
      TilesAscend(levels, meta, i, j, |levels[i].tiles|);
      LevelsAscend(levels, meta, i, i');
      if j' > 0 { TilesAscend(levels, meta, i', 0, j'); }
    }
  }

  lemma {:induction false} IfdHolds(levels: seq<LevelBuild>, meta: Meta, p: nat, n: nat) returns (i: nat)
    requires AllSized(levels) && n <= |levels| && HEADER_LEN <= p < IfdStart(levels, meta, n)
    ensures i < n && IfdStart(levels, meta, i) <= p < IfdStart(levels, meta, i) + |IfdPiece(levels, meta, i)|
  {
    hide IfdPiece, PlannedSize;
    IfdsAreTight(levels, meta, n - 1);
    if p < IfdStart(levels, meta, n - 1) { i := IfdHolds(levels, meta, p, n - 1); } else { i := n - 1; }
  }

  lemma {:induction false} TileHolds(levels: seq<LevelBuild>, meta: Meta, p: nat, i: nat, n: nat) returns (j: nat)
    requires AllSized(levels) && i < |levels| && n <= |levels[i].tiles|
    requires TileStart(levels, meta, i, 0) <= p < TileStart(levels, meta, i, n)
    ensures j < n && TileStart(levels, meta, i, j) <= p < TileStart(levels, meta, i, j) + |levels[i].tiles[j]|
  {
    hide TileStart;
    TilesAreTight(levels, meta, i, n - 1);
    if p < TileStart(levels, meta, i, n - 1) { j := TileHolds(levels, meta, p, i, n - 1); } else { j := n - 1; }
  }

  lemma {:induction false} LevelHolds(levels: seq<LevelBuild>, meta: Meta, p: nat, n: nat) returns (i: nat)
    requires AllSized(levels) && n < |levels| && TileStart(levels, meta, 0, 0) <= p < TileStart(levels, meta, n, |levels[n].tiles|)
    ensures i <= n && TileStart(levels, meta, i, 0) <= p < TileStart(levels, meta, i, |levels[i].tiles|)
  {
    hide TileStart;
    if p < TileStart(levels, meta, n, 0) {
      LevelsAreTight(levels, meta, n - 1);
      i := LevelHolds(levels, meta, p, n - 1);
    } else {
      i := n;
    }
  }

  /** Nothing is left over: every byte behind the header lies in a directory or
      in a tile. */
  lemma EveryByteHasAPlace(levels: seq<LevelBuild>, meta: Meta, p: nat)
    requires AllSized(levels) && |levels| > 0 && HEADER_LEN <= p < |CogBytes(levels, meta)|
    ensures (exists i: nat :: i < |levels| && IfdStart(levels, meta, i) <= p < IfdStart(levels, meta, i) + |IfdPiece(levels, meta, i)|)
         || (exists i: nat, j: nat :: i < |levels| && j < |levels[i].tiles|
                                      && TileStart(levels, meta, i, j) <= p < TileStart(levels, meta, i, j) + |levels[i].tiles[j]|)
  {
    hide TileStart, IfdStart, CogBytes, IfdPiece;
    IfdsAreTight(levels, meta, 0);
    if p < IfdStart(levels, meta, |levels|) {
      var i := IfdHolds(levels, meta, p, |levels|);
    } else {
      LevelsAreTight(levels, meta, |levels| - 1);
      var i := LevelHolds(levels, meta, p, |levels| - 1);
      var j := TileHolds(levels, meta, p, i, |levels[i].tiles|);
    }
  }

  // ---- What 32 bits can address ------------------------------------------

  /** Where the last tile starts: everything but its own bytes. */
  function LastTileStart(levels: seq<LevelBuild>, meta: Meta): nat
    requires AllSized(levels) && |levels| > 0 && levels[|levels| - 1].tiles != []
  {
    TileStart(levels, meta, |levels| - 1, |levels[|levels| - 1].tiles| - 1)
  }

  /** No tile starts behind it, and it ends with the file. */
  lemma LastTileIsLast(levels: seq<LevelBuild>, meta: Meta, i: nat, j: nat)
    requires AllSized(levels) && i < |levels| && j < |levels[i].tiles| && levels[|levels| - 1].tiles != []
    ensures IfdStart(levels, meta, |levels|) <= TileStart(levels, meta, i, j) <= LastTileStart(levels, meta)
    ensures var tiles := levels[|levels| - 1].tiles;
            LastTileStart(levels, meta) + |tiles[|tiles| - 1]| == |CogBytes(levels, meta)|
  {
    hide TileStart, IfdStart, CogBytes;
    var n := |levels| - 1;
    var m := |levels[n].tiles| - 1;
    if i < n || j < m { TilesAreDisjoint(levels, meta, i, j, n, m); } else { TileInsideFile(levels, meta, n, m); }
    TilesAreTight(levels, meta, n, m);
    LevelsAreTight(levels, meta, n);
  }

  lemma OffsetRightIff(levels: seq<LevelBuild>, meta: Meta, i: nat, j: nat)
    requires AllSized(levels) && i < |levels| && j < |levels[i].tiles|
    ensures RecordedOffsets(levels, meta, i)[j] == TileStart(levels, meta, i, j) <==> TileStart(levels, meta, i, j) < 0x1_0000_0000
  {
    hide TileStart;
  }

  /** The offsets recorded in the file are the true ones, all of them, if and
      only if its last tile starts below 4 GiB. */
  lemma AllOffsetsRightIff(levels: seq<LevelBuild>, meta: Meta)
    requires AllSized(levels) && |levels| > 0 && levels[|levels| - 1].tiles != []
    ensures (forall i: nat, j: nat :: i < |levels| && j < |levels[i].tiles| ==> RecordedOffsets(levels, meta, i)[j] == TileStart(levels, meta, i, j))
       <==> LastTileStart(levels, meta) < 0x1_0000_0000
  {
    hide TileStart, RecordedOffsets;
    var n := |levels| - 1;
    OffsetRightIff(levels, meta, n, |levels[n].tiles| - 1);
    forall i: nat, j: nat | i < |levels| && j < |levels[i].tiles| && LastTileStart(levels, meta) < 0x1_0000_0000
      ensures RecordedOffsets(levels, meta, i)[j] == TileStart(levels, meta, i, j)
    {
      LastTileIsLast(levels, meta, i, j);
      OffsetRightIff(levels, meta, i, j);
    }
  }

  /** A file of which 32 bits can say where everything is: no single tile is
      refused and the last one starts below 4 GiB. */
  ghost predicate Addressable(levels: seq<LevelBuild>, meta: Meta)
    requires AllSized(levels)
  {
    && |levels| > 0 && levels[|levels| - 1].tiles != []
    && LastTileStart(levels, meta) < 0x1_0000_0000
    && !exists i: nat, j: nat :: LongTile(levels, i, j)
  }

  // ---- The file reads back -----------------------------------------------

  lemma {:induction false} CountsAreSmall(tags: seq<TagEntry>, k: nat)
    requires k < |tags|
    ensures |tags[k].value.Items()| <= IfdSize(tags)
  {
    hide ValueBytes;
    var n := |tags| - 1;
    if k < n { CountsAreSmall(tags[..n], k); }
  }

  lemma TilesStartLow(levels: seq<LevelBuild>, meta: Meta)
    requires AllSized(levels) && Addressable(levels, meta)
    ensures IfdStart(levels, meta, |levels|) < 0x1_0000_0000
  {
    hide CogBytes, IfdStart, TileStart, LongTile;
    LastTileIsLast(levels, meta, |levels| - 1, 0);
  }

  /** The directories of an addressable file lie below 4 GiB. */
  lemma IfdsAreLow(levels: seq<LevelBuild>, meta: Meta, i: nat)
    requires AllSized(levels) && i < |levels| && Addressable(levels, meta)
    ensures IfdStart(levels, meta, i) + IfdSize(FinalTags(levels, meta, i)) == IfdStart(levels, meta, i + 1) < 0x1_0000_0000
  {
    TilesStartLow(levels, meta);
    hide FinalTags, IfdPiece, PlannedSize, IfdSize, IfdStart, Addressable;
    PlannedSizeIsReal(levels, meta, i);
    IfdsAreTight(levels, meta, i);
    if i + 1 < |levels| { IfdsAscend(levels, meta, i + 1, |levels|); }
  }

  /** No directory offset of an addressable file is cut to 32 bits. */
  lemma IfdPieceExact(levels: seq<LevelBuild>, meta: Meta, i: nat)
    requires AllSized(levels) && i < |levels| && Addressable(levels, meta)
    ensures var next := if i + 1 < |levels| then IfdStart(levels, meta, i + 1) else 0;
            && next < 0x1_0000_0000
            && IfdStart(levels, meta, i) + IfdSize(FinalTags(levels, meta, i)) < 0x1_0000_0000
            && IfdPiece(levels, meta, i) == IfdBytes(FinalTags(levels, meta, i), next, IfdStart(levels, meta, i))
  {
    hide CogBytes, FinalTags, IfdBytes, IfdSize, IfdStart, Addressable, W32;
    IfdsAreLow(levels, meta, i);
    W32Small(IfdStart(levels, meta, i));
    W32Small(IfdStart(levels, meta, i + 1));
  }

  /** Every directory of an addressable file reads back as the tags it was
      written from, linked to the next one or to nothing. */
  lemma IfdIsRead(levels: seq<LevelBuild>, meta: Meta, i: nat)
    requires AllSized(levels) && i < |levels| && Addressable(levels, meta)
    ensures ParseIfd(CogBytes(levels, meta), IfdStart(levels, meta, i))
         == Some(Ifd(FieldsOf(FinalTags(levels, meta, i)), if i + 1 < |levels| then IfdStart(levels, meta, i + 1) else 0))
  {
    var file, tags, base := CogBytes(levels, meta), FinalTags(levels, meta, i), IfdStart(levels, meta, i);
    TagsAscend(levels[i], meta, i == 0, RecordedOffsets(levels, meta, i), RecordedCounts(levels[i]));
    hide CogBytes, LevelTags, RecordedOffsets, RecordedCounts, IfdStart, IfdPiece, IfdBytes, Placed, ParseIfd, FieldsOf, IfdSize, Addressable;
    IfdPlaced(levels, meta, i);
    IfdPieceExact(levels, meta, i);
    forall k: nat | k < |tags| ensures |tags[k].value.Items()| < 0x1_0000_0000 { CountsAreSmall(tags, k); }
    IfdReadsBack(file, tags, if i + 1 < |levels| then IfdStart(levels, meta, i + 1) else 0, base);
  }

  /** Every offset and count recorded in an addressable file is the true one. */
  lemma RecordsAreExact(levels: seq<LevelBuild>, meta: Meta, i: nat, j: nat)
    requires AllSized(levels) && i < |levels| && j < |levels[i].tiles| && Addressable(levels, meta)
    ensures RecordedOffsets(levels, meta, i)[j] == TileStart(levels, meta, i, j)
    ensures RecordedCounts(levels[i])[j] == |levels[i].tiles[j]|
    ensures Placed(CogBytes(levels, meta), TileStart(levels, meta, i, j), levels[i].tiles[j])
  {
    LastTileIsLast(levels, meta, i, j);
    assert !LongTile(levels, i, j);
    hide CogBytes, Placed, TileStart, W32, IfdStart, LastTileStart, Addressable;
    TilePlaced(levels, meta, i, j);
    W32Small(TileStart(levels, meta, i, j));
    W32Small(|levels[i].tiles[j]|);
  }
}
