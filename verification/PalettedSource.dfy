/** Reading a paletted source raster: its tiles are found and inflated by hand,
    and only whole padded tiles are accepted. */
module PalettedSource {
  import opened Wrappers
  import opened Grid
  import opened Raster
  import opened Chunks
  import opened PyramidBuild
  import opened WindowReader

  /** Where the tiles of a paletted source are. */
  datatype RawTiles = RawTiles(offsets: seq<nat>, counts: seq<nat>, compression: nat)

  /** Tile `i` of the source, if it is listed, plausible and of the right size. */
  function RawTile(tf: TiledFile, raw: RawTiles, t: Tiling, i: nat): Option<seq<byte>> {
    if i >= |raw.offsets| || i >= |raw.counts| then None
    else
      var decoded := Decoded(tf, raw.offsets[i], raw.counts[i], raw.compression);
      if raw.counts[i] <= MaxPlausibleCompressedLen(t.PaddedLen()) && decoded.Some? && |decoded.value| == t.PaddedLen() then decoded else None
  }

  method ReadRawTile(tf: TiledFile, raw: RawTiles, t: Tiling, i: nat) returns (r: Result<seq<byte>, ReadError>)
    ensures r.Ok? <==> RawTile(tf, raw, t, i).Some?
    ensures r.Ok? ==> Some(r.value) == RawTile(tf, raw, t, i)
    ensures r.Ok? <==>
      && i < |raw.offsets| && i < |raw.counts| && raw.counts[i] <= 2 * t.PaddedLen() + 4096
      && var tile := Decoded(tf, raw.offsets[i], raw.counts[i], raw.compression); tile.Some? && |tile.value| == t.PaddedLen()
    ensures r.Ok? ==> Some(r.value) == Decoded(tf, raw.offsets[i], raw.counts[i], raw.compression)
  {
    if i >= |raw.offsets| || i >= |raw.counts| {
      return Err(NoEntry);
    }
    r := ReadRawChunk(tf, raw.offsets[i], raw.counts[i], raw.compression, t.PaddedLen());
  }

  lemma NothingIsNoTile(t: Tiling, cx: nat, cy: nat)
    requires t.Valid() && cx < t.Across() && cy < t.Down()
    ensures t.BadLength(cx, cy, 0) && t.PaddedLen() > 0
  {
    hide Mul, Div, Mod;
    CeilDivBlocks(t.width, t.chunkW, cx);
    CeilDivBlocks(t.height, t.chunkH, cy);
    Positive(t.chunkW, t.chunkH, t.channels);
    Positive(t.DataW(cx), t.DataH(cy), t.channels);
  }

  lemma Positive(w: nat, h: nat, c: nat)
    requires w > 0 && h > 0 && c > 0
    ensures Mul(Mul(w, h), c) > 0
  {
    MulStep(w - 1, h);
    MulStep(Mul(w, h) - 1, c);
  }

  /** The source as the level builder sees it; a tile that cannot be read is
      one of no known length, so building over it fails. */
  method OpenPalettedSource(tf: TiledFile, raw: RawTiles, t: Tiling) returns (src: Source)
    requires t.Valid()
    ensures src.Valid() && src.t == t
    ensures forall cx: nat, cy: nat {:trigger src.Bad(cx, cy)} :: cx < t.Across() && cy < t.Down() ==>
              var tile := RawTile(tf, raw, t, Off(t.Across(), cy, cx));
              && (src.Bad(cx, cy) <==> tile.None?)
              && (tile.Some? ==> src.Chunk(cx, cy) == tile.value)
  {
    hide Mul, Div, Mod;
    var n := Mul(t.Down(), t.Across());
    var chunks: seq<seq<byte>> := [];
    for i := 0 to n
      invariant |chunks| == i
      invariant forall k: nat :: k < i ==> chunks[k] == var tile := RawTile(tf, raw, t, k); if tile.Some? then tile.value else []
    {
      var tile := ReadRawTile(tf, raw, t, i);
      chunks := chunks + [if tile.Ok? then tile.value else []];
    }
    src := Source(t, chunks);
    forall cx: nat, cy: nat | cx < t.Across() && cy < t.Down()
      ensures var tile := RawTile(tf, raw, t, Off(t.Across(), cy, cx));
              && (src.Bad(cx, cy) <==> tile.None?)
              && (tile.Some? ==> src.Chunk(cx, cy) == tile.value)
    {
      OffInside(t.Across(), t.Down());
      NothingIsNoTile(t, cx, cy);
    }
  }
}
