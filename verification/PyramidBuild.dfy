/** From a plain source raster to the finished levels of a COG. */
module PyramidBuild {
  import opened Wrappers
  import opened Grid
  import opened Raster
  import opened Chunks
  import opened Deflate
  import opened Author

  datatype ResampleMode = Auto | NearestNeighbor | BoxAverage

  datatype AuthorError = ZeroTileSize | AveragedPalette | ChunkLength

  /** The single-resolution input: its chunks, decoded, row-major. */
  datatype Source = Source(t: Tiling, chunks: seq<seq<byte>>) {
    predicate Valid() {
      t.Valid() && |chunks| == Mul(t.Down(), t.Across())
    }

    function Chunk(cx: nat, cy: nat): seq<byte>
      requires Valid()
    {
      var i := Off(t.Across(), cy, cx);
      if i < |chunks| then chunks[i] else []
    }

    predicate Bad(cx: nat, cy: nat)
      requires Valid()
    {
      t.BadLength(cx, cy, |Chunk(cx, cy)|)
    }

    /** Every chunk was produced from `img`, or is of no known length. */
    ghost predicate Shows(img: Image)
      requires Valid()
    {
      && t.Fits(img)
      && forall cx: nat, cy: nat :: cx < t.Across() && cy < t.Down() ==> Bad(cx, cy) || t.Shows(Chunk(cx, cy), img, cx, cy)
    }
  }

  /** Some chunk with rows in `[a, b)` has a length no layout has. */
  ghost predicate BadRows(src: Source, a: nat, b: nat)
    requires src.Valid()
  {
    exists cx: nat, cy: nat :: cx < src.t.Across() && cy < src.t.Down() && src.Bad(cx, cy)
                               && Mul(cy, src.t.chunkH) < b && a < Mul(cy, src.t.chunkH) + src.t.chunkH
  }

  /** What one chunk of the image contributes to a band. */
  lemma PastedChunk(t: Tiling, img: Image, before: seq<byte>, after: seq<byte>, chunk: seq<byte>, cx: nat, cy: nat, stride: nat,
                    y0: nat, bandH: nat, lo: nat, hi: nat)
    requires t.Valid() && t.Fits(img) && Mul(cx, t.chunkW) < img.w
    requires t.Holds(chunk, img, cx, cy, stride) && Mul(cy, t.chunkH) < img.h
    requires Mul(cy, t.chunkH) <= lo && y0 <= lo && hi <= Mul(cy, t.chunkH) + t.DataH(cy)
    requires var n, left := Mul(img.w, img.c), Mul(Mul(cx, t.chunkW), img.c);
             forall r: nat, b: nat {:trigger Cell(after, n, r, b)} :: r < bandH && b < n ==>
               Cell(after, n, r, b) ==
               if lo <= y0 + r < hi && left <= b < left + Mul(t.DataW(cx), img.c)
               then Cell(chunk, Mul(stride, img.c), y0 + r - Mul(cy, t.chunkH), b - left)
               else Cell(before, n, r, b)
    ensures var n, tn := Mul(img.w, img.c), Mul(t.chunkW, img.c);
            forall r: nat, b: nat {:trigger Cell(after, n, r, b)} :: r < bandH && b < n ==>
              Cell(after, n, r, b) ==
              if lo <= y0 + r < hi && Mul(cx, tn) <= b < Mul(cx + 1, tn) then ByteAt(img, y0 + r, b) else Cell(before, n, r, b)
  {
    hide Mul, Div, Mod;
    var n, tn := Mul(img.w, img.c), Mul(t.chunkW, img.c);
    TileColumns(img.w, t.chunkW, img.c, cx);
    MulStep(cx, tn);
    forall r: nat, b: nat | r < bandH && b < n && lo <= y0 + r < hi && Mul(cx, tn) <= b < Mul(cx + 1, tn)
      ensures Cell(after, n, r, b) == ByteAt(img, y0 + r, b)
    {
      var ly, lb := y0 + r - Mul(cy, t.chunkH), b - Mul(cx, tn);
      assert Off(t.chunkH, cy, ly) == y0 + r && Off(tn, cx, lb) == b;
      assert Cell(chunk, Mul(stride, img.c), ly, lb) == ByteAt(img, y0 + r, b);
    }
  }

  /** Decodes one row of source chunks into the part of the band it covers;
      gives up at the first chunk whose length fits no layout. */
  method ReadChunkRow(src: Source, out: array<byte>, cy: nat, y0: nat, bandH: nat, ghost img: Image) returns (ok: bool)
    requires src.Valid() && src.Shows(img)
    requires cy < src.t.Down() && y0 + bandH <= img.h
    requires Mul(cy, src.t.chunkH) < y0 + bandH && y0 < Mul(cy, src.t.chunkH) + src.t.chunkH
    requires out.Length == Mul(bandH, Mul(img.w, img.c))
    modifies out
    ensures ok <==> forall cx: nat :: cx < src.t.Across() ==> !src.Bad(cx, cy)
    ensures ok ==> forall r: nat, b: nat {:trigger Cell(out[..], Mul(img.w, img.c), r, b)} :: r < bandH && b < Mul(img.w, img.c) ==>
              Cell(out[..], Mul(img.w, img.c), r, b) ==
              if Mul(cy, src.t.chunkH) <= y0 + r < Mul(cy, src.t.chunkH) + src.t.chunkH
              then ByteAt(img, y0 + r, b)
              else Cell(old(out[..]), Mul(img.w, img.c), r, b)
  {
    hide Mul, Div, Mod;
    var t := src.t;
    ghost var n, tn := Mul(t.width, t.channels), Mul(t.chunkW, t.channels);
    MulStep(0, tn);
    var originY := Mul(cy, t.chunkH);
    CeilDivBlocks(t.height, t.chunkH, cy);
    var dataH := t.DataH(cy);
    var lo, hi := Max(y0, originY), Min(y0 + bandH, originY + dataH);
    for cx := 0 to t.Across()
      invariant forall x: nat :: x < cx ==> !src.Bad(x, cy)
      invariant forall r: nat, b: nat {:trigger Cell(out[..], n, r, b)} :: r < bandH && b < n ==>
                  Cell(out[..], n, r, b) ==
                  if originY <= y0 + r < originY + t.chunkH && b < Mul(cx, tn)
                  then ByteAt(img, y0 + r, b)
                  else Cell(old(out[..]), n, r, b)
    {
      var chunk := src.Chunk(cx, cy);
      t.LayoutIsRight(chunk, img, cx, cy);
      var layout := t.Layout(cx, cy, |chunk|);
      if layout.None? {
        return false;
      }
      var (stride, rows) := layout.value;
      var originX := Mul(cx, t.chunkW);
      var run := Min(originX + Min(t.DataW(cx), stride), t.width) - originX;
      ghost var before := out[..];
      MulLe(hi - originY, rows, Mul(stride, t.channels));
      PasteRows(out, t.width, bandH, y0, t.channels, originX, chunk, stride, originY, lo, hi, run);
      PastedChunk(t, img, before, out[..], chunk, cx, cy, stride, y0, bandH, lo, hi);
      MulStep(cx, tn);
    }
    ColumnsCover(t.width, t.chunkW, t.channels);
    ok := true;
  }

  /** Rows `[y0, y0 + bandH)` of the source, whatever its chunks look like. */
  method ReadSourceRows(src: Source, y0: nat, bandH: nat, ghost img: Image) returns (r: Result<seq<byte>, AuthorError>)
    requires src.Valid() && src.Shows(img)
    requires 0 < bandH && y0 + bandH <= img.h
    ensures r.Err? <==> BadRows(src, y0, y0 + bandH)
    ensures r.Ok? ==> RowsOf(r.value, img, y0, bandH)
  {
    hide Mul, Div, Mod;
    var t := src.t;
    ghost var n := Mul(t.width, t.channels);
    var out := ZeroPixels(t.width, bandH, t.channels);
    var chunkY0 := Div(y0, t.chunkH);
    var chunkY1 := Div(y0 + bandH - 1, t.chunkH);
    BlockOf(y0, t.chunkH);
    BlockOf(y0 + bandH - 1, t.chunkH);
    BlocksAscend(y0, y0 + bandH - 1, t.chunkH);
    CeilDivBlocks(t.height, t.chunkH, chunkY1);
    for cy := chunkY0 to chunkY1 + 1
      invariant forall r: nat, b: nat {:trigger Cell(out[..], n, r, b)} :: r < bandH && b < n && y0 + r < Mul(cy, t.chunkH) ==>
                  Cell(out[..], n, r, b) == ByteAt(img, y0 + r, b)
      invariant forall x: nat, y: nat :: x < t.Across() && chunkY0 <= y < cy ==> !src.Bad(x, y)
    {
      MulLe(chunkY0, cy, t.chunkH);
      MulLe(cy, chunkY1, t.chunkH);
      var ok := ReadChunkRow(src, out, cy, y0, bandH, img);
      if !ok {
        return Err(ChunkLength);
      }
      MulStep(cy, t.chunkH);
    }
    MulStep(chunkY1, t.chunkH);
    forall cx: nat, cy: nat | cx < t.Across() && cy < t.Down() && Mul(cy, t.chunkH) < y0 + bandH && y0 < Mul(cy, t.chunkH) + t.chunkH
      ensures !src.Bad(cx, cy)
    {
      RowsTouch(cy, t.chunkH, y0, y0 + bandH);
    }
    return Ok(out[..]);
  }

  lemma RowsTouch(cy: nat, chunkH: nat, a: nat, b: nat)
    requires chunkH > 0 && a < b && Mul(cy, chunkH) < b && a < Mul(cy, chunkH) + chunkH
    ensures Div(a, chunkH) <= cy <= Div(b - 1, chunkH)
  {
    BlockOf(a, chunkH);
    BlockOf(b - 1, chunkH);
    if cy < Div(a, chunkH) { MulLe(cy + 1, Div(a, chunkH), chunkH); }
    if Div(b - 1, chunkH) < cy { MulLe(Div(b - 1, chunkH) + 1, cy, chunkH); }
  }

  /** Streams the source into the tiles of the main image. */
  method BuildLevel0(codec: Codec, src: Source, ts: nat, ghost img: Image) returns (r: Result<LevelBuild, AuthorError>)
    requires Lossless(codec) && src.Valid() && src.Shows(img) && ts > 0
    ensures r.Err? <==> BadRows(src, 0, src.t.height)
    ensures r.Ok? ==> LevelShows(r.value, codec, img) && r.value.tileSize == ts
  {
    hide Mul, Div, Mod;
    var tiles: seq<seq<byte>> := [];
    var tilesDown := CeilDiv(src.t.height, ts);
    MulStep(0, ts);
    MulStep(0, TilesAcross(img, ts));
    for tileRow := 0 to tilesDown
      invariant |tiles| == Mul(tileRow, TilesAcross(img, ts))
      invariant TilesShow(codec, tiles, img, ts)
      invariant !BadRows(src, 0, Min(src.t.height, Mul(tileRow, ts)))
    {
      var y0 := Mul(tileRow, ts);
      CeilDivBlocks(src.t.height, ts, tileRow);
      var bandH := Min(ts, src.t.height - y0);
      var band :- ReadSourceRows(src, y0, bandH, img);
      tiles := PushTileRow(codec, tiles, band, bandH, ts, tileRow, src.t.width, src.t.channels, img);
      MulStep(tileRow, ts);
      assert Min(src.t.height, Mul(tileRow + 1, ts)) == y0 + bandH;
    }
    CeilDivBlocks(src.t.height, ts, tilesDown);
    return Ok(LevelBuild(src.t.width, src.t.height, ts, CeilDiv(src.t.width, ts), tiles));
  }

  /** Which kernel the overviews use, or a refusal. */
  function ChooseKernel(mode: ResampleMode, paletted: bool): Option<Kernel> {
    match mode
    case BoxAverage => if paletted then None else Some(Average)
    case Auto => Some(if paletted then Nearest else Average)
    case NearestNeighbor => Some(Nearest)
  }

  /** The levels are the pyramid of `img`, from the image itself down to the
      first level that fits one tile. */
  ghost predicate ShowsPyramid(levels: seq<LevelBuild>, codec: Codec, kernel: Kernel, img: Image, ts: nat) {
    && |levels| > 0
    && (forall k: nat {:trigger levels[k]} :: k < |levels| ==>
          LevelShows(levels[k], codec, Pyramid(kernel, img, k)) && levels[k].tileSize == ts)
    && (forall k: nat {:trigger levels[k]} :: k < |levels| - 1 ==> levels[k].width > ts || levels[k].height > ts)
    && levels[|levels| - 1].width <= ts && levels[|levels| - 1].height <= ts
  }

  /** Every level of the output: the main image, then halved until a level
      fits one tile. */
  method BuildLevels(codec: Codec, src: Source, ts: nat, mode: ResampleMode, paletted: bool, ghost img: Image)
    returns (r: Result<seq<LevelBuild>, AuthorError>)
    requires Lossless(codec) && src.Valid() && src.Shows(img)
    ensures r.Err? <==> ts == 0 || (paletted && mode == BoxAverage) || BadRows(src, 0, src.t.height)
    ensures r.Ok? ==> ShowsPyramid(r.value, codec, if paletted || mode == NearestNeighbor then Nearest else Average, img, ts)
  {
    hide Mul, Div, Mod, TilesShow, BadRows, CeilDiv, Pow2;
    if ts == 0 {
      return Err(ZeroTileSize);
    }
    var choice := ChooseKernel(mode, paletted);
    if choice.None? {
      return Err(AveragedPalette);
    }
    var kernel := choice.value;
    var level0 :- BuildLevel0(codec, src, ts, img);
    var levels := [level0];
    while levels[|levels| - 1].width > ts || levels[|levels| - 1].height > ts
      invariant |levels| > 0
      invariant forall k: nat {:trigger levels[k]} :: k < |levels| ==>
                  LevelShows(levels[k], codec, Pyramid(kernel, img, k)) && levels[k].tileSize == ts
      invariant forall k: nat {:trigger levels[k]} :: k < |levels| - 1 ==> levels[k].width > ts || levels[k].height > ts
      decreases levels[|levels| - 1].width + levels[|levels| - 1].height
    {
      var prev := levels[|levels| - 1];
      ghost var shown := Pyramid(kernel, img, |levels| - 1);
      PyramidSize(kernel, img, |levels| - 1);
      var next := DownsampleBuild(codec, prev, src.t.channels, ts, kernel, shown);
      assert Pyramid(kernel, img, |levels|) == Halve(kernel, shown);
      levels := levels + [next];
    }
    return Ok(levels);
  }
}
