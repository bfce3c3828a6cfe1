/** Building the tile pyramid of a COG one band at a time. */
module Author {
  import opened Wrappers
  import opened Grid
  import opened Raster
  import opened Chunks
  import opened Deflate

  /** One finished output level: its tile grid and the compressed tiles. */
  datatype LevelBuild = LevelBuild(width: nat, height: nat, tileSize: nat, tilesAcross: nat, tiles: seq<seq<byte>>)

  function TilesAcross(img: Image, ts: nat): nat
    requires ts > 0
  {
    CeilDiv(img.w, ts)
  }

  function TilesDown(img: Image, ts: nat): nat
    requires ts > 0
  {
    CeilDiv(img.h, ts)
  }

  /** Byte `b` of row `y` of the image, zero beyond its edges. */
  function PaddedByte(img: Image, y: nat, b: nat): byte
    requires img.c > 0
  {
    if y < img.h && b < Mul(img.w, img.c) then ByteAt(img, y, b) else 0
  }

  /** `tile` is tile (tr, tc) of the image, zero-padded at the edges. */
  ghost predicate TileShows(tile: seq<byte>, img: Image, ts: nat, tr: nat, tc: nat)
    requires img.c > 0
  {
    var tn := Mul(ts, img.c);
    && |tile| == Mul(ts, tn)
    && forall ty: nat, tb: nat {:trigger Cell(tile, tn, ty, tb)} :: ty < ts && tb < tn ==>
         Cell(tile, tn, ty, tb) == PaddedByte(img, Off(ts, tr, ty), Off(tn, tc, tb))
  }

  /** `stored` is what the codec makes of tile (tr, tc). */
  ghost predicate StoredTile(codec: Codec, stored: seq<byte>, img: Image, ts: nat, tr: nat, tc: nat)
    requires img.c > 0
  {
    && codec.inflate(stored).Some?
    && stored == codec.deflate(codec.inflate(stored).value)
    && TileShows(codec.inflate(stored).value, img, ts, tr, tc)
  }

  /** The tiles so far, row-major, are those of the image. */
  ghost predicate TilesShow(codec: Codec, tiles: seq<seq<byte>>, img: Image, ts: nat)
    requires img.c > 0 && ts > 0
  {
    forall tr: nat, tc: nat {:trigger Off(TilesAcross(img, ts), tr, tc)} ::
      tc < TilesAcross(img, ts) && Off(TilesAcross(img, ts), tr, tc) < |tiles| ==>
        StoredTile(codec, tiles[Off(TilesAcross(img, ts), tr, tc)], img, ts, tr, tc)
  }

  /** The level's tiles are exactly the tiles of `img`. */
  ghost predicate LevelShows(level: LevelBuild, codec: Codec, img: Image) {
    && img.w > 0 && img.h > 0 && img.c > 0 && level.tileSize > 0
    && level.width == img.w && level.height == img.h
    && level.tilesAcross == TilesAcross(img, level.tileSize)
    && |level.tiles| == Mul(TilesDown(img, level.tileSize), level.tilesAcross)
    && TilesShow(codec, level.tiles, img, level.tileSize)
  }

  // ---- Tiles out of a band -----------------------------------------------

  /** Zero-pads `validW` columns of the band, from `x0` on, into a full tile. */
  method ExtractPaddedTile(band: seq<byte>, bandWidth: nat, bandHeight: nat, x0: nat, validW: nat, ts: nat, c: nat)
    returns (tile: seq<byte>)
    requires c > 0 && |band| == Mul(bandHeight, Mul(bandWidth, c))
    requires x0 + validW <= bandWidth && validW <= ts
    ensures |tile| == Mul(ts, Mul(ts, c))
    ensures forall ty: nat, tb: nat {:trigger Cell(tile, Mul(ts, c), ty, tb)} :: ty < ts && tb < Mul(ts, c) ==>
              Cell(tile, Mul(ts, c), ty, tb) ==
              if ty < bandHeight && tb < Mul(validW, c) then Cell(band, Mul(bandWidth, c), ty, Mul(x0, c) + tb) else 0
  {
    hide Mul, Div, Mod;
    var buf := ZeroPixels(ts, ts, c);
    ghost var n, tn := Mul(bandWidth, c), Mul(ts, c);
    var copyLen := Mul(validW, c);
    RunFits(x0, validW, bandWidth, c);
    RunFits(0, validW, ts, c);
    MulStep(0, c);
    for row := 0 to Min(bandHeight, ts)
      invariant forall ty: nat, tb: nat {:trigger Cell(buf[..], tn, ty, tb)} :: ty < ts && tb < tn ==>
                  Cell(buf[..], tn, ty, tb) == if ty < row && tb < copyLen then Cell(band, n, ty, Mul(x0, c) + tb) else 0
    {
      var srcOff := PixelIndex(bandWidth, c, row, x0);
      var dstOff := PixelIndex(ts, c, row, 0);
      OffInside(n, bandHeight);
      assert Mul(row, n) + n <= |band|;
      SpliceCells(buf[..], tn, ts, row, 0, band[srcOff..srcOff + copyLen]);
      CopyRun(buf, dstOff, band[srcOff..srcOff + copyLen]);
    }
    tile := buf[..];
  }

  /** The columns of tile `tc`, in bytes: either a whole tile width, or up to
      the right edge of the image. */
  lemma TileColumns(w: nat, ts: nat, c: nat, tc: nat)
    requires Mul(tc, ts) < w
    ensures Mul(Mul(tc, ts), c) == Mul(tc, Mul(ts, c))
    ensures var realW := Min(ts, w - Mul(tc, ts));
            && Mul(realW, c) <= Mul(ts, c)
            && (realW == ts || Mul(tc, Mul(ts, c)) + Mul(realW, c) == Mul(w, c))
            && Mul(tc, Mul(ts, c)) + Mul(realW, c) <= Mul(w, c)
  {
    var realW := Min(ts, w - Mul(tc, ts));
    MulLaws(tc, ts, c);
    RunFits(0, realW, ts, c);
    RunFits(Mul(tc, ts), realW, w, c);
    MulLaws(Mul(tc, ts), realW, c);
  }

  /** Cutting a band of the image gives that tile row's tiles. */
  lemma BandTile(tile: seq<byte>, band: seq<byte>, img: Image, ts: nat, tr: nat, tc: nat)
    requires img.c > 0 && ts > 0 && Mul(tr, ts) < img.h && Mul(tc, ts) < img.w
    requires RowsOf(band, img, Mul(tr, ts), Min(ts, img.h - Mul(tr, ts)))
    requires var c, bandH, validW := img.c, Min(ts, img.h - Mul(tr, ts)), Min(ts, img.w - Mul(tc, ts));
             && |tile| == Mul(ts, Mul(ts, c))
             && forall ty: nat, tb: nat {:trigger Cell(tile, Mul(ts, c), ty, tb)} :: ty < ts && tb < Mul(ts, c) ==>
                  Cell(tile, Mul(ts, c), ty, tb) ==
                  if ty < bandH && tb < Mul(validW, c) then Cell(band, Mul(img.w, c), ty, Mul(Mul(tc, ts), c) + tb) else 0
    ensures TileShows(tile, img, ts, tr, tc)
  {
    hide Mul, Div, Mod;
    TileColumns(img.w, ts, img.c, tc);
  }

  /** Cuts one band into tiles and appends their compressed form. */
  method PushTileRow(codec: Codec, tiles: seq<seq<byte>>, band: seq<byte>, bandH: nat, ts: nat, tr: nat, w: nat, c: nat, ghost img: Image)
    returns (more: seq<seq<byte>>)
    requires Lossless(codec) && img.c > 0 && ts > 0 && w == img.w && c == img.c
    requires Mul(tr, ts) < img.h && bandH == Min(ts, img.h - Mul(tr, ts))
    requires RowsOf(band, img, Mul(tr, ts), bandH)
    requires |tiles| == Mul(tr, TilesAcross(img, ts)) && TilesShow(codec, tiles, img, ts)
    ensures |more| == Mul(tr + 1, TilesAcross(img, ts)) && TilesShow(codec, more, img, ts)
  {
    hide Mul, Div, Mod;
    more := tiles;
    ghost var across := TilesAcross(img, ts);
    for tileCol := 0 to CeilDiv(w, ts)
      invariant |more| == Off(across, tr, tileCol)
      invariant TilesShow(codec, more, img, ts)
    {
      var x0 := Mul(tileCol, ts);
      CeilDivBlocks(w, ts, tileCol);
      var validW := Min(ts, w - x0);
      var tile := ExtractPaddedTile(band, w, bandH, x0, validW, ts, c);
      BandTile(tile, band, img, ts, tr, tileCol);
      assert codec.inflate(codec.deflate(tile)) == Some(tile);
      OffInjective(across, tr, tileCol);
      more := more + [codec.deflate(tile)];
    }
    MulStep(tr, across);
  }

  // ---- Reading a band back -----------------------------------------------

  /** Bytes pasted from a tile of the image are the image's own. */
  lemma PastedTile(before: seq<byte>, after: seq<byte>, tile: seq<byte>, img: Image, ts: nat, tr: nat, tc: nat,
                   y0: nat, bandH: nat, lo: nat, hi: nat, realW: nat)
    requires img.c > 0 && ts > 0 && TileShows(tile, img, ts, tr, tc)
    requires Mul(tc, ts) < img.w && realW == Min(ts, img.w - Mul(tc, ts))
    requires Mul(tr, ts) <= lo && y0 <= lo && hi <= Mul(tr, ts) + ts && hi <= y0 + bandH && hi <= img.h
    requires forall r: nat, b: nat {:trigger Cell(after, Mul(img.w, img.c), r, b)} :: r < bandH && b < Mul(img.w, img.c) ==>
               Cell(after, Mul(img.w, img.c), r, b) ==
               if lo <= y0 + r < hi && Mul(Mul(tc, ts), img.c) <= b < Mul(Mul(tc, ts), img.c) + Mul(realW, img.c)
               then Cell(tile, Mul(ts, img.c), y0 + r - Mul(tr, ts), b - Mul(Mul(tc, ts), img.c))
               else Cell(before, Mul(img.w, img.c), r, b)
    ensures forall r: nat, b: nat {:trigger Cell(after, Mul(img.w, img.c), r, b)} :: r < bandH && b < Mul(img.w, img.c) ==>
              Cell(after, Mul(img.w, img.c), r, b) ==
              if lo <= y0 + r < hi && Off(Mul(ts, img.c), tc, 0) <= b < Off(Mul(ts, img.c), tc + 1, 0)
              then ByteAt(img, y0 + r, b)
              else Cell(before, Mul(img.w, img.c), r, b)
  {
    hide Mul, Div, Mod;
    var n, tn, left := Mul(img.w, img.c), Mul(ts, img.c), Mul(Mul(tc, ts), img.c);
    TileColumns(img.w, ts, img.c, tc);
    MulStep(tc, tn);
    forall r: nat, b: nat | r < bandH && b < n && lo <= y0 + r < hi && left <= b < left + tn
      ensures Cell(after, n, r, b) == ByteAt(img, y0 + r, b)
    {
      assert Off(ts, tr, y0 + r - Mul(tr, ts)) == y0 + r;
      assert Off(tn, tc, b - left) == b;
      assert Cell(tile, tn, y0 + r - Mul(tr, ts), b - left) == PaddedByte(img, y0 + r, b);
    }
  }

  /** All tile columns together reach the right edge. */
  lemma ColumnsCover(w: nat, ts: nat, c: nat)
    requires ts > 0
    ensures Mul(w, c) <= Mul(CeilDiv(w, ts), Mul(ts, c))
  {
    CeilDivBlocks(w, ts, CeilDiv(w, ts));
    MulLaws(CeilDiv(w, ts), ts, c);
    MulLe(w, Mul(CeilDiv(w, ts), ts), c);
  }

  /** Decodes one row of tiles into the part of the band it covers. */
  method ReadTileRow(codec: Codec, level: LevelBuild, out: array<byte>, tileRow: nat, y0: nat, bandH: nat, c: nat, ghost img: Image)
    requires LevelShows(level, codec, img) && c == img.c
    requires y0 + bandH <= level.height && Mul(tileRow, level.tileSize) < level.height
    requires out.Length == Mul(bandH, Mul(level.width, c))
    requires Mul(tileRow, level.tileSize) < y0 + bandH && y0 < Mul(tileRow, level.tileSize) + level.tileSize
    modifies out
    ensures forall r: nat, b: nat {:trigger Cell(out[..], Mul(level.width, c), r, b)} :: r < bandH && b < Mul(level.width, c) ==>
              Cell(out[..], Mul(level.width, c), r, b) ==
              if Mul(tileRow, level.tileSize) <= y0 + r < Mul(tileRow, level.tileSize) + level.tileSize
              then ByteAt(img, y0 + r, b)
              else Cell(old(out[..]), Mul(level.width, c), r, b)
  {
    hide Mul, Div, Mod;
    var w, ts := level.width, level.tileSize;
    ghost var n, tn := Mul(w, c), Mul(ts, c);
    MulStep(0, tn);
    var originY := Mul(tileRow, ts);
    var realH := Min(ts, level.height - originY);
    var lo, hi := Max(y0, originY), Min(y0 + bandH, originY + realH);
    CeilDivBlocks(level.height, ts, tileRow);
    OffInside(level.tilesAcross, TilesDown(img, ts));
    MulLe(hi - originY, ts, tn);
    for tileCol := 0 to level.tilesAcross
      invariant forall r: nat, b: nat {:trigger Cell(out[..], n, r, b)} :: r < bandH && b < n ==>
                  Cell(out[..], n, r, b) ==
                  if originY <= y0 + r < originY + ts && b < Off(tn, tileCol, 0)
                  then ByteAt(img, y0 + r, b)
                  else Cell(old(out[..]), n, r, b)
    {
      var originX := Mul(tileCol, ts);
      CeilDivBlocks(w, ts, tileCol);
      var realW := Min(ts, w - originX);
      var index := Off(level.tilesAcross, tileRow, tileCol);
      var tile := codec.inflate(level.tiles[index]).value;
      ghost var before := out[..];
      PasteRows(out, w, bandH, y0, c, originX, tile, ts, originY, lo, hi, realW);
      PastedTile(before, out[..], tile, img, ts, tileRow, tileCol, y0, bandH, lo, hi, realW);
      MulStep(tileCol, tn);
    }
    ColumnsCover(w, ts, c);
  }

  /** Rows `[y0, y0 + bandH)` out of a finished level's own tiles, their
      padding dropped. */
  method ReadLevelBand(codec: Codec, level: LevelBuild, y0: nat, bandH: nat, c: nat, ghost img: Image)
    returns (band: seq<byte>)
    requires LevelShows(level, codec, img) && c == img.c
    requires 0 < bandH && y0 + bandH <= level.height
    ensures RowsOf(band, img, y0, bandH)
  {
    hide Mul, Div, Mod;
    var w, ts := level.width, level.tileSize;
    ghost var n := Mul(w, c);
    var out := ZeroPixels(w, bandH, c);
    var tileRow0 := Div(y0, ts);
    var tileRow1 := Div(y0 + bandH - 1, ts);
    BlockOf(y0, ts);
    BlockOf(y0 + bandH - 1, ts);
    BlocksAscend(y0, y0 + bandH - 1, ts);
    MulStep(tileRow1, ts);
    for tileRow := tileRow0 to tileRow1 + 1
      invariant forall r: nat, b: nat {:trigger Cell(out[..], n, r, b)} :: r < bandH && b < n && y0 + r < Mul(tileRow, ts) ==>
                  Cell(out[..], n, r, b) == ByteAt(img, y0 + r, b)
    {
      MulLe(tileRow0, tileRow, ts);
      MulLe(tileRow, tileRow1, ts);
      ReadTileRow(codec, level, out, tileRow, y0, bandH, c, img);
      MulStep(tileRow, ts);
    }
    band := out[..];
  }

  // ---- The two kernels on a band -----------------------------------------

  /** The up to four samples of one 2x2 block, added up. */
  method SumBlock(src: seq<byte>, srcW: nat, srcH: nat, c: nat, dx: nat, dy: nat, k: nat) returns (sum: nat)
    requires k < c && 2 * dx < srcW && 2 * dy < srcH && |src| == Mul(srcH, Mul(srcW, c))
    ensures sum == BlockSum(View(src, srcW, srcH, c), dx, dy, k)
  {
    hide Mul, Div, Mod;
    var sx0, sy0 := dx * 2, dy * 2;
    var rowCount := if sy0 + 1 < srcH then 2 else 1;
    var colCount := if sx0 + 1 < srcW then 2 else 1;
    ghost var v := View(src, srcW, srcH, c);
    ghost var top := v.at(sx0, sy0, k) + if colCount == 2 then v.at(sx0 + 1, sy0, k) else 0;
    sum := 0;
    for dy2 := 0 to rowCount
      invariant sum == (if dy2 == 0 then 0 else if dy2 == 1 then top else BlockSum(v, dx, dy, k))
    {
      ghost var base := sum;
      var sy := sy0 + dy2;
      for dx2 := 0 to colCount
        invariant sum == base + (if dx2 == 0 then 0 else if dx2 == 1 then v.at(sx0, sy, k) else v.at(sx0, sy, k) + v.at(sx0 + 1, sy, k))
      {
        var off := SampleIndex(srcW, srcH, c, sx0 + dx2, sy, k);
        sum := sum + src[off];
      }
    }
  }

  /** `(y * width + x) * channels + k`, the position of a sample. */
  method SampleIndex(w: nat, ghost h: nat, c: nat, x: nat, y: nat, k: nat) returns (i: nat)
    requires x < w && y < h && k < c
    ensures i == Off(Mul(w, c), y, Off(c, x, k)) < Mul(h, Mul(w, c))
    ensures Off(c, x, k) < Mul(w, c)
  {
    i := Mul(Off(w, y, x), c) + k;
    SampleOffset(w, h, c, x, y, k);
  }

  lemma SampleOffset(w: nat, h: nat, c: nat, x: nat, y: nat, k: nat)
    requires x < w && y < h && k < c
    ensures Mul(Off(w, y, x), c) + k == Off(Mul(w, c), y, Off(c, x, k)) < Mul(h, Mul(w, c))
    ensures Off(c, x, k) < Mul(w, c)
  {
    PixelOffset(w, c, y, x);
    OffRows(c, x, w);
    OffInside(Mul(w, c), h);
  }

  /** The first `done` bytes of row `dy`, and all rows before it, are those of `img`. */
  ghost predicate FilledTo(buf: seq<byte>, img: Image, dy: nat, done: nat)
    requires img.c > 0
  {
    && |buf| == Mul(img.h, Mul(img.w, img.c))
    && forall r: nat, b: nat {:trigger Cell(buf, Mul(img.w, img.c), r, b)} ::
         r < img.h && b < Mul(img.w, img.c) && (r < dy || (r == dy && b < done)) ==>
           Cell(buf, Mul(img.w, img.c), r, b) == ByteAt(img, r, b)
  }

  /** Writing the next bytes of the row keeps it filled. */
  lemma FillOn(buf: seq<byte>, img: Image, dy: nat, done: nat, piece: seq<byte>)
    requires img.c > 0 && FilledTo(buf, img, dy, done)
    requires dy < img.h && done + |piece| <= Mul(img.w, img.c)
    requires forall i: nat :: i < |piece| ==> piece[i] == ByteAt(img, dy, done + i)
    ensures Off(Mul(img.w, img.c), dy, done) + |piece| <= |buf|
    ensures FilledTo(Splice(buf, Off(Mul(img.w, img.c), dy, done), piece), img, dy, done + |piece|)
  {
    hide Mul, Div, Mod;
    SpliceCells(buf, Mul(img.w, img.c), img.h, dy, done, piece);
  }

  /** From the empty buffer over row after row to all rows. */
  lemma FillRows(buf: seq<byte>, img: Image, dy: nat)
    requires img.c > 0 && |buf| == Mul(img.h, Mul(img.w, img.c))
    ensures FilledTo(buf, img, 0, 0)
    ensures FilledTo(buf, img, dy, Mul(img.w, img.c)) ==> FilledTo(buf, img, dy + 1, 0)
    ensures FilledTo(buf, img, img.h, 0) ==> RowsOf(buf, img, 0, img.h)
  {
    hide Mul, Cell, ByteAt;
  }

  /** Box-averages `src` 2x2 into a buffer of half the size, rounded up. */
  method DownsampleBlock(src: seq<byte>, srcW: nat, srcH: nat, c: nat) returns (out: seq<byte>, dstW: nat, dstH: nat)
    requires c > 0 && |src| == Mul(srcH, Mul(srcW, c))
    ensures dstW == Half(srcW) && dstH == Half(srcH)
    ensures RowsOf(out, Halve(Average, View(src, srcW, srcH, c)), 0, dstH)
  {
    hide Mul, Div, Mod, FilledTo, RowsOf, Cell;
    dstW, dstH := Half(srcW), Half(srcH);
    MulStep(0, c);
    ghost var half := Halve(Average, View(src, srcW, srcH, c));
    var dst := ZeroPixels(dstW, dstH, c);
    FillRows(dst[..], half, 0);
    for dy := 0 to dstH
      invariant FilledTo(dst[..], half, dy, 0)
    {
      var rowCount := if dy * 2 + 1 < srcH then 2 else 1;
      for dx := 0 to dstW
        invariant FilledTo(dst[..], half, dy, Mul(dx, c))
      {
        var colCount := if dx * 2 + 1 < srcW then 2 else 1;
        for k := 0 to c
          invariant FilledTo(dst[..], half, dy, Off(c, dx, k))
        {
          var sum := SumBlock(src, srcW, srcH, c, dx, dy, k);
          var count := rowCount * colCount;
          assert (sum + count / 2) / count == AverageAt(View(src, srcW, srcH, c), dx, dy, k);
          var avg: byte := (sum + count / 2) / count;
          var off := SampleIndex(dstW, dstH, c, dx, dy, k);
          ByteOfSample(half, dx, dy, k);
          FillOn(dst[..], half, dy, Off(c, dx, k), [avg]);
          CopyRun(dst, off, [avg]);
        }
        MulStep(dx, c);
      }
      FillRows(dst[..], half, dy);
    }
    FillRows(dst[..], half, dstH);
    out := dst[..];
  }

  /** A pixel of the nearest-neighbour image is a pixel of its source. */
  lemma NearestPixel(src: seq<byte>, srcW: nat, srcH: nat, c: nat, dx: nat, dy: nat, off: nat, pixel: seq<byte>)
    requires c > 0 && |src| == Mul(srcH, Mul(srcW, c)) && 2 * dx < srcW && 2 * dy < srcH
    requires off == Off(Mul(srcW, c), 2 * dy, Mul(2 * dx, c))
    requires off + c <= |src| && pixel == src[off..off + c]
    ensures forall k: nat :: k < |pixel| ==>
              pixel[k] == ByteAt(Halve(Nearest, View(src, srcW, srcH, c)), dy, Mul(dx, c) + k)
  {
    hide Mul, Div, Mod;
    var half := Halve(Nearest, View(src, srcW, srcH, c));
    forall k: nat | k < |pixel| ensures pixel[k] == ByteAt(half, dy, Mul(dx, c) + k) {
      hide ByteAt, Halve;
      NearestSample(src, srcW, srcH, c, dx, dy, k);
    }
  }

  lemma NearestSample(src: seq<byte>, srcW: nat, srcH: nat, c: nat, dx: nat, dy: nat, k: nat)
    requires c > 0 && |src| == Mul(srcH, Mul(srcW, c)) && 2 * dx < srcW && 2 * dy < srcH && k < c
    ensures Off(Mul(srcW, c), 2 * dy, Off(c, 2 * dx, k)) < |src|
    ensures src[Off(Mul(srcW, c), 2 * dy, Off(c, 2 * dx, k))] == ByteAt(Halve(Nearest, View(src, srcW, srcH, c)), dy, Mul(dx, c) + k)
  {
    hide Mul, Div, Mod;
    ByteOfSample(Halve(Nearest, View(src, srcW, srcH, c)), dx, dy, k);
    SampleOffset(srcW, srcH, c, 2 * dx, 2 * dy, k);
  }

  /** Keeps the top-left sample of every 2x2 block of `src`. */
  method DownsampleNearest(src: seq<byte>, srcW: nat, srcH: nat, c: nat) returns (out: seq<byte>, dstW: nat, dstH: nat)
    requires c > 0 && |src| == Mul(srcH, Mul(srcW, c))
    ensures dstW == Half(srcW) && dstH == Half(srcH)
    ensures RowsOf(out, Halve(Nearest, View(src, srcW, srcH, c)), 0, dstH)
  {
    hide Mul, Div, Mod, FilledTo, RowsOf, Cell;
    dstW, dstH := Half(srcW), Half(srcH);
    ghost var half := Halve(Nearest, View(src, srcW, srcH, c));
    var dst := ZeroPixels(dstW, dstH, c);
    FillRows(dst[..], half, 0);
    MulStep(0, c);
    for dy := 0 to dstH
      invariant FilledTo(dst[..], half, dy, 0)
    {
      var sy := dy * 2;
      for dx := 0 to dstW
        invariant FilledTo(dst[..], half, dy, Mul(dx, c))
      {
        var sx := dx * 2;
        var srcOff := PixelIndex(srcW, c, sy, sx);
        var dstOff := PixelIndex(dstW, c, dy, dx);
        SampleOffset(srcW, srcH, c, sx, sy, c - 1);
        SampleOffset(dstW, dstH, c, dx, dy, c - 1);
        var pixel := src[srcOff..srcOff + c];
        NearestPixel(src, srcW, srcH, c, dx, dy, srcOff, pixel);
        FillOn(dst[..], half, dy, Mul(dx, c), pixel);
        CopyRun(dst, dstOff, pixel);
        MulStep(dx, c);
      }
      FillRows(dst[..], half, dy);
    }
    FillRows(dst[..], half, dstH);
    out := dst[..];
  }

  // ---- One overview level ------------------------------------------------

  /** A halved band is the matching rows of the halved image. */
  lemma HalvedBand(kernel: Kernel, half: seq<byte>, band: seq<byte>, img: Image, y0: nat, rows: nat)
    requires img.c > 0 && RowsOf(band, img, 2 * y0, rows)
    requires 2 * y0 + rows <= img.h && (rows % 2 == 0 || 2 * y0 + rows == img.h)
    requires RowsOf(half, Halve(kernel, View(band, img.w, rows, img.c)), 0, Half(rows))
    ensures RowsOf(half, Halve(kernel, img), y0, Half(rows))
  {
    hide Mul, Div, Mod;
    var c, w := img.c, Half(img.w);
    var a, z := Halve(kernel, View(band, img.w, rows, c)), Halve(kernel, img);
    forall r: nat, b: nat {:trigger Cell(half, Mul(w, c), r, b)} | r < Half(rows) && b < Mul(w, c)
      ensures Cell(half, Mul(w, c), r, b) == ByteAt(z, y0 + r, b)
    {
      OffColumns(c, w, b);
      BandHalves(kernel, band, img, y0, rows, Div(b, c), r, Mod(b, c));
      assert Cell(half, Mul(w, c), r, b) == ByteAt(a, 0 + r, b);
    }
  }

  /** The next-coarser level's band of rows, from the previous level's tiles. */
  method DownsampleBand(codec: Codec, prev: LevelBuild, c: nat, kernel: Kernel, newY0: nat, newBandH: nat, ghost img: Image)
    returns (newBand: seq<byte>)
    requires LevelShows(prev, codec, img) && c == img.c
    requires 0 < newBandH && newY0 + newBandH <= Half(prev.height)
    ensures RowsOf(newBand, Halve(kernel, img), newY0, newBandH)
  {
    var prevY0 := newY0 * 2;
    var prevBandH := Min(newBandH * 2, prev.height - prevY0);
    var prevBand := ReadLevelBand(codec, prev, prevY0, prevBandH, c, img);
    var newBandW, computedBandH;
    match kernel {
      case Average => newBand, newBandW, computedBandH := DownsampleBlock(prevBand, prev.width, prevBandH, c);
      case Nearest => newBand, newBandW, computedBandH := DownsampleNearest(prevBand, prev.width, prevBandH, c);
    }
    assert newBandW == Half(prev.width) && computedBandH == newBandH;
    HalvedBand(kernel, newBand, prevBand, img, newY0, prevBandH);
  }

  /** Builds the next-coarser level from the tiles of the previous one, two of
      its tile rows at a time. */
  method DownsampleBuild(codec: Codec, prev: LevelBuild, c: nat, ts: nat, kernel: Kernel, ghost img: Image)
    returns (next: LevelBuild)
    requires Lossless(codec) && LevelShows(prev, codec, img) && c == img.c && ts > 0
    ensures LevelShows(next, codec, Halve(kernel, img)) && next.tileSize == ts
  {
    hide Mul, Div, Mod;
    var newWidth, newHeight := Half(prev.width), Half(prev.height);
    ghost var half := Halve(kernel, img);
    var tiles: seq<seq<byte>> := [];
    MulStep(0, TilesAcross(half, ts));
    for newTileRow := 0 to CeilDiv(newHeight, ts)
      invariant |tiles| == Mul(newTileRow, TilesAcross(half, ts))
      invariant TilesShow(codec, tiles, half, ts)
    {
      var newY0 := Mul(newTileRow, ts);
      CeilDivBlocks(newHeight, ts, newTileRow);
      var newBandH := Min(ts, newHeight - newY0);
      var newBand := DownsampleBand(codec, prev, c, kernel, newY0, newBandH, img);
      tiles := PushTileRow(codec, tiles, newBand, newBandH, ts, newTileRow, newWidth, c, half);
    }
    next := LevelBuild(newWidth, newHeight, ts, CeilDiv(newWidth, ts), tiles);
  }
}
