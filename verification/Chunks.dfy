/** Rasters stored in rectangular chunks, and the row-copy loop that every
    reader of chunks shares. */
module Chunks {
  import opened Wrappers
  import opened Grid
  import opened Raster

  /** How an image is cut into chunks. Decoders return an edge chunk either
      padded to the full chunk shape or cut to the data. */
  datatype Tiling = Tiling(width: nat, height: nat, channels: nat, chunkW: nat, chunkH: nat) {
    predicate Valid() {
      width > 0 && height > 0 && channels > 0 && chunkW > 0 && chunkH > 0
    }

    predicate Fits(img: Image) {
      img.w == width && img.h == height && img.c == channels
    }

    function Across(): nat
      requires chunkW > 0
    {
      CeilDiv(width, chunkW)
    }

    function Down(): nat
      requires chunkH > 0
    {
      CeilDiv(height, chunkH)
    }

    /** Columns of real data in a chunk of column `cx`. */
    function DataW(cx: nat): nat {
      if Mul(cx, chunkW) < width then Min(chunkW, width - Mul(cx, chunkW)) else 0
    }

    function DataH(cy: nat): nat {
      if Mul(cy, chunkH) < height then Min(chunkH, height - Mul(cy, chunkH)) else 0
    }

    function PaddedLen(): nat { Mul(Mul(chunkW, chunkH), channels) }

    function UnpaddedLen(cx: nat, cy: nat): nat { Mul(Mul(DataW(cx), DataH(cy)), channels) }

    /** A length that neither layout has. */
    predicate BadLength(cx: nat, cy: nat, len: nat) {
      len != PaddedLen() && len != UnpaddedLen(cx, cy)
    }

    /** `chunk` holds the data of chunk (cx, cy) of `img` in rows of `stridePx`. */
    ghost predicate Holds(chunk: seq<byte>, img: Image, cx: nat, cy: nat, stridePx: nat)
      requires img.c > 0
    {
      forall ly: nat, lb: nat {:trigger Cell(chunk, Mul(stridePx, img.c), ly, lb)} :: ly < DataH(cy) && lb < Mul(DataW(cx), img.c) ==>
        Cell(chunk, Mul(stridePx, img.c), ly, lb) == ByteAt(img, Off(chunkH, cy, ly), Off(Mul(chunkW, img.c), cx, lb))
    }

    /** The chunk was produced from `img` in one of the two layouts. */
    ghost predicate Shows(chunk: seq<byte>, img: Image, cx: nat, cy: nat)
      requires img.c > 0
    {
      || (|chunk| == PaddedLen() && Holds(chunk, img, cx, cy, chunkW))
      || (|chunk| == UnpaddedLen(cx, cy) && Holds(chunk, img, cx, cy, DataW(cx)))
    }

    /** Row stride and height, in pixels, that a decoded length stands for. */
    function Layout(cx: nat, cy: nat, len: nat): Option<(nat, nat)> {
      if len == PaddedLen() then Some((chunkW, chunkH))
      else if len == UnpaddedLen(cx, cy) then Some((DataW(cx), DataH(cy)))
      else None
    }

    /** The layout chosen by length alone is the layout the chunk really has. */
    lemma LayoutIsRight(chunk: seq<byte>, img: Image, cx: nat, cy: nat)
      requires Valid() && Fits(img) && cx < Across() && cy < Down()
      requires BadLength(cx, cy, |chunk|) || Shows(chunk, img, cx, cy)
      ensures Mul(cx, chunkW) < width && Mul(cy, chunkH) < height
      ensures Layout(cx, cy, |chunk|).None? <==> BadLength(cx, cy, |chunk|)
      ensures var layout := Layout(cx, cy, |chunk|);
              layout.Some? ==>
                && Holds(chunk, img, cx, cy, layout.value.0)
                && 0 < DataW(cx) <= layout.value.0 && 0 < DataH(cy) <= layout.value.1
                && |chunk| == Mul(layout.value.1, Mul(layout.value.0, channels))
    {
      CeilDivBlocks(width, chunkW, cx);
      CeilDivBlocks(height, chunkH, cy);
      MulLaws(chunkW, chunkH, channels);
      PixelOffset(chunkW, channels, chunkH, 0);
      MulLaws(DataW(cx), DataH(cy), channels);
      PixelOffset(DataW(cx), channels, DataH(cy), 0);
      if PaddedLen() == UnpaddedLen(cx, cy) { LayoutsCoincide(cx, cy); }
    }

    /** The test on the decoded length is never ambiguous: when the padded and
        the cut layout have the same length they are the same layout. */
    lemma LayoutsCoincide(cx: nat, cy: nat)
      requires Valid() && cx < Across() && cy < Down()
      requires PaddedLen() == UnpaddedLen(cx, cy)
      ensures DataW(cx) == chunkW && DataH(cy) == chunkH
    {
      CeilDivBlocks(width, chunkW, cx);
      CeilDivBlocks(height, chunkH, cy);
      SmallerArea(DataW(cx), DataH(cy), chunkW, chunkH, channels);
    }
  }

  lemma SmallerArea(w: nat, h: nat, bigW: nat, bigH: nat, c: nat)
    requires 0 < w <= bigW && 0 < h <= bigH && c > 0
    ensures Mul(Mul(w, h), c) == Mul(Mul(bigW, bigH), c) ==> w == bigW && h == bigH
  {
    MulLe(w, bigW, h);
    MulLaws(bigW, h, c);
    MulLaws(bigW, bigH, c);
    MulLe(h, bigH, bigW);
    MulLe(Mul(w, h), Mul(bigW, bigH), c);
  }

  /** `vec![0u8; width * rows * channels]`. */
  method ZeroPixels(width: nat, rows: nat, channels: nat) returns (out: array<byte>)
    ensures fresh(out) && out.Length == Mul(rows, Mul(width, channels))
    ensures forall i :: 0 <= i < out.Length ==> out[i] == 0
  {
    MulLaws(width, rows, channels);
    PixelOffset(width, channels, rows, 0);
    out := new byte[Mul(Mul(width, rows), channels)](_ => 0);
  }

  /** `(y * width + x) * channels`, the position of a pixel. */
  method PixelIndex(width: nat, channels: nat, y: nat, x: nat) returns (i: nat)
    ensures i == Off(Mul(width, channels), y, Mul(x, channels))
  {
    i := Mul(Off(width, y, x), channels);
    PixelOffset(width, channels, y, x);
  }

  /** A run of pixels that fits in a row fits in bytes. */
  lemma RunFits(x: nat, run: nat, width: nat, c: nat)
    requires x + run <= width
    ensures Mul(x, c) + Mul(run, c) <= Mul(width, c)
  {
    hide Mul, Div, Mod;
    MulLaws(x, run, c);
    MulLe(x + run, width, c);
  }

  /** Copies rows `[lo, hi)` of a chunk whose first row is image row `originY`
      into a band that starts at image row `y0`, `runPx` pixels a row, at
      column `x0`. */
  method PasteRows(out: array<byte>, width: nat, rows: nat, y0: nat, channels: nat, x0: nat,
                   chunk: seq<byte>, stridePx: nat, originY: nat, lo: nat, hi: nat, runPx: nat)
    requires channels > 0 && out.Length == Mul(rows, Mul(width, channels))
    requires originY <= lo && y0 <= lo && hi <= y0 + rows
    requires x0 + runPx <= width && runPx <= stridePx
    requires lo < hi ==> Mul(hi - originY, Mul(stridePx, channels)) <= |chunk|
    modifies out
    ensures forall r: nat, b: nat {:trigger Cell(out[..], Mul(width, channels), r, b)} :: r < rows && b < Mul(width, channels) ==>
              Cell(out[..], Mul(width, channels), r, b) ==
              if lo <= y0 + r < hi && Mul(x0, channels) <= b < Mul(x0, channels) + Mul(runPx, channels)
              then Cell(chunk, Mul(stridePx, channels), y0 + r - originY, b - Mul(x0, channels))
              else Cell(old(out[..]), Mul(width, channels), r, b)
  {
    hide Mul, Div, Mod;
    var n, sn := Mul(width, channels), Mul(stridePx, channels);
    var run := Mul(runPx, channels);
    RunFits(x0, runPx, width, channels);
    RunFits(0, runPx, stridePx, channels);
    MulStep(0, channels);
    for y := lo to Max(lo, hi)
      invariant forall r: nat, b: nat {:trigger Cell(out[..], n, r, b)} :: r < rows && b < n ==>
                  Cell(out[..], n, r, b) ==
                  if lo <= y0 + r < y && Mul(x0, channels) <= b < Mul(x0, channels) + run
                  then Cell(chunk, sn, y0 + r - originY, b - Mul(x0, channels))
                  else Cell(old(out[..]), n, r, b)
    {
      var localY := y - originY;
      var srcOff := PixelIndex(stridePx, channels, localY, 0);
      var dstOff := PixelIndex(width, channels, y - y0, x0);
      OffInside(sn, hi - originY);
      assert Mul(localY, sn) + sn <= |chunk|;
      SpliceCells(out[..], n, rows, y - y0, Mul(x0, channels), chunk[srcOff..srcOff + run]);
      CopyRun(out, dstOff, chunk[srcOff..srcOff + run]);
    }
  }
}
