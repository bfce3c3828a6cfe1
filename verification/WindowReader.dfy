/** Reading any pixel window of a tiled level. */
module WindowReader {
  import opened Wrappers
  import opened Grid
  import opened Raster
  import opened Chunks
  import opened Pixels
  import opened Deflate
  import opened Tiff
  import opened Author

  datatype ReadError = NoDirectory | SizeChanged | NoEntry | TooManyBytes | ShortRead | BadStream | Oversized | Compression | WrongLength | ChunkLength

  /** One directory's physical shape. */
  datatype Level = Level(ifdIndex: nat, width: nat, height: nat, tileWidth: nat, tileHeight: nat)

  /** A file as the decoder sees it; `crop` says which decoded chunks the
      library returns without their padding. */
  datatype TiledFile = TiledFile(file: seq<byte>, codec: Codec, crop: nat -> bool)

  /** The field with this id; of several the last, as reading them into a table
      leaves it. */
  function Find(fields: seq<Field>, id: nat): Option<Field> {
    if fields == [] then None
    else if fields[|fields| - 1].id == id then Some(fields[|fields| - 1])
    else Find(fields[..|fields| - 1], id)
  }

  /** The values of an unsigned field: bytes, shorts or longs. */
  function Lookup(fields: seq<Field>, id: nat): Option<seq<nat>> {
    var f := Find(fields, id);
    if f.Some? && f.value.typeCode in {1, 3, 4} then Some(f.value.items) else None
  }

  /** The 64-bit values of a field of doubles; nothing if there is none. */
  function Doubles(fields: seq<Field>, id: nat): seq<u64> {
    var f := Find(fields, id);
    if f.Some? && f.value.typeCode == 12 && forall i :: 0 <= i < |f.value.items| ==> f.value.items[i] < 0x1_0000_0000_0000_0000
    then f.value.items else []
  }

  function First(fields: seq<Field>, id: nat): Option<nat> {
    var v := Lookup(fields, id);
    if v.Some? && |v.value| > 0 then Some(v.value[0]) else None
  }

  /** Unsigned values are bytes, shorts or longs (types 1, 3 and 4), 64-bit ones
      doubles (type 12); the last field with an id counts. */
  lemma LookupIs(front: seq<Field>, last: Field, id: nat)
    ensures var fields := front + [last];
            if last.id != id then Lookup(fields, id) == Lookup(front, id) && Doubles(fields, id) == Doubles(front, id)
            else
              && (Lookup(fields, id).Some? <==> last.typeCode == 1 || last.typeCode == 3 || last.typeCode == 4)
              && (Lookup(fields, id).Some? ==> Lookup(fields, id).value == last.items)
              && (Doubles(fields, id) == if last.typeCode == 12 && forall i :: 0 <= i < |last.items| ==> last.items[i] < 0x1_0000_0000_0000_0000 then last.items else [])
  {
    assert (front + [last])[..|front|] == front;
  }

  // ---- One stored chunk --------------------------------------------------

  /** The decoded bytes of a chunk, whatever their length. */
  function Decoded(tf: TiledFile, offset: nat, count: nat, compression: nat): Option<seq<byte>> {
    if offset + count > |tf.file| then None
    else if compression == 1 then Some(tf.file[offset..offset + count])
    else if compression == 8 then tf.codec.inflate(tf.file[offset..offset + count])
    else None
  }

  /** Chunks are stored as they are or deflated, and lie in the file. */
  lemma DecodedIs(tf: TiledFile, offset: nat, count: nat, compression: nat)
    ensures Decoded(tf, offset, count, compression) ==
              if offset + count <= |tf.file| && compression == 8 then tf.codec.inflate(tf.file[offset..offset + count])
              else if offset + count <= |tf.file| && compression == 1 then Some(tf.file[offset..offset + count])
              else None
  {
  }

  function MaxPlausibleCompressedLen(expectedLen: nat): nat { 2 * expectedLen + 4096 }

  /** Reads a paletted chunk by hand: accepts exactly the chunks whose claimed
      size is plausible and which decode to the expected length. */
  method ReadRawChunk(tf: TiledFile, offset: nat, byteCount: nat, compression: nat, expectedLen: nat)
    returns (r: Result<seq<byte>, ReadError>)
    ensures r.Ok? <==>
      && byteCount <= 2 * expectedLen + 4096
      && Decoded(tf, offset, byteCount, compression).Some?
      && |Decoded(tf, offset, byteCount, compression).value| == expectedLen
    ensures r.Ok? ==> r.value == Decoded(tf, offset, byteCount, compression).value
  {
    if byteCount > MaxPlausibleCompressedLen(expectedLen) {
      return Err(TooManyBytes);
    }
    if offset + byteCount > |tf.file| {
      return Err(ShortRead);
    }
    var compressed := tf.file[offset..offset + byteCount];
    var out: seq<byte>;
    if compression == 1 {
      out := compressed;
    } else if compression == 8 {
      var full := tf.codec.inflate(compressed);
      if full.None? {
        return Err(BadStream);
      }
      var inflated := full.value[..Min(|full.value|, expectedLen + 1)];
      if |inflated| > expectedLen {
        return Err(Oversized);
      }
      out := inflated;
    } else {
      return Err(Compression);
    }
    if |out| != expectedLen {
      return Err(WrongLength);
    }
    return Ok(out);
  }

  /** The first `rows` rows of a padded chunk without their padding. */
  function Cut(chunk: seq<byte>, stride: nat, run: nat, rows: nat): seq<byte>
    requires run <= stride && Mul(rows, stride) <= |chunk|
  {
    if rows == 0 then []
    else
      MulStep(rows - 1, stride);
      Cut(chunk, stride, run, rows - 1) + chunk[Mul(rows - 1, stride)..Mul(rows - 1, stride) + run]
  }

  /** What the decoding library returns for a chunk: its bytes, with the
      padding of an edge chunk kept or cut off. */
  function LibraryChunk(tf: TiledFile, t: Tiling, cx: nat, cy: nat, offset: nat, count: nat, compression: nat): Option<seq<byte>>
    requires t.Valid() && cx < t.Across() && cy < t.Down()
  {
    var decoded := Decoded(tf, offset, count, compression);
    if decoded.Some? && |decoded.value| == t.PaddedLen() && tf.crop(Off(t.Across(), cy, cx)) then
      CutFits(t, cx, cy);
      Some(Cut(decoded.value, Mul(t.chunkW, t.channels), Mul(t.DataW(cx), t.channels), t.DataH(cy)))
    else decoded
  }

  lemma CutFits(t: Tiling, cx: nat, cy: nat)
    requires t.Valid() && cx < t.Across() && cy < t.Down()
    ensures Mul(t.DataW(cx), t.channels) <= Mul(t.chunkW, t.channels)
    ensures Mul(t.DataH(cy), Mul(t.chunkW, t.channels)) <= t.PaddedLen()
  {
    hide Mul, Div, Mod;
    MulLe(t.DataW(cx), t.chunkW, t.channels);
    MulLaws(t.chunkW, t.chunkH, t.channels);
    PixelOffset(t.chunkW, t.channels, t.chunkH, 0);
    MulLe(t.DataH(cy), t.chunkH, Mul(t.chunkW, t.channels));
  }

  /** A directory's entry for a chunk: offset, byte count, compression. */
  function ChunkEntry(fields: seq<Field>, index: nat): Option<(nat, nat, nat)> {
    var offsets, counts, compression := Lookup(fields, 324), Lookup(fields, 325), First(fields, 259);
    if offsets.Some? && counts.Some? && compression.Some? && index < |offsets.value| && index < |counts.value|
    then Some((offsets.value[index], counts.value[index], compression.value))
    else None
  }

  /** Chunk (cx, cy) of a level, decoded: by hand for a palette, through the
      library otherwise. */
  function Fetched(tf: TiledFile, fields: seq<Field>, t: Tiling, bands: Bands, cx: nat, cy: nat): Option<seq<byte>>
    requires t.Valid() && cx < t.Across() && cy < t.Down()
  {
    var entry := ChunkEntry(fields, Off(t.Across(), cy, cx));
    if entry.None? then None
    else if bands == Palette then
      var decoded := Decoded(tf, entry.value.0, entry.value.1, entry.value.2);
      if entry.value.1 <= MaxPlausibleCompressedLen(t.PaddedLen()) && decoded.Some? && |decoded.value| == t.PaddedLen() then decoded else None
    else LibraryChunk(tf, t, cx, cy, entry.value.0, entry.value.1, entry.value.2)
  }

  /** Offsets are tag 324, byte counts 325, the compression 259. */
  lemma ChunkEntryIs(fields: seq<Field>, index: nat, offset: nat, count: nat, compression: nat)
    ensures ChunkEntry(fields, index) == Some((offset, count, compression)) <==>
              && Lookup(fields, 324).Some? && index < |Lookup(fields, 324).value| && Lookup(fields, 324).value[index] == offset
              && Lookup(fields, 325).Some? && index < |Lookup(fields, 325).value| && Lookup(fields, 325).value[index] == count
              && First(fields, 259) == Some(compression)
  {
    hide Lookup;
  }

  /** A palette's chunk is only accepted whole and of a plausible size; another
      is what the library returns, padded or cut. */
  lemma FetchedIs(tf: TiledFile, fields: seq<Field>, t: Tiling, bands: Bands, cx: nat, cy: nat)
    requires t.Valid() && cx < t.Across() && cy < t.Down()
    requires ChunkEntry(fields, Off(t.Across(), cy, cx)).Some?
    ensures var (offset, count, compression) := ChunkEntry(fields, Off(t.Across(), cy, cx)).value;
            var decoded, fetched := Decoded(tf, offset, count, compression), Fetched(tf, fields, t, bands, cx, cy);
            && (fetched.Some? <==> decoded.Some? && (bands == Palette ==> |decoded.value| == t.PaddedLen() && count <= 2 * t.PaddedLen() + 4096))
            && (fetched.Some? ==> fetched == decoded || (bands != Palette && |decoded.value| == t.PaddedLen() && tf.crop(Off(t.Across(), cy, cx))))
  {
    hide Mul, Div, Mod, Cut, Decoded, ChunkEntry;
  }

  method FetchChunk(tf: TiledFile, fields: seq<Field>, t: Tiling, bands: Bands, cx: nat, cy: nat)
    returns (r: Result<seq<byte>, ReadError>)
    requires t.Valid() && cx < t.Across() && cy < t.Down()
    ensures r.Ok? <==> Fetched(tf, fields, t, bands, cx, cy).Some?
    ensures r.Ok? ==> r.value == Fetched(tf, fields, t, bands, cx, cy).value
  {
    var entry := ChunkEntry(fields, Off(t.Across(), cy, cx));
    if entry.None? {
      return Err(NoEntry);
    }
    var (offset, count, compression) := entry.value;
    if bands == Palette {
      r := ReadRawChunk(tf, offset, count, compression, t.PaddedLen());
    } else {
      var chunk := LibraryChunk(tf, t, cx, cy, offset, count, compression);
      r := if chunk.Some? then Ok(chunk.value) else Err(BadStream);
    }
  }

  // ---- Pixels of one chunk -----------------------------------------------

  /** One byte of a chunk is one sample of the image. */
  lemma ChunkByte(t: Tiling, chunk: seq<byte>, img: Image, cx: nat, cy: nat, stride: nat, lx: nat, ly: nat, k: nat)
    requires t.Valid() && t.Fits(img) && t.Holds(chunk, img, cx, cy, stride)
    requires lx < t.DataW(cx) && ly < t.DataH(cy) && k < t.channels
    ensures Cell(chunk, Mul(stride, t.channels), ly, Off(t.channels, lx, k)) == img.at(Mul(cx, t.chunkW) + lx, Mul(cy, t.chunkH) + ly, k)
  {
    hide Mul, Div, Mod, Cell, ByteAt, Tiling.DataW, Tiling.DataH;
    var c := t.channels;
    OffRows(c, lx, t.DataW(cx));
    MulLaws(cx, t.chunkW, c);
    MulLaws(Mul(cx, t.chunkW), lx, c);
    ByteOfSample(img, Mul(cx, t.chunkW) + lx, Mul(cy, t.chunkH) + ly, k);
    assert Off(Mul(t.chunkW, c), cx, Off(c, lx, k)) == Off(c, Mul(cx, t.chunkW) + lx, k);
  }

  /** The sample of a pixel, found in the chunk that holds it. */
  lemma ChunkSample(t: Tiling, chunk: seq<byte>, img: Image, cx: nat, cy: nat, stride: nat, rows: nat, lx: nat, ly: nat)
    requires t.Valid() && t.Fits(img) && t.Holds(chunk, img, cx, cy, stride)
    requires lx < t.DataW(cx) <= stride && ly < t.DataH(cy) <= rows
    requires |chunk| == Mul(rows, Mul(stride, t.channels))
    ensures var off := Off(Mul(stride, t.channels), ly, Mul(lx, t.channels));
            && off + t.channels <= |chunk|
            && chunk[off..off + t.channels] == SampleOf(img, Mul(cx, t.chunkW) + lx, Mul(cy, t.chunkH) + ly)
  {
    hide Mul, Div, Mod, Tiling.Holds;
    var c := t.channels;
    var off := Off(Mul(stride, c), ly, Mul(lx, c));
    SampleOffset(stride, rows, c, lx, ly, c - 1);
    var sample := chunk[off..off + c];
    forall k: nat | k < c
      ensures sample[k] == img.at(Mul(cx, t.chunkW) + lx, Mul(cy, t.chunkH) + ly, k)
    {
      ChunkByte(t, chunk, img, cx, cy, stride, lx, ly, k);
    }
  }

  /** A pixel's four bytes in the shown window. */
  lemma ShownPixel(img: Image, style: Style, win: PixelWindow, x: nat, y: nat)
    requires win.x0 <= x < win.x1 && win.y0 <= y < win.y1 && img.c == style.bands.ChannelCount()
    ensures forall j: nat :: j < 4 ==>
              PixelRgba(style.bands, style.colormap, style.nodata, SampleOf(img, x, y))[j]
              == ByteAt(Shown(img, style, win), y - win.y0, Mul(x - win.x0, 4) + j)
  {
    hide Mul, Div, Mod, PixelRgba;
    var rgba := PixelRgba(style.bands, style.colormap, style.nodata, SampleOf(img, x, y));
    forall j: nat | j < 4 ensures rgba[j] == ByteAt(Shown(img, style, win), y - win.y0, Mul(x - win.x0, 4) + j) {
      ByteOfSample(Shown(img, style, win), x - win.x0, y - win.y0, j);
    }
  }

  /** `after` is `before` with bytes `[lo, hi)` of row `y` taken from `img`. */
  ghost predicate RowPart(after: seq<byte>, before: seq<byte>, img: Image, y: nat, lo: nat, hi: nat)
    requires img.c > 0
  {
    var n := Mul(img.w, img.c);
    && |after| == |before| == Mul(img.h, n)
    && forall r: nat, b: nat {:trigger Cell(after, n, r, b)} :: r < img.h && b < n ==>
         Cell(after, n, r, b) == if r == y && lo <= b < hi then ByteAt(img, r, b) else Cell(before, n, r, b)
  }

  lemma RowPartGrows(after: seq<byte>, before: seq<byte>, img: Image, y: nat, lo: nat, hi: nat, piece: seq<byte>)
    requires img.c > 0 && RowPart(after, before, img, y, lo, hi)
    requires y < img.h && lo <= hi && hi + |piece| <= Mul(img.w, img.c)
    requires forall j: nat :: j < |piece| ==> piece[j] == ByteAt(img, y, hi + j)
    ensures Off(Mul(img.w, img.c), y, hi) + |piece| <= |after|
    ensures RowPart(Splice(after, Off(Mul(img.w, img.c), y, hi), piece), before, img, y, lo, hi + |piece|)
  {
    hide Mul, Div, Mod;
    SpliceCells(after, Mul(img.w, img.c), img.h, y, hi, piece);
  }

  /** Copies the pixels of row `srcY` that both the chunk and the window hold. */
  method PastePixelRow(out: array<byte>, chunk: seq<byte>, t: Tiling, cx: nat, cy: nat, stride: nat, ghost rows: nat, style: Style, win: PixelWindow,
                       srcY: nat, xLo: nat, xHi: nat, ghost img: Image)
    requires t.Valid() && t.Fits(img) && t.channels == style.bands.ChannelCount() && win.Inside(t.width, t.height)
    requires t.Holds(chunk, img, cx, cy, stride) && t.DataW(cx) <= stride && t.DataH(cy) <= rows
    requires |chunk| == Mul(rows, Mul(stride, t.channels))
    requires win.y0 <= srcY < win.y1 && Mul(cy, t.chunkH) <= srcY < Mul(cy, t.chunkH) + t.DataH(cy)
    requires win.x0 <= xLo <= xHi <= win.x1 && Mul(cx, t.chunkW) <= xLo && xHi <= Mul(cx, t.chunkW) + t.DataW(cx)
    requires out.Length == Mul(win.y1 - win.y0, Mul(win.x1 - win.x0, 4))
    modifies out
    ensures RowPart(out[..], old(out[..]), Shown(img, style, win), srcY - win.y0, Mul(xLo - win.x0, 4), Mul(xHi - win.x0, 4))
  {
    hide Mul, Div, Mod, PixelRgba, Shown, Cell, Tiling.Holds;
    var ow := win.x1 - win.x0;
    var localY, dstY := srcY - Mul(cy, t.chunkH), srcY - win.y0;
    for srcX := xLo to xHi
      invariant RowPart(out[..], old(out[..]), Shown(img, style, win), dstY, Mul(xLo - win.x0, 4), Mul(srcX - win.x0, 4))
    {
      var localX, dstX := srcX - Mul(cx, t.chunkW), srcX - win.x0;
      var srcOff := PixelIndex(stride, t.channels, localY, localX);
      ChunkSample(t, chunk, img, cx, cy, stride, rows, localX, localY);
      var sample := chunk[srcOff..srcOff + t.channels];
      var rgba := PixelRgba(style.bands, style.colormap, style.nodata, sample);
      ShownPixel(img, style, win, srcX, srcY);
      var dstOff := PixelIndex(ow, 4, dstY, dstX);
      MulStep(dstX, 4);
      MulLe(dstX + 1, ow, 4);
      MulLe(xLo - win.x0, dstX, 4);
      RowPartGrows(out[..], old(out[..]), Shown(img, style, win), dstY, Mul(xLo - win.x0, 4), Mul(dstX, 4), rgba);
      CopyRun(out, dstOff, rgba);
    }
  }

  /** The part of the window that one chunk holds. */
  method PasteChunk(out: array<byte>, chunk: seq<byte>, t: Tiling, cx: nat, cy: nat, stride: nat, ghost rows: nat, style: Style, win: PixelWindow,
                    ghost img: Image)
    requires t.Valid() && t.Fits(img) && t.channels == style.bands.ChannelCount() && win.Inside(t.width, t.height)
    requires t.Holds(chunk, img, cx, cy, stride) && t.DataW(cx) <= stride && t.DataH(cy) <= rows
    requires |chunk| == Mul(rows, Mul(stride, t.channels))
    requires Mul(cx, t.chunkW) < win.x1 && win.x0 < Mul(cx, t.chunkW) + t.chunkW
    requires Mul(cy, t.chunkH) < win.y1 && win.y0 < Mul(cy, t.chunkH) + t.chunkH
    requires out.Length == Mul(win.y1 - win.y0, Mul(win.x1 - win.x0, 4))
    modifies out
    ensures var n, left, right := Mul(win.x1 - win.x0, 4), Max(win.x0, Mul(cx, t.chunkW)), Min(win.x1, Mul(cx, t.chunkW) + t.chunkW);
            forall r: nat, b: nat {:trigger Cell(out[..], n, r, b)} :: r < win.y1 - win.y0 && b < n ==>
              Cell(out[..], n, r, b) ==
              if Mul(cy, t.chunkH) <= win.y0 + r < Mul(cy, t.chunkH) + t.chunkH && Mul(left - win.x0, 4) <= b < Mul(right - win.x0, 4)
              then ByteAt(Shown(img, style, win), r, b)
              else Cell(old(out[..]), n, r, b)
  {
    hide Mul, Div, Mod, PixelRgba, Shown;
    var originX, originY := Mul(cx, t.chunkW), Mul(cy, t.chunkH);
    var validX1 := originX + Min(t.DataW(cx), stride);
    var validY1 := originY + t.DataH(cy);
    var xLo, xHi := Max(win.x0, originX), Min(win.x1, validX1);
    var yLo, yHi := Max(win.y0, originY), Min(win.y1, validY1);
    ghost var n := Mul(win.x1 - win.x0, 4);
    for srcY := yLo to yHi
      invariant forall r: nat, b: nat {:trigger Cell(out[..], n, r, b)} :: r < win.y1 - win.y0 && b < n ==>
                  Cell(out[..], n, r, b) ==
                  if yLo <= win.y0 + r < srcY && Mul(xLo - win.x0, 4) <= b < Mul(xHi - win.x0, 4)
                  then ByteAt(Shown(img, style, win), r, b)
                  else Cell(old(out[..]), n, r, b)
    {
      PastePixelRow(out, chunk, t, cx, cy, stride, rows, style, win, srcY, xLo, xHi, img);
    }
  }

  // ---- The window --------------------------------------------------------

  /** The window needs chunk (cx, cy). */
  predicate Touches(t: Tiling, win: PixelWindow, cx: nat, cy: nat)
    requires t.Valid() && win.Inside(t.width, t.height)
  {
    Div(win.x0, t.chunkW) <= cx <= Div(win.x1 - 1, t.chunkW) && Div(win.y0, t.chunkH) <= cy <= Div(win.y1 - 1, t.chunkH)
  }

  lemma TouchedChunk(t: Tiling, win: PixelWindow, cx: nat, cy: nat)
    requires t.Valid() && win.Inside(t.width, t.height) && Touches(t, win, cx, cy)
    ensures cx < t.Across() && cy < t.Down()
    ensures Mul(cx, t.chunkW) < win.x1 && win.x0 < Mul(cx, t.chunkW) + t.chunkW
    ensures Mul(cy, t.chunkH) < win.y1 && win.y0 < Mul(cy, t.chunkH) + t.chunkH
  {
    hide Mul, Div, Mod;
    SpanTouches(win.x0, win.x1, t.chunkW, cx);
    SpanTouches(win.y0, win.y1, t.chunkH, cy);
    CeilDivBlocks(t.width, t.chunkW, cx);
    CeilDivBlocks(t.height, t.chunkH, cy);
  }

  lemma SpanTouches(a: nat, b: nat, size: nat, k: nat)
    requires size > 0 && a < b && Div(a, size) <= k <= Div(b - 1, size)
    ensures Mul(k, size) < b && a < Mul(k, size) + size
  {
    BlockOf(a, size);
    BlockOf(b - 1, size);
    MulLe(Div(a, size), k, size);
    MulLe(k, Div(b - 1, size), size);
  }

  /** The chunk the window needs is missing or of no known length. */
  predicate Unreadable(tf: TiledFile, fields: seq<Field>, t: Tiling, bands: Bands, cx: nat, cy: nat)
    requires t.Valid()
  {
    cx < t.Across() && cy < t.Down() ==>
      var chunk := Fetched(tf, fields, t, bands, cx, cy);
      chunk.None? || t.BadLength(cx, cy, |chunk.value|)
  }

  /** Every chunk the window needs is readable only if it shows `img`. */
  ghost predicate ChunksShow(tf: TiledFile, fields: seq<Field>, t: Tiling, bands: Bands, win: PixelWindow, img: Image)
    requires t.Valid() && win.Inside(t.width, t.height)
  {
    && t.Fits(img)
    && forall cx: nat, cy: nat {:trigger Touches(t, win, cx, cy)} :: Touches(t, win, cx, cy) && cx < t.Across() && cy < t.Down() ==>
         Unreadable(tf, fields, t, bands, cx, cy) || t.Shows(Fetched(tf, fields, t, bands, cx, cy).value, img, cx, cy)
  }

  function TilingOf(level: Level, bands: Bands): Tiling {
    Tiling(level.width, level.height, bands.ChannelCount(), level.tileWidth, level.tileHeight)
  }

  /** The columns done so far and those of the next chunk join up. */
  lemma NextColumns(a: nat, b: nat, start: nat, size: nat)
    requires a < b && start < b && a < start + size
    ensures var left, right := Max(a, start), Min(b, start + size);
            && Max(a, Min(b, start)) == left
            && Max(a, Min(b, start + size)) == right
            && Mul(left - a, 4) <= Mul(right - a, 4)
  {
    hide Mul;
    MulLe(Max(a, start) - a, Min(b, start + size) - a, 4);
  }

  /** One row of chunks across the window; `false` at the first unreadable one. */
  method ReadWindowRow(tf: TiledFile, fields: seq<Field>, t: Tiling, out: array<byte>, cy: nat, style: Style, win: PixelWindow, ghost img: Image)
    returns (r: Result<(), ReadError>)
    requires t.Valid() && win.Inside(t.width, t.height) && t.channels == style.bands.ChannelCount()
    requires ChunksShow(tf, fields, t, style.bands, win, img)
    requires Div(win.y0, t.chunkH) <= cy <= Div(win.y1 - 1, t.chunkH)
    requires out.Length == Mul(win.y1 - win.y0, Mul(win.x1 - win.x0, 4))
    modifies out
    ensures r.Err? <==> exists cx: nat :: Touches(t, win, cx, cy) && Unreadable(tf, fields, t, style.bands, cx, cy)
    ensures r.Ok? ==>
      var n := Mul(win.x1 - win.x0, 4);
      forall r: nat, b: nat {:trigger Cell(out[..], n, r, b)} :: r < win.y1 - win.y0 && b < n ==>
        Cell(out[..], n, r, b) ==
        if Mul(cy, t.chunkH) <= win.y0 + r < Mul(cy, t.chunkH) + t.chunkH then ByteAt(Shown(img, style, win), r, b)
        else Cell(old(out[..]), n, r, b)
  {
    hide Mul, Div, Mod, PixelRgba, Shown, Fetched;
    ghost var n := Mul(win.x1 - win.x0, 4);
    var chunkX0, chunkX1 := Div(win.x0, t.chunkW), Div(win.x1 - 1, t.chunkW);
    BlocksAscend(win.x0, win.x1 - 1, t.chunkW);
    BlockOf(win.x0, t.chunkW);
    BlockOf(win.x1 - 1, t.chunkW);
    MulStep(0, 4);
    for cx := chunkX0 to chunkX1 + 1
      invariant forall x: nat :: chunkX0 <= x < cx ==> !Unreadable(tf, fields, t, style.bands, x, cy)
      invariant forall r: nat, b: nat {:trigger Cell(out[..], n, r, b)} :: r < win.y1 - win.y0 && b < n ==>
                  Cell(out[..], n, r, b) ==
                  if Mul(cy, t.chunkH) <= win.y0 + r < Mul(cy, t.chunkH) + t.chunkH
                     && b < Mul(Max(win.x0, Min(win.x1, Mul(cx, t.chunkW))) - win.x0, 4)
                  then ByteAt(Shown(img, style, win), r, b)
                  else Cell(old(out[..]), n, r, b)
    {
      assert Touches(t, win, cx, cy);
      TouchedChunk(t, win, cx, cy);
      var chunk :- FetchChunk(tf, fields, t, style.bands, cx, cy);
      t.LayoutIsRight(chunk, img, cx, cy);
      var layout := t.Layout(cx, cy, |chunk|);
      if layout.None? {
        return Err(ChunkLength);
      }
      PasteChunk(out, chunk, t, cx, cy, layout.value.0, layout.value.1, style, win, img);
      MulStep(cx, t.chunkW);
      NextColumns(win.x0, win.x1, Mul(cx, t.chunkW), t.chunkW);
    }
    MulStep(chunkX1, t.chunkW);
    return Ok(());
  }

  /** Reads exactly the window: fails if and only if the directory changed size
      or a chunk it needs is unreadable, and otherwise shows every pixel of it. */
  method ReadWindow(tf: TiledFile, ifd: Ifd, level: Level, style: Style, win: PixelWindow, ghost img: Image)
    returns (r: Result<seq<byte>, ReadError>)
    requires TilingOf(level, style.bands).Valid() && win.Inside(level.width, level.height)
    requires ChunksShow(tf, ifd.fields, TilingOf(level, style.bands), style.bands, win, img)
    ensures r.Err? <==>
      || First(ifd.fields, 256) != Some(level.width) || First(ifd.fields, 257) != Some(level.height)
      || exists cx: nat, cy: nat :: Touches(TilingOf(level, style.bands), win, cx, cy)
                                    && Unreadable(tf, ifd.fields, TilingOf(level, style.bands), style.bands, cx, cy)
    ensures r.Ok? ==> RowsOf(r.value, Shown(img, style, win), 0, win.y1 - win.y0)
  {
    hide Mul, Div, Mod, PixelRgba, Fetched;
    if First(ifd.fields, 256) != Some(level.width) || First(ifd.fields, 257) != Some(level.height) {
      return Err(SizeChanged);
    }
    var t := TilingOf(level, style.bands);
    var out := ZeroPixels(win.x1 - win.x0, win.y1 - win.y0, 4);
    ghost var n := Mul(win.x1 - win.x0, 4);
    var chunkY0, chunkY1 := Div(win.y0, t.chunkH), Div(win.y1 - 1, t.chunkH);
    BlocksAscend(win.y0, win.y1 - 1, t.chunkH);
    BlockOf(win.y0, t.chunkH);
    BlockOf(win.y1 - 1, t.chunkH);
    for cy := chunkY0 to chunkY1 + 1
      invariant forall x: nat, y: nat :: chunkY0 <= y < cy && Touches(t, win, x, y) ==> !Unreadable(tf, ifd.fields, t, style.bands, x, y)
      invariant forall r: nat, b: nat {:trigger Cell(out[..], n, r, b)} :: r < win.y1 - win.y0 && b < n && win.y0 + r < Mul(cy, t.chunkH) ==>
                  Cell(out[..], n, r, b) == ByteAt(Shown(img, style, win), r, b)
    {
      var done :- ReadWindowRow(tf, ifd.fields, t, out, cy, style, win, img);
      MulStep(cy, t.chunkH);
    }
    MulStep(chunkY1, t.chunkH);
    return Ok(out[..]);
  }
}
