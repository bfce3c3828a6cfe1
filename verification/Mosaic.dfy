/** A mosaic tile: which sources are read, and how their tiles are laid over
    one another in ascending source order. */
module Mosaic {
  import opened Wrappers
  import opened Globe
  import opened Grid
  import opened Raster
  import opened Chunks
  import opened Author
  import opened Pixels
  import opened WindowReader
  import opened CogFile
  import opened CogOpen
  import RoundTrip
  import opened TilePlan
  import opened Gather

  const MAX_SOURCE_PIXELS: nat := 4000000
  const MAX_CONCURRENT_READS: nat := 4

  const BBOX_TOLERANCE: real := 0.000000001

  predicate Near(a: real, b: real) { -BBOX_TOLERANCE <= a - b <= BBOX_TOLERANCE }

  predicate BoxMatches(declared: Bbox, measured: Bbox) {
    && Near(declared.minLon, measured.minLon) && Near(declared.minLat, measured.minLat)
    && Near(declared.maxLon, measured.maxLon) && Near(declared.maxLat, measured.maxLat)
  }

  /** Each edge may be off by up to a billionth of a degree. */
  lemma BoxMatchesIff(declared: Bbox, measured: Bbox)
    ensures BoxMatches(declared, measured) <==>
              && -0.000000001 <= declared.minLon - measured.minLon <= 0.000000001
              && -0.000000001 <= declared.minLat - measured.minLat <= 0.000000001
              && -0.000000001 <= declared.maxLon - measured.maxLon <= 0.000000001
              && -0.000000001 <= declared.maxLat - measured.maxLat <= 0.000000001
  {
  }

  type Digest = seq<byte>

  /** What the manifest records of a source, and the source: its file, how it is
      shown, and what opening it finds. */
  datatype Source = Source(declared: Bbox, byteLength: nat, digest: Digest, tf: TiledFile, style: Style, g: Georef, levels: seq<Level>) {
    /** If the file opens, then the bands, the missing value, the place and the
        levels are those that opening finds. */
    ghost predicate Faithful() {
      Openable(tf.file) && Opened(tf.file).geo.Some? ==>
        var meta := Opened(tf.file);
        && style.bands == meta.bands && style.nodata == MissingValue(meta) && g == meta.geo.value && levels == meta.levels
    }

    /** The declared box is the measured one, as exactly as it is verified. */
    predicate Valid() {
      && Levels(levels) && Descending(levels) && g.Valid() && BoxMatches(declared, g.Extent())
      && forall i :: 0 <= i < |levels| ==> TilingOf(levels[i], style.bands).Valid()
    }
  }

  /** Only one-sample layouts have a missing value. */
  function MissingValue(meta: CogMeta): Option<byte> {
    if meta.bands in {Gray, Palette} && meta.nodata.Value? then Some(meta.nodata.value) else None
  }

  lemma MissingValueIs(meta: CogMeta, value: byte)
    ensures MissingValue(meta) == Some(value) <==> (meta.bands == Gray || meta.bands == Palette) && meta.nodata == Value(value)
  {
  }

  /** Where the tile is and how latitude runs there. */
  datatype Target = Target(lat: Projection, coord: Coord, dest: nat) {
    ghost predicate Valid() { dest > 0 && Southward(lat, Side(coord)) }

    function Box(): Bbox { TileBbox(lat, coord) }
  }

  /** So asking below for a box that is proper asks nothing more. */
  lemma BoxIsProper(t: Target)
    requires t.Valid()
    ensures t.Box().minLon < t.Box().maxLon && t.Box().minLat < t.Box().maxLat
  {
    LonIsLinear(t.coord.x as real, 0.5, Side(t.coord));
    assert t.coord.y as real < t.coord.y as real + 1.0;
  }

  function PlanOf(s: Source, t: Target): Option<Plan>
    requires s.Valid() && t.dest > 0 && t.Box().minLon < t.Box().maxLon && t.Box().minLat < t.Box().maxLat
  {
    PlanWindow(s.levels, s.g, t.Box(), t.dest)
  }

  /** The level a source is read at for this tile. */
  function LevelFor(s: Source, t: Target): Level
    requires s.Valid() && t.dest > 0
  {
    s.levels[BestIndex(s.levels, s.g.width, (t.Box().maxLon - t.Box().minLon) / t.dest as real)]
  }

  /** What one source alone shows on the tile, `full` being its whole level. */
  function Contribution(s: Source, full: Image, t: Target): (r: Image)
    requires s.Valid() && t.dest > 0
    ensures r.w == t.dest && r.h == t.dest && r.c == 4
  {
    TileImage(full, s.g, LevelFor(s, t), t.lat, t.coord, t.dest)
  }

  ghost predicate FitsLevel(s: Source, full: Image, t: Target)
    requires s.Valid() && t.dest > 0
  {
    full.w == LevelFor(s, t).width && full.h == LevelFor(s, t).height && full.c == 4
  }

  predicate Ascending(s: seq<nat>) { forall a, b :: 0 <= a < b < |s| ==> s[a] < s[b] }

  // ---- Selection ---------------------------------------------------------

  /** The first `n` sources that share more than an edge with the tile. */
  function Selected(sources: seq<Source>, box: Bbox, n: nat): (r: seq<nat>)
    requires n <= |sources|
    ensures forall j :: 0 <= j < |r| ==> r[j] < n
  {
    if n == 0 then []
    else Selected(sources, box, n - 1) + (if Intersects(sources[n - 1].declared, box) then [n - 1] else [])
  }

  method SelectSources(sources: seq<Source>, box: Bbox) returns (selected: seq<nat>)
    ensures selected == Selected(sources, box, |sources|)
  {
    selected := [];
    for index := 0 to |sources|
      invariant selected == Selected(sources, box, index)
    {
      var b := sources[index].declared;
      if b.minLon < box.maxLon && b.maxLon > box.minLon && b.minLat < box.maxLat && b.maxLat > box.minLat {
        selected := selected + [index];
      }
    }
  }

  lemma {:induction false} SelectedAre(sources: seq<Source>, box: Bbox, n: nat)
    requires n <= |sources|
    ensures var kept := Selected(sources, box, n);
            && (forall i: nat :: i < n ==> (i in kept <==> Intersects(sources[i].declared, box)))
            && Ascending(kept)
  {
    hide Intersects;
    if n > 0 { SelectedAre(sources, box, n - 1); }
  }

  /** Place (dx, dy) of the tile is on the source's raster. */
  predicate Covers(s: Source, t: Target, dx: nat, dy: nat)
    requires t.dest > 0
  {
    var lon, lat := LonOfColumn(Centre(t.coord.x, dx, t.dest), Side(t.coord)), t.lat(Centre(t.coord.y, dy, t.dest), Side(t.coord));
    s.g.originX <= lon < s.g.originX + s.g.width && s.g.originY - s.g.height < lat <= s.g.originY
  }

  /** The tile's place is on the raster, in plain numbers. */
  lemma CoversIff(s: Source, t: Target, dx: nat, dy: nat)
    requires t.dest > 0
    ensures var lon := -180.0 + 360.0 * (t.coord.x as real + (dx as real + 0.5) / t.dest as real) / Pow2(t.coord.z) as real;
            var lat := t.lat(t.coord.y as real + (dy as real + 0.5) / t.dest as real, Pow2(t.coord.z) as real);
            Covers(s, t, dx, dy) <==>
              s.g.originX <= lon < s.g.originX + s.g.width && s.g.originY - s.g.height < lat <= s.g.originY
  {
    CentreLongitude(t.coord, dx, t.dest);
    hide LonOfColumn;
  }

  /** A source shows at pixel (dx, dy) of the tile the pixel of its own that lies
      at the longitude and latitude of that place, and nothing if they are off
      its raster. */
  lemma ContributionIs(s: Source, full: Image, t: Target, dx: nat, dy: nat, k: nat)
    requires s.Valid() && t.dest > 0 && FitsLevel(s, full, t)
    ensures var lon := -180.0 + 360.0 * (t.coord.x as real + (dx as real + 0.5) / t.dest as real) / Pow2(t.coord.z) as real;
            var lat := t.lat(t.coord.y as real + (dy as real + 0.5) / t.dest as real, Pow2(t.coord.z) as real);
            var east, south := lon - s.g.originX, s.g.originY - lat;
            && (Covers(s, t, dx, dy) <==> 0.0 <= east < s.g.width && 0.0 <= south < s.g.height)
            && Contribution(s, full, t).at(dx, dy, k) ==
               if Covers(s, t, dx, dy) then full.at(PartOf(east, s.g.width, full.w), PartOf(south, s.g.height, full.h), k) else 0
  {
    hide Covers, LonOfColumn, ColumnOf, RowOf, PartOf, Centre, BestIndex;
    CoversIff(s, t, dx, dy);
    CentreLongitude(t.coord, dx, t.dest);
    CentreLatitude(t.coord, dy, t.dest);
    hide TileImage;
    TilePixelIs(full, s.g, LevelFor(s, t), t.lat, t.coord, t.dest, dx, dy, k);
  }

  /** The level read is the coarsest whose pixels are no wider than those of the
      tile, or the finest of all. */
  lemma LevelForIs(s: Source, t: Target)
    requires s.Valid() && t.dest > 0
    ensures var degrees := 360.0 / (Pow2(t.coord.z) as real * t.dest as real);
            exists c :: 0 <= c < |s.levels| && LevelFor(s, t) == s.levels[c]
              && (c > 0 ==> s.g.width / s.levels[c].width as real <= degrees)
              && forall j :: c < j < |s.levels| ==> s.g.width / s.levels[j].width as real > degrees
  {
    TileWidth(t);
    var c := BestIndex(s.levels, s.g.width, (t.Box().maxLon - t.Box().minLon) / t.dest as real);
    assert LevelFor(s, t) == s.levels[c];
    hide BestIndex;
  }

  lemma TileWidth(t: Target)
    requires t.dest > 0
    ensures (t.Box().maxLon - t.Box().minLon) / t.dest as real == 360.0 / (Pow2(t.coord.z) as real * t.dest as real)
  {
    var side, n := Side(t.coord), t.dest as real;
    QuotientSums(t.coord.x as real, 1.0, side);
    var width := t.Box().maxLon - t.Box().minLon;
    Times360(1.0, side);
    assert width == 360.0 / side;
    var p, q := width / n, 360.0 / (side * n);
    assert width * side == 360.0 && p * n == width && q * (side * n) == 360.0;
    SameQuotient(p, q, n, side, side * n, width);
  }

  lemma SameQuotient(p: real, q: real, scale: real, n: real, extent: real, distance: real)
    requires scale > 0.0 && n > 0.0 && scale * n == extent && p * scale == distance && q * extent == distance * n
    ensures p == q
  {
    assert q * scale * n == p * scale * n;
    assert (q - p) * (scale * n) == 0.0;
    assert scale * n > 0.0;
  }

  /** A source without a plan shows nothing. */
  lemma UnplannedShowsNothing(s: Source, full: Image, t: Target, dx: nat, dy: nat, k: nat)
    requires s.Valid() && t.Valid() && t.Box().minLon < t.Box().maxLon && t.Box().minLat < t.Box().maxLat
    requires FitsLevel(s, full, t) && PlanOf(s, t).None? && dx < t.dest && dy < t.dest
    ensures Contribution(s, full, t).at(dx, dy, k) == 0
  {
    hide ColumnOf, RowOf, BestIndex, TrueColumn, TrueRow;
    var level, box := LevelFor(s, t), t.Box();
    ColumnsMeet(s.g, level, box.minLon, box.maxLon);
    RowsMeet(s.g, level, box.minLat, box.maxLat);
    ColumnsAreLinear(s.g, level, t.coord, dx, t.dest);
    RowsAreInside(s.g, level, t.lat, t.coord, dy, t.dest);
  }

  // ---- Composition -------------------------------------------------------

  /** The last contribution among the first `n` that is not transparent here. */
  function TopByte(tiles: seq<seq<byte>>, n: nat, p: nat, k: nat): byte
    requires n <= |tiles|
  {
    if n == 0 then 0
    else if Cell(tiles[n - 1], 4, p, 3) != 0 then Cell(tiles[n - 1], 4, p, k)
    else TopByte(tiles, n - 1, p, k)
  }

  /** The first `n` tiles laid over one another at the first `p` pixels. */
  ghost predicate Laid(dest: seq<byte>, tiles: seq<seq<byte>>, n: nat, pixels: nat)
    requires n <= |tiles|
  {
    && |dest| == Mul(pixels, 4)
    && forall p: nat, k: nat {:trigger Cell(dest, 4, p, k)} :: p < pixels && k < 4 ==> Cell(dest, 4, p, k) == TopByte(tiles, n, p, k)
  }

  /** Some of the first `n` tiles has a pixel that is not transparent. */
  ghost predicate Opaque(tiles: seq<seq<byte>>, n: nat, pixels: nat)
    requires n <= |tiles|
  {
    exists i: nat, p: nat {:trigger Cell(tiles[i], 4, p, 3)} :: i < n && p < pixels && Cell(tiles[i], 4, p, 3) != 0
  }

  /** Lays one more tile over the others. */
  method LayTile(dest: array<byte>, tile: seq<byte>, pixels: nat) returns (any: bool)
    requires dest.Length == |tile| == Mul(pixels, 4)
    modifies dest
    ensures forall p: nat, k: nat {:trigger Cell(dest[..], 4, p, k)} :: p < pixels && k < 4 ==>
              Cell(dest[..], 4, p, k) == if Cell(tile, 4, p, 3) != 0 then Cell(tile, 4, p, k) else Cell(old(dest[..]), 4, p, k)
    ensures any <==> exists p: nat {:trigger Cell(tile, 4, p, 3)} :: p < pixels && Cell(tile, 4, p, 3) != 0
  {
    hide Mul;
    any := false;
    for p := 0 to pixels
      invariant forall q: nat, k: nat {:trigger Cell(dest[..], 4, q, k)} :: q < pixels && k < 4 ==>
                  Cell(dest[..], 4, q, k) == if q < p && Cell(tile, 4, q, 3) != 0 then Cell(tile, 4, q, k) else Cell(old(dest[..]), 4, q, k)
      invariant any <==> exists q: nat {:trigger Cell(tile, 4, q, 3)} :: q < p && Cell(tile, 4, q, 3) != 0
    {
      var off := Mul(p, 4);
      OffInside(4, pixels);
      assert off + 4 <= |tile|;
      var src := tile[off..off + 4];
      assert forall k: nat :: k < 4 ==> src[k] == Cell(tile, 4, p, k);
      if src[3] != 0 {
        SpliceCells(dest[..], 4, pixels, p, 0, src);
        CopyRun(dest, off, src);
        any := true;
      }
    }
  }

  /** Walks the tiles in order; nothing if all of them are transparent. */
  method ComposeInSourceIdOrder(tiles: seq<seq<byte>>, pixels: nat) returns (r: Option<seq<byte>>)
    requires forall i :: 0 <= i < |tiles| ==> |tiles[i]| == Mul(pixels, 4)
    ensures r.Some? <==> Opaque(tiles, |tiles|, pixels)
    ensures r.Some? ==> Laid(r.value, tiles, |tiles|, pixels)
  {
    hide Mul, Cell;
    var dest := new byte[Mul(pixels, 4)](_ => 0);
    ZeroCells(dest[..]);
    var any := false;
    for i := 0 to |tiles|
      invariant Laid(dest[..], tiles, i, pixels)
      invariant any <==> Opaque(tiles, i, pixels)
    {
      var some := LayTile(dest, tiles[i], pixels);
      any := any || some;
    }
    r := if any then Some(dest[..]) else None;
  }

  lemma ZeroCells(s: seq<byte>)
    requires forall i :: 0 <= i < |s| ==> s[i] == 0
    ensures forall p: nat, k: nat {:trigger Cell(s, 4, p, k)} :: Cell(s, 4, p, k) == 0
  {
  }

  // ---- The whole tile ----------------------------------------------------

  /** Some of the sources in an order, each of them sound and with an image. */
  ghost predicate Sound(sources: seq<Source>, fulls: seq<Image>, t: Target, order: seq<nat>) {
    && t.Valid() && t.Box().minLon < t.Box().maxLon && t.Box().minLat < t.Box().maxLat && |sources| == |fulls|
    && forall j :: 0 <= j < |order| ==> order[j] < |sources| && sources[order[j]].Valid() && FitsLevel(sources[order[j]], fulls[order[j]], t)
  }

  /** The last of these sources with an opaque pixel here. */
  ghost function TopSample(sources: seq<Source>, fulls: seq<Image>, t: Target, order: seq<nat>, x: nat, y: nat, k: nat): byte
    requires Sound(sources, fulls, t, order)
    decreases |order|
  {
    if order == [] then 0
    else
      var i := order[|order| - 1];
      var image := Contribution(sources[i], fulls[i], t);
      if image.at(x, y, 3) != 0 then image.at(x, y, k) else TopSample(sources, fulls, t, order[..|order| - 1], x, y, k)
  }

  /** These sources, laid over one another. */
  ghost function MosaicImage(sources: seq<Source>, fulls: seq<Image>, t: Target, order: seq<nat>): (r: Image)
    requires Sound(sources, fulls, t, order)
    ensures r.w == t.dest && r.h == t.dest && r.c == 4
  {
    Image(t.dest, t.dest, 4, (x: nat, y: nat, k: nat) => TopSample(sources, fulls, t, order, x, y, k))
  }

  /** The last of the sources that is not transparent here is the one seen. */
  lemma {:induction false} LastIsSeen(sources: seq<Source>, fulls: seq<Image>, t: Target, order: seq<nat>, last: nat, x: nat, y: nat, k: nat)
    requires Sound(sources, fulls, t, order) && last < |order|
    requires Contribution(sources[order[last]], fulls[order[last]], t).at(x, y, 3) != 0
    requires forall l :: last < l < |order| ==> Contribution(sources[order[l]], fulls[order[l]], t).at(x, y, 3) == 0
    ensures MosaicImage(sources, fulls, t, order).at(x, y, k) == Contribution(sources[order[last]], fulls[order[last]], t).at(x, y, k)
    decreases |order|
  {
    hide Contribution, FitsLevel, Source.Valid, Southward, Target.Box;
    if last < |order| - 1 { LastIsSeen(sources, fulls, t, order[..|order| - 1], last, x, y, k); }
  }

  /** Where all of them are transparent nothing is. */
  lemma {:induction false} NoneIsSeen(sources: seq<Source>, fulls: seq<Image>, t: Target, order: seq<nat>, x: nat, y: nat, k: nat)
    requires Sound(sources, fulls, t, order)
    requires forall l :: 0 <= l < |order| ==> Contribution(sources[order[l]], fulls[order[l]], t).at(x, y, 3) == 0
    ensures MosaicImage(sources, fulls, t, order).at(x, y, k) == 0
    decreases |order|
  {
    hide Contribution, FitsLevel, Source.Valid, Southward, Target.Box;
    if order != [] { NoneIsSeen(sources, fulls, t, order[..|order| - 1], x, y, k); }
  }

  /** The ones among these sources for which there is something to read. */
  function Planned(sources: seq<Source>, t: Target, order: seq<nat>): (r: seq<nat>)
    requires t.dest > 0 && t.Box().minLon < t.Box().maxLon && t.Box().minLat < t.Box().maxLat
    requires forall j :: 0 <= j < |order| ==> order[j] < |sources| && sources[order[j]].Valid()
    ensures forall j :: 0 <= j < |r| ==> r[j] < |sources| && r[j] in order && PlanOf(sources[r[j]], t).Some?
  {
    if order == [] then []
    else
      var last := order[|order| - 1];
      Planned(sources, t, order[..|order| - 1]) + (if PlanOf(sources[last], t).Some? then [last] else [])
  }

  /** A tile buffer that shows an image, pixel by pixel. */
  lemma TilePixelByte(tile: seq<byte>, image: Image, x: nat, y: nat, k: nat)
    requires image.c == 4 && RowsOf(tile, image, 0, image.h) && x < image.w && y < image.h && k < 4
    ensures Cell(tile, 4, Off(image.w, y, x), k) == image.at(x, y, k)
  {
    hide Mul, Div, Mod;
    SampleOffset(image.w, image.h, 4, x, y, k);
    ByteOfSample(image, x, y, k);
    assert Cell(tile, Mul(image.w, 4), y, Off(4, x, k)) == ByteAt(image, 0 + y, Off(4, x, k));
  }

  /** The tiles of these sources, one for each that has a plan. */
  ghost predicate TilesOf(tiles: seq<seq<byte>>, sources: seq<Source>, fulls: seq<Image>, t: Target, order: seq<nat>)
    requires Sound(sources, fulls, t, order)
  {
    var drawn := Planned(sources, t, order);
    |tiles| == |drawn| && forall j :: 0 <= j < |drawn| ==> RowsOf(tiles[j], Contribution(sources[drawn[j]], fulls[drawn[j]], t), 0, t.dest)
  }

  /** Laying the tiles that were read is laying the sources. */
  lemma {:induction false} ReadsSuffice(sources: seq<Source>, fulls: seq<Image>, t: Target, order: seq<nat>, tiles: seq<seq<byte>>, x: nat, y: nat, k: nat)
    requires Sound(sources, fulls, t, order) && TilesOf(tiles, sources, fulls, t, order)
    requires x < t.dest && y < t.dest && k < 4
    ensures TopByte(tiles, |tiles|, Off(t.dest, y, x), k) == TopSample(sources, fulls, t, order, x, y, k)
    decreases |order|
  {
    hide Contribution, RowsOf, FitsLevel, PlanOf, Cell, Mul, Source.Valid, Southward, Target.Box;
    if order != [] {
      var front, i := order[..|order| - 1], order[|order| - 1];
      if PlanOf(sources[i], t).Some? {
        var m := |tiles| - 1;
        assert Planned(sources, t, order)[..m] == Planned(sources, t, front);
        ReadsSuffice(sources, fulls, t, front, tiles[..m], x, y, k);
        TopOfPrefix(tiles, m, m, Off(t.dest, y, x), k);
        TilePixelByte(tiles[m], Contribution(sources[i], fulls[i], t), x, y, k);
        TilePixelByte(tiles[m], Contribution(sources[i], fulls[i], t), x, y, 3);
      } else {
        ReadsSuffice(sources, fulls, t, front, tiles, x, y, k);
        UnplannedShowsNothing(sources[i], fulls[i], t, x, y, 3);
      }
    }
  }

  lemma {:induction false} TopOfPrefix(tiles: seq<seq<byte>>, m: nat, n: nat, p: nat, k: nat)
    requires n <= m <= |tiles|
    ensures TopByte(tiles[..m], n, p, k) == TopByte(tiles, n, p, k)
  {
    if n > 0 { TopOfPrefix(tiles, m, n - 1, p, k); }
  }

  // ---- Reading and composing ---------------------------------------------

  datatype TileError = Provenance(index: nat, why: VerifyError) | PixelBudget | SourceFailed(index: nat, error: ReadError)

  function SourcePixels(plan: Plan): nat
    requires plan.x0 <= plan.x1 && plan.y0 <= plan.y1
  {
    Mul(plan.x1 - plan.x0, plan.y1 - plan.y0)
  }

  /** The source pixels of the first `n` selected reads. */
  function TotalPixels(sources: seq<Source>, kept: seq<nat>, t: Target, n: nat): nat
    requires n <= |kept| && t.dest > 0 && t.Box().minLon < t.Box().maxLon && t.Box().minLat < t.Box().maxLat
    requires forall j :: 0 <= j < |kept| ==> kept[j] < |sources| && sources[kept[j]].Valid()
  {
    if n == 0 then 0
    else
      var plan := PlanOf(sources[kept[n - 1]], t);
      TotalPixels(sources, kept, t, n - 1) + (if plan.Some? then SourcePixels(plan.value) else 0)
  }

  /** Every selected source with a plan adds the pixels of its window. */
  lemma {:induction false} PixelsAddUp(sources: seq<Source>, kept: seq<nat>, t: Target, i: nat)
    requires t.dest > 0 && t.Box().minLon < t.Box().maxLon && t.Box().minLat < t.Box().maxLat && i < |sources| && sources[i].Valid()
    requires forall j :: 0 <= j < |kept| ==> kept[j] < |sources| && sources[kept[j]].Valid()
    ensures TotalPixels(sources, [], t, 0) == 0
    ensures var plan := PlanOf(sources[i], t);
            TotalPixels(sources, kept + [i], t, |kept| + 1) ==
            TotalPixels(sources, kept, t, |kept|) + if plan.Some? then (plan.value.x1 - plan.value.x0) * (plan.value.y1 - plan.value.y0) else 0
  {
    hide Mul, PlanOf, Source.Valid, Target.Box;
    if PlanOf(sources[i], t).Some? {
      PlanIsOrdered(sources[i], t);
      var p := PlanOf(sources[i], t).value;
      MulIs(p.x1 - p.x0, p.y1 - p.y0);
    }
    PrefixPixels(sources, kept, t, i, |kept|);
  }

  lemma {:induction false} PrefixPixels(sources: seq<Source>, kept: seq<nat>, t: Target, i: nat, n: nat)
    requires t.dest > 0 && t.Box().minLon < t.Box().maxLon && t.Box().minLat < t.Box().maxLat && i < |sources| && sources[i].Valid()
    requires (forall j :: 0 <= j < |kept| ==> kept[j] < |sources| && sources[kept[j]].Valid()) && n <= |kept|
    ensures TotalPixels(sources, kept + [i], t, n) == TotalPixels(sources, kept, t, n)
  {
    hide PlanOf, Source.Valid, Target.Box, SourcePixels;
    if n > 0 { PrefixPixels(sources, kept, t, i, n - 1); }
  }

  /** Whatever the schedule, no more than four verifications or reads run at once. */
  lemma FourAtATime<T>(outcomes: seq<T>, states: seq<Gather.State<T>>, steps: seq<Gather.Step>, k: nat)
    requires Run(outcomes, MAX_CONCURRENT_READS, states, steps) && k < |states|
    ensures InFlight(states[k].tasks) <= 4
  {
    RunsAreBounded(outcomes, MAX_CONCURRENT_READS, states, steps, k);
  }

  /** The pixels of a plan. */
  function WindowOf(plan: Plan): PixelWindow { PixelWindow(plan.x0, plan.y0, plan.x1, plan.y1) }

  function Whole(img: Image): PixelWindow { PixelWindow(0, 0, img.w, img.h) }

  /** A level's native image, shown from edge to edge. */
  function FullOf(s: Source, img: Image): (full: Image)
    requires img.c == s.style.bands.ChannelCount()
    ensures full.w == img.w && full.h == img.h && full.c == 4
  {
    Shown(img, s.style, Whole(img))
  }

  /** What is shown of a window is the crop of what is shown of everything. */
  lemma ShownIsCrop(buf: seq<byte>, img: Image, style: Style, win: PixelWindow)
    requires img.c == style.bands.ChannelCount() && win.x0 <= win.x1 && win.y0 <= win.y1
    ensures RowsOf(buf, Shown(img, style, win), 0, win.y1 - win.y0) <==>
            RowsOf(buf, Crop(Shown(img, style, Whole(img)), win.x0, win.y0, win.x1 - win.x0, win.y1 - win.y0), 0, win.y1 - win.y0)
  {
    hide Mul, Div, Mod, PixelRgba, Cell;
    var window, crop := Shown(img, style, win), Crop(Shown(img, style, Whole(img)), win.x0, win.y0, win.x1 - win.x0, win.y1 - win.y0);
    forall y: nat, b: nat ensures ByteAt(window, y, b) == ByteAt(crop, y, b) {
      var x, k := Div(b, 4), Mod(b, 4);
      assert window.at(x, y, k) == crop.at(x, y, k);
    }
  }

  /** `img` is the native image of the level that the tile is read from, as far
      as the planned window can be read at all. */
  ghost predicate SourceCarries(s: Source, t: Target, img: Image)
    requires s.Valid() && t.dest > 0 && t.Box().minLon < t.Box().maxLon && t.Box().minLat < t.Box().maxLat
  {
    && img.w == LevelFor(s, t).width && img.h == LevelFor(s, t).height && img.c == s.style.bands.ChannelCount()
    && var plan := PlanOf(s, t);
       plan.Some? ==> Carries(s.tf, s.levels[plan.value.level], s.style.bands, WindowOf(plan.value), img)
  }

  /** The planned window can be read. */
  ghost predicate CanRead(s: Source, t: Target)
    requires s.Valid() && t.dest > 0 && t.Box().minLon < t.Box().maxLon && t.Box().minLat < t.Box().maxLat
  {
    var plan := PlanOf(s, t);
    plan.Some? && Readable(s.tf, s.levels[plan.value.level], s.style.bands, WindowOf(plan.value))
  }

  /** One planned read: the window decoded and warped onto the tile. */
  method RunRead(s: Source, t: Target, plan: Plan, ghost img: Image) returns (r: Result<seq<byte>, ReadError>)
    requires s.Valid() && t.Valid() && t.Box().minLon < t.Box().maxLon && t.Box().minLat < t.Box().maxLat
    requires PlanOf(s, t) == Some(plan) && SourceCarries(s, t, img)
    ensures r.Ok? <==> CanRead(s, t)
    ensures r.Ok? ==> RowsOf(r.value, Contribution(s, FullOf(s, img), t), 0, t.dest)
  {
    hide RowsOf, Mul, ColumnOf, RowOf, BestLevel, Shown, Readable, Carries;
    PlanLevel(s, t);
    var bytes :- ReadLevelWindow(s.tf, s.levels[plan.level], s.style, WindowOf(plan), img);
    ShownIsCrop(bytes, img, s.style, WindowOf(plan));
    var tile := ResampleToTile(bytes, plan, t.lat, t.coord, t.dest, s.g.originY, s.levels, s.g, FullOf(s, img));
    return Ok(tile);
  }

  lemma PlanLevel(s: Source, t: Target)
    requires s.Valid() && t.dest > 0 && t.Box().minLon < t.Box().maxLon && t.Box().minLat < t.Box().maxLat
    requires PlanOf(s, t).Some?
    ensures PlanOf(s, t).value.level < |s.levels| && s.levels[PlanOf(s, t).value.level] == LevelFor(s, t)
    ensures WindowOf(PlanOf(s, t).value).Inside(LevelFor(s, t).width, LevelFor(s, t).height)
  {
  }

  lemma {:induction false} TopIsOpaque(tiles: seq<seq<byte>>, n: nat, p: nat)
    requires n <= |tiles|
    ensures TopByte(tiles, n, p, 3) != 0 <==> exists i: nat :: i < n && Cell(tiles[i], 4, p, 3) != 0
  {
    hide Cell;
    if n > 0 { TopIsOpaque(tiles, n - 1, p); }
  }

  /** The composed buffer shows the mosaic. */
  lemma LaidIsMosaic(tile: seq<byte>, tiles: seq<seq<byte>>, sources: seq<Source>, fulls: seq<Image>, t: Target, order: seq<nat>)
    requires Sound(sources, fulls, t, order) && TilesOf(tiles, sources, fulls, t, order) && Laid(tile, tiles, |tiles|, Mul(t.dest, t.dest))
    ensures RowsOf(tile, MosaicImage(sources, fulls, t, order), 0, t.dest)
  {
    hide Mul, Div, Mod, Contribution, TopByte, TopSample, TilesOf, FitsLevel, Source.Valid, Target.Box;
    var n, image := Mul(t.dest, 4), MosaicImage(sources, fulls, t, order);
    PixelOffset(t.dest, 4, t.dest, 0);
    forall y: nat, b: nat {:trigger Cell(tile, n, y, b)} | y < t.dest && b < n
      ensures Cell(tile, n, y, b) == ByteAt(image, 0 + y, b)
    {
      var x, k := Div(b, 4), Mod(b, 4);
      OffColumns(4, t.dest, b);
      OffJoin(4, b);
      PixelOffset(t.dest, 4, y, x);
      OffInside(t.dest, t.dest);
      ReadsSuffice(sources, fulls, t, order, tiles, x, y, k);
      assert Cell(tile, 4, Off(t.dest, y, x), k) == TopByte(tiles, |tiles|, Off(t.dest, y, x), k);
    }
  }

  /** The tile is empty exactly when the mosaic is transparent everywhere. */
  lemma OpaqueIffVisible(tiles: seq<seq<byte>>, sources: seq<Source>, fulls: seq<Image>, t: Target, order: seq<nat>)
    requires Sound(sources, fulls, t, order) && TilesOf(tiles, sources, fulls, t, order)
    ensures Opaque(tiles, |tiles|, Mul(t.dest, t.dest)) <==>
              exists x: nat, y: nat :: x < t.dest && y < t.dest && MosaicImage(sources, fulls, t, order).at(x, y, 3) != 0
  {
    hide Mul, Div, Mod, Contribution, TopByte, TopSample, TilesOf, Cell, FitsLevel, Source.Valid, Target.Box;
    var pixels, image := Mul(t.dest, t.dest), MosaicImage(sources, fulls, t, order);
    OffInside(t.dest, t.dest);
    forall x: nat, y: nat | x < t.dest && y < t.dest
      ensures image.at(x, y, 3) != 0 <==> exists i: nat :: i < |tiles| && Cell(tiles[i], 4, Off(t.dest, y, x), 3) != 0
    {
      ReadsSuffice(sources, fulls, t, order, tiles, x, y, 3);
      TopIsOpaque(tiles, |tiles|, Off(t.dest, y, x));
    }
    if Opaque(tiles, |tiles|, pixels) {
      var i: nat, p: nat :| i < |tiles| && p < pixels && Cell(tiles[i], 4, p, 3) != 0;
      OffJoin(t.dest, p);
      OffColumns(t.dest, t.dest, p);
      assert image.at(Mod(p, t.dest), Div(p, t.dest), 3) != 0;
    }
    if x: nat, y: nat :| x < t.dest && y < t.dest && image.at(x, y, 3) != 0 {
      var i: nat :| i < |tiles| && Cell(tiles[i], 4, Off(t.dest, y, x), 3) != 0;
      assert Off(t.dest, y, x) < pixels;
    }
  }

  /** What there is to read, and its source pixels all together. */
  method PlanReads(sources: seq<Source>, t: Target, selected: seq<nat>) returns (total: nat, drawn: seq<nat>)
    requires t.dest > 0 && t.Box().minLon < t.Box().maxLon && t.Box().minLat < t.Box().maxLat
    requires forall j :: 0 <= j < |selected| ==> selected[j] < |sources| && sources[selected[j]].Valid()
    ensures total == TotalPixels(sources, selected, t, |selected|) && drawn == Planned(sources, t, selected)
  {
    hide Mul, PlanOf, Source.Valid, Target.Box;
    total, drawn := 0, [];
    for j := 0 to |selected|
      invariant total == TotalPixels(sources, selected, t, j) && drawn == Planned(sources, t, selected[..j])
    {
      assert selected[..j + 1][..j] == selected[..j];
      var plan := PlanOf(sources[selected[j]], t);
      if plan.Some? {
        PlanIsOrdered(sources[selected[j]], t);
        total := total + SourcePixels(plan.value);
        drawn := drawn + [selected[j]];
      }
    }
    assert selected[..|selected|] == selected;
  }

  /** Every source's level, shown from edge to edge. */
  function Fulls(sources: seq<Source>, imgs: seq<Image>): (fulls: seq<Image>)
    requires |sources| == |imgs| && forall i :: 0 <= i < |sources| ==> imgs[i].c == sources[i].style.bands.ChannelCount()
    ensures |fulls| == |sources| && forall i :: 0 <= i < |sources| ==> fulls[i] == FullOf(sources[i], imgs[i])
  {
    seq(|sources|, i requires 0 <= i < |sources| => FullOf(sources[i], imgs[i]))
  }

  /** An addressable authored file placed by numbers is such a source: recorded
      with its own box it is sound, at every tile it carries the level of its
      pyramid that the tile is read from, and it can be read. */
  lemma AuthoredSource(s: Source, t: Target, levels: seq<LevelBuild>, meta: Meta, kernel: Kernel, img: Image, ts: nat)
    requires t.dest > 0 && t.Box().minLon < t.Box().maxLon && t.Box().minLat < t.Box().maxLat
    requires RoundTrip.Authored(levels, meta, s.tf.codec, kernel, img, ts) && AllSized(levels) && |levels| > 0
    requires s.tf.file == CogBytes(levels, meta) && Addressable(levels, meta) && RoundTrip.OnTheGlobe(meta) && s.Faithful()
    requires var place := RoundTrip.PlaceOf(meta, levels); place.Some? && BoxMatches(s.declared, place.value.Extent())
    ensures s.Valid() && Some(s.g) == RoundTrip.PlaceOf(meta, levels)
    ensures var k := BestIndex(s.levels, s.g.width, (t.Box().maxLon - t.Box().minLon) / t.dest as real);
            SourceCarries(s, t, Pyramid(kernel, img, k))
    ensures PlanOf(s, t).Some? ==> CanRead(s, t)
  {
    hide CogBytes, Addressable, Pyramid, Carries, Readable, PlanWindow, RoundTrip.Authored, AllSized, Levels, Descending, TilingOf, FineEnough, Openable, Opened, RoundTrip.OnTheGlobe, RoundTrip.PlaceOf;
    AuthoredIsValid(s, levels, meta, kernel, img, ts);
    var k := BestIndex(s.levels, s.g.width, (t.Box().maxLon - t.Box().minLon) / t.dest as real);
    RoundTrip.ValidLevel(levels, meta, s.tf.codec, kernel, img, ts, k);
    SizeOfTiling(s, t, Pyramid(kernel, img, k));
    if PlanOf(s, t).Some? {
      PlanLevel(s, t);
      RoundTrip.AuthoredIsReadable(levels, meta, kernel, img, ts, s.tf, k, WindowOf(PlanOf(s, t).value));
    }
  }

  lemma AuthoredIsValid(s: Source, levels: seq<LevelBuild>, meta: Meta, kernel: Kernel, img: Image, ts: nat)
    requires RoundTrip.Authored(levels, meta, s.tf.codec, kernel, img, ts) && AllSized(levels) && |levels| > 0
    requires s.tf.file == CogBytes(levels, meta) && Addressable(levels, meta) && RoundTrip.OnTheGlobe(meta) && s.Faithful()
    requires var place := RoundTrip.PlaceOf(meta, levels); place.Some? && BoxMatches(s.declared, place.value.Extent())
    ensures s.Valid() && s.style.bands == meta.bands
    ensures Some(s.g) == RoundTrip.PlaceOf(meta, levels) && s.levels == RoundTrip.AuthoredLevels(levels)
  {
    hide CogBytes, Addressable, RoundTrip.Authored, AllSized, Openable, Opened, RoundTrip.OnTheGlobe, RoundTrip.PlaceOf, TilingOf;
    RoundTrip.AuthoredOpens(levels, meta, s.tf.codec, kernel, img, ts);
    OpenedIsSound(s.tf.file);
    TilingsAreLevels(s);
  }

  lemma SizeOfTiling(s: Source, t: Target, img: Image)
    requires s.Valid() && t.dest > 0 && TilingOf(LevelFor(s, t), s.style.bands).Fits(img)
    ensures img.w == LevelFor(s, t).width && img.h == LevelFor(s, t).height && img.c == s.style.bands.ChannelCount()
  {
    hide BestIndex;
  }

  /** A tile of the world, and the image that each sound source carries. */
  ghost predicate Given(sources: seq<Source>, t: Target, imgs: seq<Image>) {
    && t.Valid() && t.Box().minLon < t.Box().maxLon && t.Box().minLat < t.Box().maxLat && |sources| == |imgs|
    && (forall i :: 0 <= i < |sources| ==> sources[i].Faithful() && imgs[i].c == sources[i].style.bands.ChannelCount())
    && forall i :: 0 <= i < |sources| && sources[i].Valid() ==> SourceCarries(sources[i], t, imgs[i])
  }

  /** These of the sources are sound. */
  ghost predicate Ready(sources: seq<Source>, t: Target, imgs: seq<Image>, order: seq<nat>) {
    Given(sources, t, imgs) && forall j :: 0 <= j < |order| ==> order[j] < |sources| && sources[order[j]].Valid()
  }

  lemma ReadyIsSound(sources: seq<Source>, t: Target, imgs: seq<Image>, order: seq<nat>)
    requires Ready(sources, t, imgs, order)
    ensures Sound(sources, Fulls(sources, imgs), t, order)
  {
    hide SourceCarries, FitsLevel, Source.Valid, Southward, FullOf;
    forall j | 0 <= j < |order| ensures FitsLevel(sources[order[j]], FullOf(sources[order[j]], imgs[order[j]]), t) {
      CarriesItsShape(sources[order[j]], t, imgs[order[j]]);
    }
  }

  /** The answer for a tile: these sources laid over one another, or nothing
      exactly if that is transparent everywhere. */
  ghost predicate ShowsMosaic(tile: Option<seq<byte>>, sources: seq<Source>, t: Target, imgs: seq<Image>, order: seq<nat>)
    requires Ready(sources, t, imgs, order)
  {
    ReadyIsSound(sources, t, imgs, order);
    var image := MosaicImage(sources, Fulls(sources, imgs), t, order);
    && (tile.Some? <==> exists x: nat, y: nat :: x < t.dest && y < t.dest && image.at(x, y, 3) != 0)
    && (tile.Some? ==> RowsOf(tile.value, image, 0, t.dest))
  }

  /** What the reads of a tile come to: the lowest failure, or the mosaic. */
  ghost predicate ReadsAnswer(r: Result<Option<seq<byte>>, TileError>, sources: seq<Source>, t: Target, order: seq<nat>, imgs: seq<Image>)
    requires Ready(sources, t, imgs, order)
  {
    var drawn := Planned(sources, t, order);
    if r.Err? then r.error.SourceFailed? && LowestUnreadable(sources, t, drawn, r.error.index)
    else (forall j :: 0 <= j < |drawn| ==> CanRead(sources[drawn[j]], t)) && ShowsMosaic(r.value, sources, t, imgs, order)
  }

  /** `failed` is the lowest of the sources to read whose window cannot be read. */
  ghost predicate LowestUnreadable(sources: seq<Source>, t: Target, kept: seq<nat>, failed: nat)
    requires t.dest > 0 && t.Box().minLon < t.Box().maxLon && t.Box().minLat < t.Box().maxLat
    requires forall j :: 0 <= j < |kept| ==> kept[j] < |sources| && sources[kept[j]].Valid()
  {
    failed in kept && !CanRead(sources[failed], t) && forall i :: i in kept && i < failed ==> CanRead(sources[i], t)
  }

  /** The outcome of every selected read, in selection order. */
  method RunReads(sources: seq<Source>, t: Target, selected: seq<nat>, ghost imgs: seq<Image>)
    returns (outcomes: seq<Result<seq<byte>, ReadError>>)
    requires Ready(sources, t, imgs, selected)
    requires forall j :: 0 <= j < |selected| ==> PlanOf(sources[selected[j]], t).Some?
    ensures |outcomes| == |selected|
    ensures forall j :: 0 <= j < |selected| ==> OutcomeOf(outcomes[j], sources[selected[j]], imgs[selected[j]], t)
  {
    hide Mul, PlanOf, Contribution, RowsOf, SourceCarries, CanRead, Source.Valid, Target.Box;
    outcomes := [];
    for j := 0 to |selected|
      invariant |outcomes| == j
      invariant forall i :: 0 <= i < j ==> OutcomeOf(outcomes[i], sources[selected[i]], imgs[selected[i]], t)
    {
      var index := selected[j];
      CarriesItsShape(sources[index], t, imgs[index]);
      var outcome := RunRead(sources[index], t, PlanOf(sources[index], t).value, imgs[index]);
      outcomes := outcomes + [outcome];
    }
  }

  lemma CarriesItsShape(s: Source, t: Target, img: Image)
    requires s.Valid() && t.dest > 0 && t.Box().minLon < t.Box().maxLon && t.Box().minLat < t.Box().maxLat
    requires SourceCarries(s, t, img)
    ensures img.c == s.style.bands.ChannelCount() && FitsLevel(s, FullOf(s, img), t)
  {
    hide PlanOf, LevelFor;
  }

  /** The tiles composed: the mosaic, or nothing if that is transparent
      everywhere. */
  method ComposeReads(sources: seq<Source>, t: Target, tiles: seq<seq<byte>>, ghost fulls: seq<Image>, ghost order: seq<nat>)
    returns (r: Option<seq<byte>>)
    requires Sound(sources, fulls, t, order) && TilesOf(tiles, sources, fulls, t, order)
    ensures r.Some? <==> exists x: nat, y: nat :: x < t.dest && y < t.dest && MosaicImage(sources, fulls, t, order).at(x, y, 3) != 0
    ensures r.Some? ==> RowsOf(r.value, MosaicImage(sources, fulls, t, order), 0, t.dest)
  {
    hide Mul, Contribution, RowsOf, MosaicImage, LevelFor, Planned, Laid, Opaque, FitsLevel, Source.Valid;
    var pixels := Mul(t.dest, t.dest);
    ghost var drawn := Planned(sources, t, order);
    forall j | 0 <= j < |tiles| ensures |tiles[j]| == Mul(pixels, 4) {
      TileLength(tiles[j], Contribution(sources[drawn[j]], fulls[drawn[j]], t), t.dest);
    }
    OpaqueIffVisible(tiles, sources, fulls, t, order);
    r := ComposeInSourceIdOrder(tiles, pixels);
    if r.Some? { LaidIsMosaic(r.value, tiles, sources, fulls, t, order); }
  }

  ghost predicate OutcomeOf(outcome: Result<seq<byte>, ReadError>, s: Source, img: Image, t: Target)
    requires s.Valid() && t.dest > 0 && t.Box().minLon < t.Box().maxLon && t.Box().minLat < t.Box().maxLat
  {
    && (outcome.Ok? <==> CanRead(s, t))
    && (outcome.Ok? ==> img.c == s.style.bands.ChannelCount() && RowsOf(outcome.value, Contribution(s, FullOf(s, img), t), 0, t.dest))
  }

  lemma PlanIsOrdered(s: Source, t: Target)
    requires s.Valid() && t.dest > 0 && t.Box().minLon < t.Box().maxLon && t.Box().minLat < t.Box().maxLat
    requires PlanOf(s, t).Some?
    ensures var p := PlanOf(s, t).value; p.x0 < p.x1 && p.y0 < p.y1
  {
  }

  lemma Ascends(kept: seq<nat>, slot: nat)
    requires slot < |kept| && Ascending(kept)
    ensures forall i :: i in kept && i < kept[slot] ==> exists j :: 0 <= j < slot && kept[j] == i
  {
  }

  lemma TileLength(tile: seq<byte>, image: Image, dest: nat)
    requires image.c == 4 && image.w == dest && image.h == dest && RowsOf(tile, image, 0, dest)
    ensures |tile| == Mul(Mul(dest, dest), 4)
  {
    hide Mul;
    PixelOffset(dest, 4, dest, 0);
  }

  // ---- Provenance --------------------------------------------------------

  datatype VerifyError = OtherLength | OtherDigest | NotOpened | WrongBox

  /** The file is the one the manifest recorded: its length, its digest, and
      the box that its own tags give. */
  ghost predicate Verifies(s: Source, sha: seq<byte> -> Digest) {
    && |s.tf.file| == s.byteLength && sha(s.tf.file) == s.digest && Openable(s.tf.file)
    && var geo := Opened(s.tf.file).geo; geo.Some? && BoxMatches(s.declared, geo.value.Extent())
  }

  /** A verified source is sound. */
  lemma VerifiedIsValid(s: Source, sha: seq<byte> -> Digest)
    requires s.Faithful() && Verifies(s, sha)
    ensures s.Valid()
  {
    hide Openable, Opened, TilingOf;
    OpenedIsSound(s.tf.file);
    TilingsAreLevels(s);
  }

  lemma TilingsAreLevels(s: Source)
    requires s.levels != [] && forall i :: 0 <= i < |s.levels| ==> TilingOf(s.levels[i], s.style.bands).Valid()
    ensures Levels(s.levels)
  {
  }

  /** Length, digest, then the tags. */
  method VerifySource(s: Source, sha: seq<byte> -> Digest) returns (r: Result<(), VerifyError>)
    ensures r.Ok? <==> Verifies(s, sha)
    ensures r.Ok? <==>
      && |s.tf.file| == s.byteLength && sha(s.tf.file) == s.digest && Openable(s.tf.file) && Opened(s.tf.file).geo.Some?
      && BoxMatches(s.declared, Opened(s.tf.file).geo.value.Extent())
  {
    hide Openable, Opened;
    if |s.tf.file| != s.byteLength {
      return Err(OtherLength);
    }
    if sha(s.tf.file) != s.digest {
      return Err(OtherDigest);
    }
    var meta := Open(s.tf.file);
    if meta.Err? {
      return Err(NotOpened);
    }
    if meta.value.geo.None? || !BoxMatches(s.declared, meta.value.geo.value.Extent()) {
      return Err(WrongBox);
    }
    return Ok(());
  }

  /** The ones among `indices` that are not verified yet, in order. */
  function Pending(indices: seq<nat>, verified: set<nat>): (r: seq<nat>)
    ensures forall i :: i in r <==> i in indices && i !in verified
  {
    if indices == [] then []
    else Pending(indices[..|indices| - 1], verified)
         + (if indices[|indices| - 1] in verified then [] else [indices[|indices| - 1]])
  }

  lemma {:induction false} PendingAscends(indices: seq<nat>, verified: set<nat>)
    requires Ascending(indices)
    ensures Ascending(Pending(indices, verified))
  {
    if indices != [] {
      var before, last := indices[..|indices| - 1], indices[|indices| - 1];
      PendingAscends(before, verified);
      forall i | i in Pending(before, verified) ensures i < last {
        var k :| 0 <= k < |before| && before[k] == i;
        assert indices[k] == i;
      }
      var front, r := Pending(before, verified), Pending(indices, verified);
      forall a, b | 0 <= a < b < |r| ensures r[a] < r[b] {
        if b == |front| { assert front[a] in front; }
      }
    }
  }

  method VerifyEach(sources: seq<Source>, sha: seq<byte> -> Digest, indices: seq<nat>) returns (outcomes: seq<Result<(), VerifyError>>)
    requires forall j :: 0 <= j < |indices| ==> indices[j] < |sources|
    ensures |outcomes| == |indices|
    ensures forall j :: 0 <= j < |indices| ==> (outcomes[j].Ok? <==> Verifies(sources[indices[j]], sha))
  {
    hide Verifies;
    outcomes := [];
    for j := 0 to |indices|
      invariant |outcomes| == j && forall k :: 0 <= k < j ==> (outcomes[k].Ok? <==> Verifies(sources[indices[k]], sha))
    {
      var outcome := VerifySource(sources[indices[j]], sha);
      outcomes := outcomes + [outcome];
    }
  }

  /** A mosaic over these sources; each is verified at most once. */
  class Backend {
    const sources: seq<Source>
    const sha: seq<byte> -> Digest
    var verified: set<nat>

    constructor (sources: seq<Source>, sha: seq<byte> -> Digest)
      ensures this.sources == sources && this.sha == sha && verified == {} && Valid()
    {
      this.sources, this.sha, verified := sources, sha, {};
    }

    /** Nothing counts as verified that is not what the manifest says. */
    ghost predicate Valid()
      reads this
    {
      forall i :: i in verified ==> i < |sources| && Verifies(sources[i], sha)
    }

    /** Verifies what is not verified yet, at most so many at a time; fails for
        the lowest source that is not what the manifest says. */
    method EnsureMetas(indices: seq<nat>) returns (r: Result<(), (nat, VerifyError)>)
      requires Valid() && Ascending(indices) && forall j :: 0 <= j < |indices| ==> indices[j] < |sources|
      modifies this
      ensures Valid() && verified == old(verified) + (set i | i in indices && Verifies(sources[i], sha))
      ensures r.Ok? <==> forall i :: i in indices ==> Verifies(sources[i], sha)
      ensures r.Err? ==> r.error.0 in indices && !Verifies(sources[r.error.0], sha) && forall i :: i in indices && i < r.error.0 ==> Verifies(sources[i], sha)
    {
      hide Verifies, Ascending, Pending;
      var pending := Pending(indices, verified);
      PendingAscends(indices, verified);
      assert forall j :: 0 <= j < |pending| ==> pending[j] in pending;
      var outcomes := VerifyEach(sources, sha, pending);
      var gathered := GatherBounded(outcomes, MAX_CONCURRENT_READS);
      verified := verified + set j | 0 <= j < |pending| && outcomes[j].Ok? :: pending[j];
      if gathered.Err? {
        var (slot, why) := gathered.error;
        Ascends(pending, slot);
        return Err((pending[slot], why));
      }
      return Ok(());
    }

    /** One mosaic tile. No source is decoded before its bytes are proven; the
        pixel budget is charged once for all reads; a failure is reported for
        the lowest source that failed; otherwise the tile is every source that
        the manifest places on it, laid over one another, whichever read
        finished first. */
    method RasterTile(t: Target, ghost imgs: seq<Image>) returns (r: Result<Option<seq<byte>>, TileError>)
      requires Valid() && Given(sources, t, imgs)
      modifies this
      ensures var kept := Selected(sources, t.Box(), |sources|);
        && Valid() && verified == old(verified) + (set i | i in kept && Verifies(sources[i], sha))
        && if r.Err? && r.error.Provenance? then
             r.error.index in kept && !Verifies(sources[r.error.index], sha) && forall i :: i in kept && i < r.error.index ==> Verifies(sources[i], sha)
           else
             && (forall i :: i in kept ==> Verifies(sources[i], sha)) && Ready(sources, t, imgs, kept)
             && (r == Err(PixelBudget) <==> TotalPixels(sources, kept, t, |kept|) > 4000000)
             && (r != Err(PixelBudget) ==> ReadsAnswer(r, sources, t, kept, imgs))
    {
      hide Mul, PlanOf, Selected, TotalPixels, SourceCarries, CanRead, Verifies, ReadsAnswer, Ascending, Source.Faithful, Source.Valid, Target.Box, Southward;
      SelectedAre(sources, t.Box(), |sources|);
      var selected := SelectSources(sources, t.Box());
      var ensured := EnsureMetas(selected);
      if ensured.Err? {
        return Err(Provenance(ensured.error.0, ensured.error.1));
      }
      forall j | 0 <= j < |selected| ensures sources[selected[j]].Valid() {
        assert selected[j] in selected;
        VerifiedIsValid(sources[selected[j]], sha);
      }
      var total, drawn := PlanReads(sources, t, selected);
      if total > MAX_SOURCE_PIXELS {
        return Err(PixelBudget);
      }
      r := ReadAndCompose(sources, t, selected, drawn, imgs);
    }
  }

  /** The reads of a tile, and what they compose to. */
  method ReadAndCompose(sources: seq<Source>, t: Target, ghost order: seq<nat>, drawn: seq<nat>, ghost imgs: seq<Image>)
    returns (r: Result<Option<seq<byte>>, TileError>)
    requires Ready(sources, t, imgs, order) && Ascending(order)
    requires drawn == Planned(sources, t, order)
    ensures ReadsAnswer(r, sources, t, order, imgs)
    ensures r.Err? ==> r.error.SourceFailed?
  {
    hide Mul, Contribution, RowsOf, PlanOf, MosaicImage, LevelFor, Planned, SourceCarries, CanRead, FullOf, Ascending, Source.Valid, Target.Box, Sound;
    PlannedAscends(sources, t, order);
    ReadyIsSound(sources, t, imgs, order);
    var outcomes := RunReads(sources, t, drawn, imgs);
    var gathered := GatherBounded(outcomes, MAX_CONCURRENT_READS);
    if gathered.Err? {
      var (slot, error) := gathered.error;
      Ascends(drawn, slot);
      return Err(SourceFailed(drawn[slot], error));
    }
    assert forall j :: 0 <= j < |drawn| ==> outcomes[j] == Ok(gathered.value[j]);
    var composed := ComposeReads(sources, t, gathered.value, Fulls(sources, imgs), order);
    return Ok(composed);
  }

  lemma {:induction false} PlannedAscends(sources: seq<Source>, t: Target, order: seq<nat>)
    requires t.dest > 0 && t.Box().minLon < t.Box().maxLon && t.Box().minLat < t.Box().maxLat
    requires Ascending(order) && forall j :: 0 <= j < |order| ==> order[j] < |sources| && sources[order[j]].Valid()
    ensures Ascending(Planned(sources, t, order))
  {
    hide PlanOf, Source.Valid, Target.Box;
    if order != [] {
      var before, last := order[..|order| - 1], order[|order| - 1];
      var front, r := Planned(sources, t, before), Planned(sources, t, order);
      PlannedAscends(sources, t, before);
      forall j | 0 <= j < |front| ensures front[j] < last {
        var k :| 0 <= k < |before| && before[k] == front[j];
        assert order[k] == front[j];
      }
    }
  }

  // ---- What the manifest overlooks ---------------------------------------

  function All(n: nat): (order: seq<nat>)
    ensures |order| == n && forall j :: 0 <= j < n ==> order[j] == j
  {
    if n == 0 then [] else All(n - 1) + [n - 1]
  }

  /** Some place of the tile is on a source that the manifest does not place
      there. */
  predicate Overlooks(sources: seq<Source>, t: Target)
    requires t.dest > 0
  {
    exists i: nat, dx: nat, dy: nat {:trigger Covers(sources[i], t, dx, dy)} ::
      i < |sources| && dx < t.dest && dy < t.dest && !Intersects(sources[i].declared, t.Box()) && Covers(sources[i], t, dx, dy)
  }

  ghost predicate AllSound(sources: seq<Source>, fulls: seq<Image>, t: Target) {
    && t.Valid() && t.Box().minLon < t.Box().maxLon && t.Box().minLat < t.Box().maxLat && |sources| == |fulls|
    && forall i :: 0 <= i < |sources| ==> sources[i].Valid() && FitsLevel(sources[i], fulls[i], t)
  }

  /** The sources placed on the tile and all sources give the same tile. */
  ghost predicate SameMosaic(sources: seq<Source>, fulls: seq<Image>, t: Target)
    requires AllSound(sources, fulls, t)
  {
    forall x: nat, y: nat, k: nat :: x < t.dest && y < t.dest ==>
      MosaicImage(sources, fulls, t, Selected(sources, t.Box(), |sources|)).at(x, y, k) == MosaicImage(sources, fulls, t, All(|sources|)).at(x, y, k)
  }

  lemma {:induction false} PlacedSuffice(sources: seq<Source>, fulls: seq<Image>, t: Target, n: nat, x: nat, y: nat, k: nat)
    requires AllSound(sources, fulls, t) && n <= |sources| && !Overlooks(sources, t) && x < t.dest && y < t.dest
    ensures Sound(sources, fulls, t, Selected(sources, t.Box(), n)) && Sound(sources, fulls, t, All(n))
    ensures TopSample(sources, fulls, t, Selected(sources, t.Box(), n), x, y, k) == TopSample(sources, fulls, t, All(n), x, y, k)
  {
    hide Contribution, FitsLevel, Intersects, Covers, Source.Valid, Southward, Target.Box, Overlooks;
    if n > 0 {
      var i, kept, all := n - 1, Selected(sources, t.Box(), n), All(n);
      assert all[..|all| - 1] == All(n - 1);
      PlacedSuffice(sources, fulls, t, n - 1, x, y, k);
      if Intersects(sources[i].declared, t.Box()) {
        assert kept[..|kept| - 1] == Selected(sources, t.Box(), n - 1);
      } else {
        NotOverlooked(sources, t, i, x, y);
        ContributionIs(sources[i], fulls[i], t, x, y, 3);
        assert kept == Selected(sources, t.Box(), n - 1) && all[|all| - 1] == i;
      }
    }
  }

  lemma NotOverlooked(sources: seq<Source>, t: Target, i: nat, x: nat, y: nat)
    requires t.dest > 0 && !Overlooks(sources, t) && i < |sources| && x < t.dest && y < t.dest && !Intersects(sources[i].declared, t.Box())
    ensures !Covers(sources[i], t, x, y)
  {
  }

  /** If all other sources are transparent here, the one is seen. */
  lemma {:induction false} OnlyOneSeen(sources: seq<Source>, fulls: seq<Image>, t: Target, order: seq<nat>, i: nat, x: nat, y: nat)
    requires Sound(sources, fulls, t, order) && i < |sources|
    requires forall j: nat :: j < |order| && order[j] != i ==> Contribution(sources[order[j]], fulls[order[j]], t).at(x, y, 3) == 0
    ensures TopSample(sources, fulls, t, order, x, y, 3) == if i in order then Contribution(sources[i], fulls[i], t).at(x, y, 3) else 0
    decreases |order|
  {
    hide Contribution, FitsLevel, Source.Valid, Southward, Target.Box;
    if order != [] { OnlyOneSeen(sources, fulls, t, order[..|order| - 1], i, x, y); }
  }

  /** Source `i` opaque everywhere, the others transparent. */
  function Lit(sources: seq<Source>, t: Target, i: nat): (fulls: seq<Image>)
    requires t.dest > 0 && forall j :: 0 <= j < |sources| ==> sources[j].Valid()
    ensures |fulls| == |sources|
  {
    seq(|sources|, j requires 0 <= j < |sources| =>
      Image(LevelFor(sources[j], t).width, LevelFor(sources[j], t).height, 4, (x: nat, y: nat, k: nat) => if j == i then 255 else 0))
  }

  lemma OverlookedIsMissed(sources: seq<Source>, t: Target, i: nat, x: nat, y: nat)
    requires t.Valid() && t.Box().minLon < t.Box().maxLon && t.Box().minLat < t.Box().maxLat
    requires (forall j :: 0 <= j < |sources| ==> sources[j].Valid()) && i < |sources| && x < t.dest && y < t.dest
    requires !Intersects(sources[i].declared, t.Box()) && Covers(sources[i], t, x, y)
    ensures AllSound(sources, Lit(sources, t, i), t) && !SameMosaic(sources, Lit(sources, t, i), t)
  {
    hide Intersects, Covers, Source.Valid, Southward, Target.Box, BestIndex, Contribution, Selected;
    var fulls, kept, all := Lit(sources, t, i), Selected(sources, t.Box(), |sources|), All(|sources|);
    forall j: nat | j < |sources|
      ensures Contribution(sources[j], fulls[j], t).at(x, y, 3) == if j == i then 255 else 0
    {
      ContributionIs(sources[j], fulls[j], t, x, y, 3);
    }
    SelectedAre(sources, t.Box(), |sources|);
    OnlyOneSeen(sources, fulls, t, kept, i, x, y);
    assert all[i] == i;
    OnlyOneSeen(sources, fulls, t, all, i, x, y);
    assert MosaicImage(sources, fulls, t, kept).at(x, y, 3) != MosaicImage(sources, fulls, t, all).at(x, y, 3);
  }

  /** Reading only what the manifest places on the tile is composing every
      source, whatever the sources show, if and only if no place of the tile is
      on a source that is not placed there. */
  lemma SelectionSufficesIff(sources: seq<Source>, t: Target)
    requires t.Valid() && t.Box().minLon < t.Box().maxLon && t.Box().minLat < t.Box().maxLat
    requires forall j :: 0 <= j < |sources| ==> sources[j].Valid()
    ensures (forall fulls :: AllSound(sources, fulls, t) ==> SameMosaic(sources, fulls, t)) <==> !Overlooks(sources, t)
  {
    hide Intersects, Covers, Source.Valid, Southward, Target.Box, Contribution, Selected, TopSample, FitsLevel;
    if Overlooks(sources, t) {
      var i: nat, x: nat, y: nat :| i < |sources| && x < t.dest && y < t.dest && !Intersects(sources[i].declared, t.Box()) && Covers(sources[i], t, x, y);
      OverlookedIsMissed(sources, t, i, x, y);
    } else {
      forall fulls | AllSound(sources, fulls, t) ensures SameMosaic(sources, fulls, t) {
        forall x: nat, y: nat, k: nat | x < t.dest && y < t.dest
          ensures TopSample(sources, fulls, t, Selected(sources, t.Box(), |sources|), x, y, k) == TopSample(sources, fulls, t, All(|sources|), x, y, k)
        {
          PlacedSuffice(sources, fulls, t, |sources|, x, y, k);
        }
      }
    }
  }

  /** Every pixel centre of the tile is further than `margin` from its edges. */
  ghost predicate CentresInside(t: Target, margin: real)
    requires t.dest > 0
  {
    && (forall dx: nat :: dx < t.dest ==>
          t.Box().minLon + margin < LonOfColumn(Centre(t.coord.x, dx, t.dest), Side(t.coord)) < t.Box().maxLon - margin)
    && (forall dy: nat :: dy < t.dest ==>
          t.Box().minLat + margin < t.lat(Centre(t.coord.y, dy, t.dest), Side(t.coord)) < t.Box().maxLat - margin)
  }

  /** The declared box is off by no more than `margin`. */
  predicate Within(declared: Bbox, measured: Bbox, margin: real) {
    && declared.minLon - margin <= measured.minLon && measured.maxLon <= declared.maxLon + margin
    && declared.minLat - margin <= measured.minLat && measured.maxLat <= declared.maxLat + margin
  }

  lemma MarginHidesNothing(sources: seq<Source>, t: Target, margin: real)
    requires t.dest > 0 && CentresInside(t, margin) && forall j :: 0 <= j < |sources| ==> Within(sources[j].declared, sources[j].g.Extent(), margin)
    ensures !Overlooks(sources, t)
  {
    hide TileBbox, LonOfColumn, Centre;
  }

  lemma LonOfCentre(t: Target, dx: nat)
    requires t.dest > 0 && dx < t.dest
    ensures var lon, west, share := LonOfColumn(Centre(t.coord.x, dx, t.dest), Side(t.coord)), t.Box().minLon, Share(dx, t.dest);
            0.0 < share < 1.0 && lon - west == share * (t.Box().maxLon - west)
  {
    CentreInside(dx, t.dest);
    LonIsLinear(t.coord.x as real, Share(dx, t.dest), Side(t.coord));
  }

  /** If the declared boxes are the measured ones, selection is exact on every
      tile: a source is selected exactly if it has a plan, and reading the
      selected ones is composing all of them. */
  lemma SelectionIsExact(sources: seq<Source>, t: Target)
    requires t.Valid() && t.Box().minLon < t.Box().maxLon && t.Box().minLat < t.Box().maxLat
    requires forall j :: 0 <= j < |sources| ==> sources[j].Valid() && sources[j].declared == sources[j].g.Extent()
    ensures forall j :: 0 <= j < |sources| ==> (Intersects(sources[j].declared, t.Box()) <==> PlanOf(sources[j], t).Some?)
    ensures forall fulls :: AllSound(sources, fulls, t) ==> SameMosaic(sources, fulls, t)
  {
    assert CentresInside(t, 0.0) by {
      forall dx: nat | dx < t.dest
        ensures t.Box().minLon < LonOfColumn(Centre(t.coord.x, dx, t.dest), Side(t.coord)) < t.Box().maxLon
      {
        LonOfCentre(t, dx);
        var offset := ShareIsLess(Share(dx, t.dest), t.Box().maxLon - t.Box().minLon);
      }
      forall dy: nat | dy < t.dest { CentreInside(dy, t.dest); }
    }
    hide CentresInside, Intersects, SameMosaic, AllSound, PlanWindow, Southward, Overlooks;
    MarginHidesNothing(sources, t, 0.0);
    SelectionSufficesIff(sources, t);
  }

  // ---- The tiles that are served -----------------------------------------

  const MAX_ZOOM: nat := 24
  const DEST_TILE_SIZE_PX: nat := 256

  /** A tile that a request can name, at the size it is drawn in. */
  predicate Served(t: Target) {
    t.coord.z <= MAX_ZOOM && t.coord.x < Pow2(t.coord.z) && t.coord.y < Pow2(t.coord.z) && t.dest == DEST_TILE_SIZE_PX
  }

  /** Latitude falls by at least 31 degrees a world, as it does on the Web
      Mercator square: least at its edges, where it is 360 / cosh(pi). */
  ghost predicate Steep(lat: Projection, side: real) {
    forall a: real, b: real :: 0.0 <= a < b <= side ==> lat(a, side) - lat(b, side) >= 31.0 * (b - a) / side
  }

  lemma {:induction false} Pow2Grows(n: nat, m: nat)
    requires n <= m
    ensures Pow2(n) <= Pow2(m)
    decreases m
  {
    if n < m { Pow2Grows(n, m - 1); }
  }

  /** Half a pixel is at least 2^-33 of the world. */
  lemma HalfPixel(x: real, side: real)
    requires 0.0 < side <= 16777216.0 && x >= 1.0 / 512.0
    ensures x / side >= 1.0 / 8589934592.0
  {
    var q := x / side;
    assert q * side == x;
  }

  lemma ServedSide(t: Target)
    requires Served(t)
    ensures 0.0 < Side(t.coord) <= 16777216.0
  {
    Pow2Grows(t.coord.z, 24);
    assert Pow2(8) == 256 && Pow2(16) == 256 * Pow2(8) && Pow2(24) == 256 * Pow2(16);
  }

  lemma ServedColumn(t: Target, dx: nat)
    requires Served(t) && dx < t.dest
    ensures t.Box().minLon + BBOX_TOLERANCE < LonOfColumn(Centre(t.coord.x, dx, t.dest), Side(t.coord)) < t.Box().maxLon - BBOX_TOLERANCE
  {
    ServedSide(t);
    var share, side := Share(dx, t.dest), Side(t.coord);
    var x := t.coord.x as real;
    HalfPixel(share, side);
    HalfPixel(1.0 - share, side);
    QuotientSums(x, share, side);
    QuotientSums(x + share, 1.0 - share, side);
  }

  lemma QuotientSums(a: real, b: real, s: real)
    requires s > 0.0
    ensures (a + b) / s == a / s + b / s
  {
    var p, q, r := a / s, b / s, (a + b) / s;
    assert p * s == a && q * s == b && r * s == a + b;
    assert (r - (p + q)) * s == 0.0;
  }

  lemma ServedRow(t: Target, dy: nat)
    requires Served(t) && Steep(t.lat, Side(t.coord)) && dy < t.dest
    ensures t.Box().minLat + BBOX_TOLERANCE < t.lat(Centre(t.coord.y, dy, t.dest), Side(t.coord)) < t.Box().maxLat - BBOX_TOLERANCE
  {
    ServedSide(t);
    var share, side, y := Share(dy, t.dest), Side(t.coord), t.coord.y as real;
    assert (t.coord.y + 1) as real <= side;
    HalfPixel(share, side);
    HalfPixel(1.0 - share, side);
    Descent(t.lat, y, y + share, side);
    Descent(t.lat, y + share, y + 1.0, side);
  }

  lemma Descent(lat: Projection, a: real, b: real, side: real)
    requires side > 0.0 && Steep(lat, side) && 0.0 <= a < b <= side
    ensures lat(a, side) - lat(b, side) >= 31.0 * ((b - a) / side)
  {
    var q := (b - a) / side;
    assert q * side == b - a;
    var r := 31.0 * (b - a) / side;
    assert r * side == 31.0 * (b - a);
    assert (r - 31.0 * q) * side == 0.0;
  }

  /** On every tile that is served, verified sources lose nothing to selection:
      the tolerance of verification is less than half a pixel. */
  lemma ServedTilesLoseNothing(sources: seq<Source>, t: Target)
    requires t.Valid() && t.Box().minLon < t.Box().maxLon && t.Box().minLat < t.Box().maxLat
    requires t.coord.z <= 24 && t.coord.x < Pow2(t.coord.z) && t.coord.y < Pow2(t.coord.z) && t.dest == 256
    requires Steep(t.lat, Side(t.coord)) && forall j :: 0 <= j < |sources| ==> sources[j].Valid()
    ensures forall fulls :: AllSound(sources, fulls, t) ==> SameMosaic(sources, fulls, t)
  {
    assert Served(t);
    hide Intersects, SameMosaic, AllSound, Southward, Steep, Served, TileBbox, Overlooks, LonOfColumn, Centre;
    assert CentresInside(t, BBOX_TOLERANCE) by {
      forall dx: nat | dx < t.dest { ServedColumn(t, dx); }
      forall dy: nat | dy < t.dest { ServedRow(t, dy); }
    }
    MarginHidesNothing(sources, t, BBOX_TOLERANCE);
    SelectionSufficesIff(sources, t);
  }
}
