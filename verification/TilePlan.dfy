/** From a Web Mercator tile to pixels of a raster: which overview, which
    window of it, and which source pixel each destination pixel shows. Angles
    and pixel coordinates are reals. */
module TilePlan {
  import opened Wrappers
  import opened Globe
  import opened Grid
  import opened Raster
  import opened Chunks
  import opened Author
  import opened WindowReader
  import opened CogOpen

  datatype Coord = Coord(z: nat, x: nat, y: nat)

  /** Latitude of a fractional tile row on a grid of that many rows. */
  type Projection = (real, real) -> real

  /** The inverse projection runs strictly south. */
  ghost predicate Southward(lat: Projection, side: real) {
    forall a: real, b: real :: a < b ==> lat(a, side) > lat(b, side)
  }

  function Side(coord: Coord): real { Pow2(coord.z) as real }

  function LonOfColumn(column: real, side: real): real
    requires side > 0.0
  {
    column / side * 360.0 - 180.0
  }

  function TileBbox(lat: Projection, coord: Coord): Bbox {
    Bbox(LonOfColumn(coord.x as real, Side(coord)), lat(coord.y as real + 1.0, Side(coord)),
         LonOfColumn(coord.x as real + 1.0, Side(coord)), lat(coord.y as real, Side(coord)))
  }

  function Ceil(x: real): int { -((-x).Floor) }

  function MinReal(a: real, b: real): real { if a <= b then a else b }

  function MaxReal(a: real, b: real): real { if a >= b then a else b }

  function Clamp(v: real, hi: real): real { MinReal(MaxReal(v, 0.0), hi) }

  // ---- Order laws of a positive divisor ----------------------------------

  lemma QuotientOrder(a: real, b: real, s: real)
    requires s > 0.0
    ensures a < b <==> a / s < b / s
  {
    var p, q := a / s, b / s;
    assert p * s == a && q * s == b;
    if p < q { assert (q - p) * s > 0.0; } else { assert (p - q) * s >= 0.0; }
  }

  lemma QuotientOfScale(width: real, n: real)
    requires width > 0.0 && n > 0.0
    ensures width / n > 0.0 && width / (width / n) == n
  {
    var s := width / n;
    assert s * n == width;
    QuotientOrder(0.0, width, n);
    var t := width / s;
    assert t * s == width;
    assert (t - n) * s == 0.0;
    assert t - n == 0.0 || s == 0.0;
  }

  // ---- The grid ----------------------------------------------------------

  lemma ColumnOrder(column: real, side: real, east: real)
    requires side > 0.0
    ensures column / side * 360.0 <= east <==> column <= east * side / 360.0
  {
    var p, q := column / side, east * side / 360.0;
    assert p * side == column && q * 360.0 == east * side;
    if p * 360.0 <= east {
      assert (east - p * 360.0) * side >= 0.0;
    } else {
      assert (p * 360.0 - east) * side > 0.0;
    }
  }

  /** The columns of a zoom tile the world from 180 degrees west to 180 degrees
      east, and each longitude lies in one of them. */
  lemma ColumnsTileTheWorld(lat: Projection, coord: Coord, lon: real)
    requires -180.0 <= lon < 180.0
    ensures coord.x == 0 ==> TileBbox(lat, coord).minLon == -180.0
    ensures coord.x == Pow2(coord.z) - 1 ==> TileBbox(lat, coord).maxLon == 180.0
    ensures TileBbox(lat, coord).maxLon == TileBbox(lat, coord.(x := coord.x + 1)).minLon
    ensures TileBbox(lat, coord).minLon <= lon < TileBbox(lat, coord).maxLon
       <==> coord.x == ((lon + 180.0) * Pow2(coord.z) as real / 360.0).Floor
  {
    var side := Side(coord);
    ColumnOrder(coord.x as real, side, lon + 180.0);
    ColumnOrder(coord.x as real + 1.0, side, lon + 180.0);
    assert side / side == 1.0;
  }

  /** The rows meet, the northern edge of each being the southern edge of the
      one before. */
  lemma RowsTileTheWorld(lat: Projection, coord: Coord)
    ensures TileBbox(lat, coord).maxLat == lat(coord.y as real, Pow2(coord.z) as real)
    ensures TileBbox(lat, coord).minLat == TileBbox(lat, coord.(y := coord.y + 1)).maxLat
  {
    assert coord.y as real + 1.0 == (coord.y + 1) as real;
  }

  // ---- The overview ------------------------------------------------------

  predicate Levels(levels: seq<Level>) {
    levels != [] && forall i :: 0 <= i < |levels| ==> levels[i].width > 0 && levels[i].height > 0
  }

  /** A pixel of the level is no wider than asked for. */
  predicate FineEnough(level: Level, width: real, desired: real)
    requires level.width > 0
  {
    width / level.width as real <= desired
  }

  lemma FinerIsFineEnough(a: Level, b: Level, width: real, desired: real)
    requires width > 0.0 && a.width >= b.width > 0 && FineEnough(b, width, desired)
    ensures FineEnough(a, width, desired)
  {
    var x, y := a.width as real, b.width as real;
    var p, q := width / x, width / y;
    assert p * x == width && q * y == width;
    QuotientOrder(0.0, width, x);
    assert p * (x - y) >= 0.0;
    assert (q - p) * y >= 0.0;
  }

  /** The coarsest level that is fine enough, or the finest of all. */
  ghost predicate BestLevel(levels: seq<Level>, width: real, desired: real, c: nat)
    requires Levels(levels)
  {
    && c < |levels|
    && (forall j :: 0 <= j < |levels| && FineEnough(levels[j], width, desired) ==> j <= c)
    && (c == 0 || FineEnough(levels[c], width, desired))
  }

  /** That level, found from the coarse end. */
  function BestIndex(levels: seq<Level>, width: real, desired: real): (c: nat)
    requires Levels(levels)
    ensures BestLevel(levels, width, desired, c)
  {
    var last := |levels| - 1;
    if last == 0 || FineEnough(levels[last], width, desired) then last else BestIndex(levels[..last], width, desired)
  }

  /** The scan from the fine end that stops at the first level too coarse; it
      relies on the levels being sorted. */
  method SelectOverview(levels: seq<Level>, width: real, desired: real) returns (chosen: nat)
    requires Levels(levels) && Descending(levels) && width > 0.0
    ensures chosen == BestIndex(levels, width, desired)
  {
    chosen := 0;
    for index := 0 to |levels|
      invariant chosen == if index == 0 then 0 else index - 1
      invariant chosen == 0 || FineEnough(levels[chosen], width, desired)
    {
      if !FineEnough(levels[index], width, desired) {
        forall j | index <= j < |levels| ensures !FineEnough(levels[j], width, desired) {
          if FineEnough(levels[j], width, desired) { FinerIsFineEnough(levels[index], levels[j], width, desired); }
        }
        break;
      }
      chosen := index;
    }
  }

  // ---- The window --------------------------------------------------------

  datatype Plan = Plan(level: nat, fullX0: real, fullX1: real, x0: nat, y0: nat, x1: nat, y1: nat, scaleY: real)

  function ScaleX(g: Georef, level: Level): real
    requires level.width > 0
  {
    g.width / level.width as real
  }

  function ScaleY(g: Georef, level: Level): real
    requires level.height > 0
  {
    g.height / level.height as real
  }

  /** Pixel column of a longitude, and pixel row of a latitude, on a level. */
  function ColumnOf(g: Georef, level: Level, lon: real): real
    requires g.Valid() && level.width > 0
  {
    QuotientOfScale(g.width, level.width as real);
    (lon - g.originX) / ScaleX(g, level)
  }

  function RowOf(g: Georef, level: Level, lat: real): real
    requires g.Valid() && level.height > 0
  {
    QuotientOfScale(g.height, level.height as real);
    (g.originY - lat) / ScaleY(g, level)
  }

  /** One axis of the window: whole pixels around `[a, b)` inside `[0, n)`. */
  ghost predicate AxisWindow(a: real, b: real, n: nat, lo: int, hi: int) {
    lo == Clamp(a, n as real).Floor && hi == Ceil(Clamp(b, n as real))
  }

  /** The window is empty exactly when the interval misses the axis. */
  lemma AxisIsEmptyIff(a: real, b: real, n: nat, lo: int, hi: int)
    requires a < b && n > 0 && AxisWindow(a, b, n, lo, hi)
    ensures 0 <= lo && hi <= n
    ensures lo < hi <==> a < n as real && 0.0 < b
  {
    if a < n as real && 0.0 < b {
      assert Clamp(a, n as real) < Clamp(b, n as real);
    }
  }

  /** Clamping loses nothing: a position of the interval is in the window
      exactly when it is on the axis. */
  lemma AxisLosesNothing(a: real, b: real, n: nat, lo: nat, hi: nat, p: real)
    requires a <= p < b && AxisWindow(a, b, n, lo, hi)
    ensures lo as real <= p < hi as real <==> 0.0 <= p < n as real
  {
    var x, y := Clamp(a, n as real), Clamp(b, n as real);
    CeilBounds(y, n);
    assert 0.0 <= x && y <= n as real;
    if 0.0 <= p < n as real { assert x <= p < y; }
  }

  /** And the window holds no pixel that the interval does not touch. */
  lemma AxisIsTight(a: real, b: real, n: nat, lo: nat, hi: nat)
    requires AxisWindow(a, b, n, lo, hi) && lo < hi
    ensures a < lo as real + 1.0 && (hi - 1) as real < b
  {
    var y := Clamp(b, n as real);
    assert (-y).Floor as real + 1.0 > -y;
    assert (hi - 1) as real < y;
  }

  lemma CeilBounds(y: real, n: nat)
    requires y <= n as real
    ensures y <= Ceil(y) as real && Ceil(y) <= n
  {
    var f := (-y).Floor;
    assert f as real <= -y < f as real + 1.0;
    assert (-f) as real == -(f as real);
    assert (f + n + 1) as real > 0.0;
  }

  ghost predicate Planned(plan: Plan, levels: seq<Level>, g: Georef, bbox: Bbox, dest: nat)
    requires Levels(levels) && g.Valid() && dest > 0
  {
    && plan.level < |levels|
    && BestLevel(levels, g.width, (bbox.maxLon - bbox.minLon) / dest as real, plan.level)
    && var level := levels[plan.level];
       && plan.fullX0 == ColumnOf(g, level, bbox.minLon) && plan.fullX1 == ColumnOf(g, level, bbox.maxLon)
       && AxisWindow(plan.fullX0, plan.fullX1, level.width, plan.x0, plan.x1)
       && AxisWindow(RowOf(g, level, bbox.maxLat), RowOf(g, level, bbox.minLat), level.height, plan.y0, plan.y1)
       && plan.x0 < plan.x1 <= level.width && plan.y0 < plan.y1 <= level.height
       && plan.scaleY == ScaleY(g, level)
  }

  /** An interval of pixels meets the level exactly when the box meets the
      raster on that axis. */
  lemma ColumnsMeet(g: Georef, level: Level, lo: real, hi: real)
    requires g.Valid() && level.width > 0 && lo < hi
    ensures ColumnOf(g, level, lo) < ColumnOf(g, level, hi)
    ensures ColumnOf(g, level, lo) < level.width as real <==> lo < g.originX + g.width
    ensures 0.0 < ColumnOf(g, level, hi) <==> g.originX < hi
  {
    var s := ScaleX(g, level);
    QuotientOfScale(g.width, level.width as real);
    QuotientOrder(lo - g.originX, hi - g.originX, s);
    QuotientOrder(lo - g.originX, g.width, s);
    QuotientOrder(0.0, hi - g.originX, s);
  }

  lemma RowsMeet(g: Georef, level: Level, lo: real, hi: real)
    requires g.Valid() && level.height > 0 && lo < hi
    ensures RowOf(g, level, hi) < RowOf(g, level, lo)
    ensures RowOf(g, level, hi) < level.height as real <==> g.originY - g.height < hi
    ensures 0.0 < RowOf(g, level, lo) <==> lo < g.originY
  {
    var s := ScaleY(g, level);
    QuotientOfScale(g.height, level.height as real);
    QuotientOrder(g.originY - hi, g.originY - lo, s);
    QuotientOrder(g.originY - hi, g.height, s);
    QuotientOrder(0.0, g.originY - lo, s);
  }

  /** Plans the read of a tile: nothing exactly when the tile shares no more
      than an edge with the raster. */
  function PlanWindow(levels: seq<Level>, g: Georef, bbox: Bbox, dest: nat): (r: Option<Plan>)
    requires Levels(levels) && g.Valid() && dest > 0
    requires bbox.minLon < bbox.maxLon && bbox.minLat < bbox.maxLat
    ensures r.Some? <==> Intersects(g.Extent(), bbox)
    ensures r.Some? ==> Planned(r.value, levels, g, bbox, dest)
  {
    var chosen := BestIndex(levels, g.width, (bbox.maxLon - bbox.minLon) / dest as real);
    var level := levels[chosen];
    var fullX0, fullX1 := ColumnOf(g, level, bbox.minLon), ColumnOf(g, level, bbox.maxLon);
    var fullY0, fullY1 := RowOf(g, level, bbox.maxLat), RowOf(g, level, bbox.minLat);
    var w, h := level.width as real, level.height as real;
    var x0, x1 := Clamp(MinReal(fullX0, fullX1), w).Floor, Ceil(Clamp(MaxReal(fullX0, fullX1), w));
    var y0, y1 := Clamp(MinReal(fullY0, fullY1), h).Floor, Ceil(Clamp(MaxReal(fullY0, fullY1), h));
    WindowMeets(g, level, bbox, x0, y0, x1, y1);
    if x1 <= x0 || y1 <= y0 then None else Some(Plan(chosen, fullX0, fullX1, x0, y0, x1, y1, ScaleY(g, level)))
  }

  lemma WindowMeets(g: Georef, level: Level, bbox: Bbox, x0: int, y0: int, x1: int, y1: int)
    requires g.Valid() && level.width > 0 && level.height > 0
    requires bbox.minLon < bbox.maxLon && bbox.minLat < bbox.maxLat
    requires var a, b := ColumnOf(g, level, bbox.minLon), ColumnOf(g, level, bbox.maxLon);
             var c, d := RowOf(g, level, bbox.maxLat), RowOf(g, level, bbox.minLat);
             && x0 == Clamp(MinReal(a, b), level.width as real).Floor && x1 == Ceil(Clamp(MaxReal(a, b), level.width as real))
             && y0 == Clamp(MinReal(c, d), level.height as real).Floor && y1 == Ceil(Clamp(MaxReal(c, d), level.height as real))
    ensures ColumnOf(g, level, bbox.minLon) < ColumnOf(g, level, bbox.maxLon)
    ensures RowOf(g, level, bbox.maxLat) < RowOf(g, level, bbox.minLat)
    ensures 0 <= x0 && x1 <= level.width && 0 <= y0 && y1 <= level.height
    ensures x0 < x1 && y0 < y1 <==> Intersects(g.Extent(), bbox)
  {
    hide ColumnOf, RowOf;
    ColumnsMeet(g, level, bbox.minLon, bbox.maxLon);
    RowsMeet(g, level, bbox.minLat, bbox.maxLat);
    AxisIsEmptyIff(ColumnOf(g, level, bbox.minLon), ColumnOf(g, level, bbox.maxLon), level.width, x0, x1);
    AxisIsEmptyIff(RowOf(g, level, bbox.maxLat), RowOf(g, level, bbox.minLat), level.height, y0, y1);
  }

  /** On the image itself, a place as many pixels from the tied one as `n` says is
      `n` columns, and as many rows, from the tied pixel. */
  lemma TiedColumns(g: Georef, main: Level, i: real, lon: real, scale: real, n: real)
    requires g.Valid() && main.width > 0 && scale > 0.0 && g.width == main.width as real * scale && g.originX + i * scale == lon
    ensures ColumnOf(g, main, lon + n * scale) == i + n
  {
    QuotientOfScale(g.width, main.width as real);
    Steps(g.width, main.width as real, scale);
    Apart(i, n, scale, lon + n * scale - g.originX);
  }

  lemma TiedRows(g: Georef, main: Level, j: real, lat: real, scale: real, n: real)
    requires g.Valid() && main.height > 0 && scale > 0.0 && g.height == main.height as real * scale && g.originY - j * scale == lat
    ensures RowOf(g, main, lat - n * scale) == j + n
  {
    QuotientOfScale(g.height, main.height as real);
    Steps(g.height, main.height as real, scale);
    Apart(j, n, scale, g.originY - (lat - n * scale));
  }

  lemma Steps(extent: real, n: real, scale: real)
    requires n > 0.0 && extent == n * scale
    ensures extent / n == scale
  {
  }

  lemma Apart(i: real, n: real, scale: real, distance: real)
    requires scale > 0.0 && distance == i * scale + n * scale
    ensures distance / scale == i + n
  {
    assert distance == (i + n) * scale;
  }

  // ---- Destination pixels ------------------------------------------------

  /** The share of a tile's side that lies before a pixel centre. */
  function Share(d: nat, dest: nat): real
    requires dest > 0
  {
    (d as real + 0.5) / dest as real
  }

  /** The centre of destination column or row `d`, in tiles. */
  function Centre(t: nat, d: nat, dest: nat): real
    requires dest > 0
  {
    t as real + Share(d, dest)
  }

  /** True source coordinates of a destination pixel on a level. */
  function TrueColumn(g: Georef, level: Level, coord: Coord, dx: nat, dest: nat): real
    requires g.Valid() && level.width > 0 && dest > 0
  {
    ColumnOf(g, level, LonOfColumn(Centre(coord.x, dx, dest), Side(coord)))
  }

  function TrueRow(g: Georef, level: Level, lat: Projection, coord: Coord, dy: nat, dest: nat): real
    requires g.Valid() && level.height > 0 && dest > 0
  {
    RowOf(g, level, lat(Centre(coord.y, dy, dest), Side(coord)))
  }

  /** The longitude of pixel column `dx` of a tile, in plain numbers. */
  lemma CentreLongitude(coord: Coord, dx: nat, dest: nat)
    requires dest > 0
    ensures LonOfColumn(Centre(coord.x, dx, dest), Side(coord)) ==
              -180.0 + 360.0 * (coord.x as real + (dx as real + 0.5) / dest as real) / Pow2(coord.z) as real
  {
    Times360(Centre(coord.x, dx, dest), Side(coord));
  }

  lemma Times360(c: real, side: real)
    requires side > 0.0
    ensures c / side * 360.0 == 360.0 * c / side
  {
    var p, q := c / side, 360.0 * c / side;
    assert p * side == c && q * side == 360.0 * c;
    assert (q - 360.0 * p) * side == 0.0;
  }

  predicate OnAxis(p: real, n: nat) { 0.0 <= p < n as real }

  function SampleAt(full: Image, x: real, y: real, k: nat): byte {
    if OnAxis(x, full.w) && OnAxis(y, full.h) then full.at(x.Floor, y.Floor, k) else 0
  }

  /** A place is on the level exactly if it is on the raster. */
  lemma OnLevelIff(g: Georef, level: Level, lon: real, lat: real)
    requires g.Valid() && level.width > 0 && level.height > 0
    ensures OnAxis(ColumnOf(g, level, lon), level.width) <==> g.originX <= lon < g.originX + g.width
    ensures OnAxis(RowOf(g, level, lat), level.height) <==> g.originY - g.height < lat <= g.originY
  {
    var sx, sy := ScaleX(g, level), ScaleY(g, level);
    QuotientOfScale(g.width, level.width as real);
    QuotientOfScale(g.height, level.height as real);
    QuotientOrder(lon - g.originX, 0.0, sx);
    QuotientOrder(lon - g.originX, g.width, sx);
    QuotientOrder(g.originY - lat, 0.0, sy);
    QuotientOrder(g.originY - lat, g.height, sy);
  }

  /** What the tile is meant to show: the pixel under each centre, transparent
      off the raster. */
  function TileImage(full: Image, g: Georef, level: Level, lat: Projection, coord: Coord, dest: nat): (r: Image)
    requires g.Valid() && level.width > 0 && level.height > 0 && dest > 0
    ensures r.w == dest && r.h == dest && r.c == 4
  {
    Image(dest, dest, 4, (dx: nat, dy: nat, k: nat) =>
      SampleAt(full, TrueColumn(g, level, coord, dx, dest), TrueRow(g, level, lat, coord, dy, dest), k))
  }

  /** Which of `n` equal parts of an extent a distance falls into. */
  function PartOf(distance: real, extent: real, n: nat): (i: nat)
    requires 0.0 <= distance < extent && n > 0
    ensures i < n && i as real * extent <= distance * n as real < (i as real + 1.0) * extent
  {
    QuotientOfScale(extent, n as real);
    var scale := extent / n as real;
    QuotientOrder(distance, extent, scale);
    QuotientOrder(0.0, distance, scale);
    Parts(distance, extent, n, scale, (distance / scale).Floor);
    (distance / scale).Floor
  }

  lemma Parts(distance: real, extent: real, n: nat, scale: real, i: int)
    requires n > 0 && scale > 0.0 && extent > 0.0 && scale * n as real == extent && i == (distance / scale).Floor
    ensures i as real * extent <= distance * n as real < (i as real + 1.0) * extent
  {
    var p, m := distance / scale, n as real;
    assert p * scale == distance;
    assert p * extent == distance * m by { assert p * scale * m == distance * m; }
    QuotientOfScale(extent, m);
    var next := i as real + 1.0;
    assert i as real <= p < next;
    Scales(i as real, p, extent);
    Scales(p, next, extent);
  }

  lemma Scales(a: real, b: real, s: real)
    requires s > 0.0
    ensures (a <= b ==> a * s <= b * s) && (a < b ==> a * s < b * s)
  {
  }

  lemma ColumnPart(g: Georef, level: Level, lon: real)
    requires g.Valid() && level.width > 0 && 0.0 <= lon - g.originX < g.width
    ensures ColumnOf(g, level, lon).Floor == PartOf(lon - g.originX, g.width, level.width)
  {
  }

  lemma RowPart(g: Georef, level: Level, lat: real)
    requires g.Valid() && level.height > 0 && 0.0 <= g.originY - lat < g.height
    ensures RowOf(g, level, lat).Floor == PartOf(g.originY - lat, g.height, level.height)
  {
  }

  lemma CentreLatitude(coord: Coord, dy: nat, dest: nat)
    requires dest > 0
    ensures Centre(coord.y, dy, dest) == coord.y as real + (dy as real + 0.5) / dest as real && Side(coord) == Pow2(coord.z) as real
  {
  }

  /** Each pixel of the tile is the one at its centre's longitude and latitude. */
  lemma TilePixelIs(full: Image, g: Georef, level: Level, lat: Projection, coord: Coord, dest: nat, dx: nat, dy: nat, k: nat)
    requires g.Valid() && dest > 0 && full.w == level.width > 0 && full.h == level.height > 0
    ensures var east, south := LonOfColumn(Centre(coord.x, dx, dest), Side(coord)) - g.originX, g.originY - lat(Centre(coord.y, dy, dest), Side(coord));
            TileImage(full, g, level, lat, coord, dest).at(dx, dy, k) ==
            if 0.0 <= east < g.width && 0.0 <= south < g.height then full.at(PartOf(east, g.width, full.w), PartOf(south, g.height, full.h), k) else 0
  {
    hide LonOfColumn, Centre, ColumnOf, RowOf, PartOf;
    var lon, la := LonOfColumn(Centre(coord.x, dx, dest), Side(coord)), lat(Centre(coord.y, dy, dest), Side(coord));
    OnLevelIff(g, level, lon, la);
    if 0.0 <= lon - g.originX < g.width { ColumnPart(g, level, lon); }
    if 0.0 <= g.originY - la < g.height { RowPart(g, level, la); }
    var x, y := TrueColumn(g, level, coord, dx, dest), TrueRow(g, level, lat, coord, dy, dest);
    assert x == ColumnOf(g, level, lon) && y == RowOf(g, level, la);
    assert TileImage(full, g, level, lat, coord, dest).at(dx, dy, k) == SampleAt(full, x, y, k);
  }

  function Crop(full: Image, x0: nat, y0: nat, w: nat, h: nat): Image {
    Image(w, h, full.c, (x: nat, y: nat, k: nat) => full.at(x0 + x, y0 + y, k))
  }

  function Interpolate(a: real, b: real, t: real): real { a + t * (b - a) }

  /** Interpolating columns linearly is exact: longitude is linear in both. */
  lemma ColumnsAreLinear(g: Georef, level: Level, coord: Coord, dx: nat, dest: nat)
    requires g.Valid() && level.width > 0 && dx < dest
    ensures var west, east := LonOfColumn(coord.x as real, Side(coord)), LonOfColumn(coord.x as real + 1.0, Side(coord));
            var t, a, b := Share(dx, dest), ColumnOf(g, level, west), ColumnOf(g, level, east);
            TrueColumn(g, level, coord, dx, dest) == Interpolate(a, b, t) && a <= Interpolate(a, b, t) < b
  {
    var west, east := LonOfColumn(coord.x as real, Side(coord)), LonOfColumn(coord.x as real + 1.0, Side(coord));
    var t := Share(dx, dest);
    CentreInside(dx, dest);
    LonIsLinear(coord.x as real, t, Side(coord));
    hide LonOfColumn, Interpolate, ColumnOf;
    ColumnBetween(g, level, west, east, t);
  }

  lemma ColumnBetween(g: Georef, level: Level, west: real, east: real, t: real)
    requires g.Valid() && level.width > 0 && west < east && 0.0 < t < 1.0
    ensures var a, b := ColumnOf(g, level, west), ColumnOf(g, level, east);
            ColumnOf(g, level, Interpolate(west, east, t)) == Interpolate(a, b, t) && a <= Interpolate(a, b, t) < b
  {
    var s, p, q := ScaleX(g, level), west - g.originX, east - g.originX;
    QuotientOfScale(g.width, level.width as real);
    LinearQuotient(p, q, t, s);
    assert q - p == east - west;
    assert west + t * (east - west) - g.originX == p + t * (q - p);
    QuotientOrder(p, q, s);
    Between(p / s, q / s, t);
  }

  lemma CentreInside(d: nat, dest: nat)
    requires d < dest
    ensures 0.0 < Share(d, dest) < 1.0
  {
    var n := dest as real;
    QuotientOrder(0.0, d as real + 0.5, n);
    QuotientOrder(d as real + 0.5, n, n);
    assert n / n == 1.0;
  }

  lemma PositiveProduct(u: real, d: real)
    requires u > 0.0 && d > 0.0
    ensures u * d > 0.0
  {
  }

  /** A proper share of a positive length is shorter. */
  lemma ShareIsLess(t: real, d: real) returns (share: real)
    requires 0.0 < t < 1.0 && d > 0.0
    ensures share == t * d && 0.0 < share < d
  {
    share := t * d;
    var u := 1.0 - t;
    var rest := u * d;
    PositiveProduct(t, d);
    PositiveProduct(u, d);
    assert share + rest == d;
  }

  lemma Between(a: real, b: real, t: real)
    requires a < b && 0.0 < t < 1.0
    ensures a <= Interpolate(a, b, t) < b
  {
    var share := ShareIsLess(t, b - a);
  }

  lemma LonIsLinear(x: real, t: real, side: real)
    requires side > 0.0
    ensures LonOfColumn(x, side) < LonOfColumn(x + 1.0, side)
    ensures LonOfColumn(x + t, side) == Interpolate(LonOfColumn(x, side), LonOfColumn(x + 1.0, side), t)
  {
    QuotientOrder(x, x + 1.0, side);
    LinearQuotient(x, x + 1.0, t, side);
    assert x + t * (x + 1.0 - x) == x + t;
  }

  lemma LinearQuotient(a: real, b: real, t: real, s: real)
    requires s > 0.0
    ensures (a + t * (b - a)) / s == a / s + t * (b / s - a / s)
  {
    var p, q, r := a / s, b / s, (a + t * (b - a)) / s;
    assert p * s == a && q * s == b;
    assert (q - p) * s == b - a;
    assert t * (q - p) * s == t * (b - a);
    assert r * s == (p + t * (q - p)) * s;
    assert (r - (p + t * (q - p))) * s == 0.0;
  }

  /** A row centre lies strictly inside its tile, so its source row lies inside
      the tile's own rows. */
  lemma RowsAreInside(g: Georef, level: Level, lat: Projection, coord: Coord, dy: nat, dest: nat)
    requires g.Valid() && level.height > 0 && dy < dest && Southward(lat, Side(coord))
    ensures var bbox := TileBbox(lat, coord);
            bbox.minLat < bbox.maxLat
            && RowOf(g, level, bbox.maxLat) <= TrueRow(g, level, lat, coord, dy, dest) < RowOf(g, level, bbox.minLat)
  {
    var bbox, here := TileBbox(lat, coord), lat(Centre(coord.y, dy, dest), Side(coord));
    CentreInside(dy, dest);
    assert bbox.minLat < here < bbox.maxLat;
    RowsMeet(g, level, here, bbox.maxLat);
    RowsMeet(g, level, bbox.minLat, here);
  }

  // ---- Filling the tile --------------------------------------------------

  /** Rows before `dy`, and bytes before `done` of row `dy`, are those of
      `img`; the rest is still transparent. */
  ghost predicate Painted(buf: seq<byte>, img: Image, dy: nat, done: nat)
    requires img.c > 0
  {
    var n := Mul(img.w, img.c);
    && |buf| == Mul(img.h, n)
    && forall r: nat, b: nat {:trigger Cell(buf, n, r, b)} :: r < img.h && b < n ==>
         Cell(buf, n, r, b) == if r < dy || (r == dy && b < done) then ByteAt(img, r, b) else 0
  }

  lemma PaintOn(buf: seq<byte>, img: Image, dy: nat, done: nat, piece: seq<byte>)
    requires img.c > 0 && Painted(buf, img, dy, done)
    requires dy < img.h && done + |piece| <= Mul(img.w, img.c)
    requires forall j: nat :: j < |piece| ==> piece[j] == ByteAt(img, dy, done + j)
    ensures Off(Mul(img.w, img.c), dy, done) + |piece| <= |buf|
    ensures Painted(Splice(buf, Off(Mul(img.w, img.c), dy, done), piece), img, dy, done + |piece|)
  {
    hide Mul, Div, Mod, ByteAt;
    SpliceCells(buf, Mul(img.w, img.c), img.h, dy, done, piece);
  }

  lemma SkipOn(buf: seq<byte>, img: Image, dy: nat, done: nat, next: nat)
    requires img.c > 0 && Painted(buf, img, dy, done) && done <= next
    requires forall b: nat {:trigger ByteAt(img, dy, b)} :: done <= b < next && b < Mul(img.w, img.c) ==> ByteAt(img, dy, b) == 0
    ensures Painted(buf, img, dy, next)
  {
    hide Mul, Div, Mod, ByteAt, Cell;
  }

  /** The four bytes of one destination pixel. */
  lemma TilePixel(full: Image, g: Georef, level: Level, lat: Projection, coord: Coord, dest: nat, dx: nat, dy: nat, b: nat)
    requires g.Valid() && level.width > 0 && level.height > 0 && dx < dest && dy < dest
    requires Mul(dx, 4) <= b < Mul(dx, 4) + 4
    ensures ByteAt(TileImage(full, g, level, lat, coord, dest), dy, b)
         == SampleAt(full, TrueColumn(g, level, coord, dx, dest), TrueRow(g, level, lat, coord, dy, dest), b - Mul(dx, 4))
  {
    hide Mul, Div, Mod, SampleAt, TrueColumn, TrueRow;
    ByteOfSample(TileImage(full, g, level, lat, coord, dest), dx, dy, b - Mul(dx, 4));
    assert Off(4, dx, b - Mul(dx, 4)) == b;
  }

  /** A row that misses the raster is transparent. */
  lemma EmptyRow(full: Image, g: Georef, level: Level, lat: Projection, coord: Coord, dest: nat, dy: nat)
    requires g.Valid() && level.width > 0 && level.height > 0 && dy < dest
    requires !OnAxis(TrueRow(g, level, lat, coord, dy, dest), full.h)
    ensures forall b: nat {:trigger ByteAt(TileImage(full, g, level, lat, coord, dest), dy, b)} ::
              b < Mul(dest, 4) ==> ByteAt(TileImage(full, g, level, lat, coord, dest), dy, b) == 0
  {
    hide Mul, Div, Mod, TrueColumn, TrueRow;
    forall b: nat | b < Mul(dest, 4) ensures ByteAt(TileImage(full, g, level, lat, coord, dest), dy, b) == 0 {
      OffColumns(4, dest, b);
      OffJoin(4, b);
      TilePixel(full, g, level, lat, coord, dest, Div(b, 4), dy, b);
    }
  }

  /** The four bytes of a window pixel are those of the full image. */
  lemma WindowPixel(window: seq<byte>, full: Image, x0: nat, y0: nat, w: nat, h: nat, x: nat, y: nat, off: nat)
    requires full.c == 4 && RowsOf(window, Crop(full, x0, y0, w, h), 0, h) && x < w && y < h
    requires off == Off(Mul(w, 4), y, Mul(x, 4))
    ensures off + 4 <= |window|
    ensures var pixel := window[off..off + 4]; forall j: nat :: j < 4 ==> pixel[j] == full.at(x0 + x, y0 + y, j)
  {
    hide Mul, Div, Mod;
    SampleOffset(w, h, 4, x, y, 3);
    var pixel := window[off..off + 4];
    forall j: nat | j < 4 ensures pixel[j] == full.at(x0 + x, y0 + y, j) {
      SampleOffset(w, h, 4, x, y, j);
      ByteOfSample(Crop(full, x0, y0, w, h), x, y, j);
      assert Cell(window, Mul(w, 4), y, Off(4, x, j)) == ByteAt(Crop(full, x0, y0, w, h), 0 + y, Off(4, x, j));
    }
  }

  /** The interpolated column is the true one, and the window holds it exactly
      when the level does. */
  lemma SourceColumn(plan: Plan, levels: seq<Level>, g: Georef, lat: Projection, coord: Coord, dest: nat, dx: nat, srcX: real)
    requires Levels(levels) && g.Valid() && dx < dest && Planned(plan, levels, g, TileBbox(lat, coord), dest)
    requires srcX == Interpolate(plan.fullX0, plan.fullX1, Share(dx, dest))
    ensures srcX == TrueColumn(g, levels[plan.level], coord, dx, dest)
    ensures plan.x0 as real <= srcX < plan.x1 as real <==> OnAxis(srcX, levels[plan.level].width)
  {
    hide ColumnOf, TrueColumn, LonOfColumn, AxisWindow, BestLevel, Interpolate;
    ColumnsAreLinear(g, levels[plan.level], coord, dx, dest);
    AxisLosesNothing(plan.fullX0, plan.fullX1, levels[plan.level].width, plan.x0, plan.x1, srcX);
  }

  /** `(src.floor() - lo).min(n - 1)`, the index of a position in a window. */
  lemma IndexInWindow(p: real, lo: nat, hi: nat)
    requires lo as real <= p < hi as real
    ensures lo <= p.Floor < hi && Min(p.Floor - lo, hi - lo - 1) == p.Floor - lo
  {
  }

  /** One destination row: every pixel the raster covers, nothing else. */
  method ResampleRow(out: array<byte>, window: seq<byte>, plan: Plan, dest: nat, dy: nat, srcY: real,
                     ghost levels: seq<Level>, ghost g: Georef, ghost lat: Projection, ghost coord: Coord, ghost full: Image)
    requires Levels(levels) && g.Valid() && dy < dest && Planned(plan, levels, g, TileBbox(lat, coord), dest)
    requires full.w == levels[plan.level].width && full.h == levels[plan.level].height && full.c == 4
    requires RowsOf(window, Crop(full, plan.x0, plan.y0, plan.x1 - plan.x0, plan.y1 - plan.y0), 0, plan.y1 - plan.y0)
    requires srcY == TrueRow(g, levels[plan.level], lat, coord, dy, dest) && plan.y0 as real <= srcY < plan.y1 as real && OnAxis(srcY, full.h)
    requires Painted(out[..], TileImage(full, g, levels[plan.level], lat, coord, dest), dy, 0)
    modifies out
    ensures Painted(out[..], TileImage(full, g, levels[plan.level], lat, coord, dest), dy, Mul(dest, 4))
  {
    hide Mul, Div, Mod, TrueColumn, TrueRow, ColumnOf, RowOf, BestLevel, LonOfColumn, RowsOf, Painted, ByteAt, AxisWindow, ScaleX, ScaleY, Interpolate;
    ghost var level := levels[plan.level];
    ghost var tile := TileImage(full, g, level, lat, coord, dest);
    var winW, winH := plan.x1 - plan.x0, plan.y1 - plan.y0;
    IndexInWindow(srcY, plan.y0, plan.y1);
    var sy := Min(srcY.Floor - plan.y0, winH - 1);
    MulStep(0, 4);
    for dx := 0 to dest
      invariant Painted(out[..], tile, dy, Mul(dx, 4))
    {
      var srcX := Interpolate(plan.fullX0, plan.fullX1, Share(dx, dest));
      SourceColumn(plan, levels, g, lat, coord, dest, dx, srcX);
      MulStep(dx, 4);
      MulLe(dx + 1, dest, 4);
      forall b: nat | Mul(dx, 4) <= b < Mul(dx, 4) + 4 ensures ByteAt(tile, dy, b) == SampleAt(full, srcX, srcY, b - Mul(dx, 4)) {
        TilePixel(full, g, level, lat, coord, dest, dx, dy, b);
      }
      if srcX < plan.x0 as real || srcX >= plan.x1 as real {
        SkipOn(out[..], tile, dy, Mul(dx, 4), Mul(dx + 1, 4));
      } else {
        IndexInWindow(srcX, plan.x0, plan.x1);
        var sx := Min(srcX.Floor - plan.x0, winW - 1);
        var srcOff := PixelIndex(winW, 4, sy, sx);
        WindowPixel(window, full, plan.x0, plan.y0, winW, winH, sx, sy, srcOff);
        var dstOff := PixelIndex(dest, 4, dy, dx);
        var pixel := window[srcOff..srcOff + 4];
        PaintOn(out[..], tile, dy, Mul(dx, 4), pixel);
        CopyRun(out, dstOff, pixel);
      }
    }
  }

  /** Warps the window onto the tile. Nothing is lost to clamping: each pixel
      is the source pixel under its own centre wherever the level has one. */
  method ResampleToTile(window: seq<byte>, plan: Plan, lat: Projection, coord: Coord, dest: nat, originY: real,
                        ghost levels: seq<Level>, ghost g: Georef, ghost full: Image)
    returns (tile: seq<byte>)
    requires Levels(levels) && g.Valid() && dest > 0 && originY == g.originY && Southward(lat, Side(coord))
    requires Planned(plan, levels, g, TileBbox(lat, coord), dest)
    requires full.w == levels[plan.level].width && full.h == levels[plan.level].height && full.c == 4
    requires RowsOf(window, Crop(full, plan.x0, plan.y0, plan.x1 - plan.x0, plan.y1 - plan.y0), 0, plan.y1 - plan.y0)
    ensures RowsOf(tile, TileImage(full, g, levels[plan.level], lat, coord, dest), 0, dest)
  {
    hide Mul, Div, Mod, BestLevel, ByteAt, AxisWindow, TrueColumn, ColumnOf, LonOfColumn, Southward, SampleAt;
    ghost var level := levels[plan.level];
    ghost var meant := TileImage(full, g, level, lat, coord, dest);
    var out := ZeroPixels(dest, dest, 4);
    for dy := 0 to dest
      invariant Painted(out[..], meant, dy, 0)
    {
      var srcY := (originY - lat(Centre(coord.y, dy, dest), Side(coord))) / plan.scaleY;
      assert srcY == TrueRow(g, level, lat, coord, dy, dest);
      RowsAreInside(g, level, lat, coord, dy, dest);
      AxisLosesNothing(RowOf(g, level, TileBbox(lat, coord).maxLat), RowOf(g, level, TileBbox(lat, coord).minLat), level.height, plan.y0, plan.y1, srcY);
      if srcY < plan.y0 as real || srcY >= plan.y1 as real {
        EmptyRow(full, g, level, lat, coord, dest, dy);
        SkipOn(out[..], meant, dy, 0, Mul(dest, 4));
      } else {
        ResampleRow(out, window, plan, dest, dy, srcY, levels, g, lat, coord, full);
      }
    }
    tile := out[..];
  }
}
