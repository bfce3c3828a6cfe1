/** Opening a tiled GeoTIFF: the walk along its directories, the checks on each
    of them, and the order of its levels. */
module CogOpen {
  import opened Wrappers
  import opened Globe
  import opened Raster
  import opened Chunks
  import opened Pixels
  import opened Tiff
  import opened WindowReader
  import GeoKeys

  datatype OpenError = NotATiff | BadDirectory | NoImage | Refused | MixedBands | BadColormap | BadNodata | NotGeoreferenced

  /** What opening finds; `geo` is there if the transform is made of numbers. */
  datatype CogMeta = CogMeta(bands: Bands, levels: seq<Level>, nodata: Nodata, geo: Option<Georef>)

  // ---- The chain of directories ------------------------------------------

  ghost function OffsetsBelow(n: nat): (s: set<nat>)
    ensures forall i: nat :: i in s <==> i < n
  {
    if n == 0 then {} else OffsetsBelow(n - 1) + {n - 1}
  }

  /** The directories from offset `at` on, each found where the previous one
      points; nothing if one is unreadable or an offset comes back. */
  ghost function Chain(file: seq<byte>, at: nat, seen: set<nat>): Option<seq<Ifd>>
    decreases OffsetsBelow(|file|) - seen
  {
    if at == 0 then Some([])
    else if at in seen || at >= |file| then None
    else
      var ifd := ParseIfd(file, at);
      if ifd.None? then None
      else
        var rest := Chain(file, ifd.value.next, seen + {at});
        if rest.None? then None else Some([ifd.value] + rest.value)
  }

  /** The little-endian mark, the magic number, the first directory's offset. */
  function MainIfd(file: seq<byte>): Option<nat> {
    if |file| < 8 || file[0] != 0x49 || file[1] != 0x49 || ReadLe(file, 2, 2) != 42 then None
    else Some(ReadLe(file, 4, 4))
  }

  /** A file begins with "II", the number 42 and the place of its first directory. */
  lemma MainIfdIff(file: seq<byte>, at: nat)
    ensures MainIfd(file) == Some(at) <==>
              && |file| >= 8 && file[0] == 0x49 && file[1] == 0x49 && file[2] == 42 && file[3] == 0
              && at == file[4] as int + 256 * file[5] as int + 65536 * file[6] as int + 16777216 * file[7] as int
  {
    LittleEndian(0, file, 2);
    LittleEndian(0, file, 4);
    hide ReadLe;
  }

  ghost function Directories(file: seq<byte>): Option<seq<Ifd>> {
    var first := MainIfd(file);
    if first.None? then None else Chain(file, first.value, {})
  }

  // ---- One directory -----------------------------------------------------

  /** The band layout; samples are always 8-bit. */
  function BandsOf(fields: seq<Field>): Option<Bands> {
    var photometric, bits := First(fields, 262), Lookup(fields, 258);
    var samples := if First(fields, 277).Some? then First(fields, 277).value else 1;
    if photometric.None? || bits.None? || exists i :: 0 <= i < |bits.value| && bits.value[i] != 8 then None
    else if photometric.value == 3 then (if bits.value == [8] then Some(Palette) else None)
    else if photometric.value in {0, 1} && samples == 1 then Some(Gray)
    else if photometric.value == 2 && samples == 3 then Some(Rgb)
    else if photometric.value == 2 && samples == 4 then Some(Rgba)
    else None
  }

  /** A tiled directory this driver supports: its shape and its bands. */
  function LevelOf(ifd: Ifd, index: nat): Option<(Level, Bands)> {
    var width, height, bands := First(ifd.fields, 256), First(ifd.fields, 257), BandsOf(ifd.fields);
    var tileW, tileH, compression := First(ifd.fields, 322), First(ifd.fields, 323), First(ifd.fields, 259);
    if width.None? || height.None? || bands.None? || tileW.None? || tileH.None? || compression.None? then None
    else if compression.value !in (if bands.value == Palette then {1, 8} else {1, 5, 8}) then None
    else
      var level := Level(index, width.value, height.value, tileW.value, tileH.value);
      if TilingOf(level, bands.value).Valid() then Some((level, bands.value)) else None
  }

  /** Which photometric interpretation, sample count and sample depth make which
      band layout; no others are supported. */
  lemma BandsAre(fields: seq<Field>)
    ensures var p, depths := First(fields, 262), Lookup(fields, 258);
            var n := if First(fields, 277).Some? then First(fields, 277).value else 1;
            && (BandsOf(fields).Some? ==> depths.Some? && forall i :: 0 <= i < |depths.value| ==> depths.value[i] == 8)
            && (depths.Some? && (forall i :: 0 <= i < |depths.value| ==> depths.value[i] == 8) ==>
                  && (BandsOf(fields) == Some(Palette) <==> p == Some(3) && |depths.value| == 1)
                  && (BandsOf(fields) == Some(Gray) <==> (p == Some(0) || p == Some(1)) && n == 1)
                  && (BandsOf(fields) == Some(Rgb) <==> p == Some(2) && n == 3)
                  && (BandsOf(fields) == Some(Rgba) <==> p == Some(2) && n == 4))
  {
    hide Lookup;
  }

  /** A directory is supported exactly if it has a band layout, a size and a tile
      size, none of them zero, and a compression the reader undoes: none or
      Deflate, and LZW where the library decodes. */
  lemma LevelIff(ifd: Ifd, index: nat)
    ensures var f := ifd.fields;
            var positive := (id: nat) => First(f, id).Some? && First(f, id).value > 0;
            LevelOf(ifd, index).Some? <==>
              && BandsOf(f).Some? && positive(256) && positive(257) && positive(322) && positive(323)
              && (First(f, 259) == Some(1) || First(f, 259) == Some(8) || (First(f, 259) == Some(5) && BandsOf(f) != Some(Palette)))
    ensures LevelOf(ifd, index).Some? ==>
      && LevelOf(ifd, index).value.1 == BandsOf(ifd.fields).value
      && var level := LevelOf(ifd, index).value.0;
         && level.ifdIndex == index && First(ifd.fields, 256) == Some(level.width) && First(ifd.fields, 257) == Some(level.height)
         && First(ifd.fields, 322) == Some(level.tileWidth) && First(ifd.fields, 323) == Some(level.tileHeight)
  {
    hide Lookup, BandsOf;
  }

  /** Both authoring and serving want a file on the WGS84 globe. */
  predicate Georeferenced(fields: seq<Field>) {
    GeoKeys.Georeferenced(Doubles(fields, 33550), Doubles(fields, 33922), GeoDirectory(fields))
  }

  function GeoDirectory(fields: seq<Field>): seq<nat> {
    var directory := Lookup(fields, 34735);
    if directory.Some? then directory.value else []
  }

  function TransformOf(fields: seq<Field>): Option<GeoKeys.GeoTransform>
    requires Georeferenced(fields)
  {
    GeoKeys.TransformOf(Doubles(fields, 33550), Doubles(fields, 33922))
  }

  method CheckGeoreference(fields: seq<Field>) returns (r: Result<Option<GeoKeys.GeoTransform>, OpenError>)
    ensures r.Ok? <==> Georeferenced(fields)
    ensures r.Ok? ==> r.value == TransformOf(fields)
  {
    var transform := GeoKeys.ParseGeoTransform(Doubles(fields, 33550), Doubles(fields, 33922));
    if transform.Err? {
      return Err(NotGeoreferenced);
    }
    var crs := GeoKeys.ParseCrs(GeoDirectory(fields));
    if crs.Err? || !crs.value.isWgs84Geographic {
      return Err(NotGeoreferenced);
    }
    return Ok(transform.value);
  }

  /** The main image laid out by its transform. */
  function GeorefOf(transform: Option<GeoKeys.GeoTransform>, main: Level): Option<Georef> {
    if transform.None? then None
    else
      var t := transform.value;
      Some(Georef(t.originX, t.originY, main.width as real * t.scaleX, main.height as real * t.scaleY))
  }

  /** The image lies where its tags tie it: pixel (i, j) of the tiepoint at the
      tiepoint's longitude and latitude, and neighbouring columns and rows as far
      apart as the pixel scale says, eastwards and southwards. */
  ghost predicate Tied(fields: seq<Field>, g: Georef) {
    var scale, tie := Doubles(fields, 33550), Doubles(fields, 33922);
    && GeoKeys.Numbers(scale, tie) && First(fields, 256).Some? && First(fields, 257).Some?
    && g.width == First(fields, 256).value as real * GeoKeys.DoubleValue(scale[0])
    && g.height == First(fields, 257).value as real * GeoKeys.DoubleValue(scale[1])
    && g.originX + GeoKeys.DoubleValue(tie[0]) * GeoKeys.DoubleValue(scale[0]) == GeoKeys.DoubleValue(tie[3])
    && g.originY - GeoKeys.DoubleValue(tie[1]) * GeoKeys.DoubleValue(scale[1]) == GeoKeys.DoubleValue(tie[4])
  }

  predicate ColormapFits(ifd: Ifd, bands: Bands) {
    bands == Palette ==> var table := Lookup(ifd.fields, 320); table.Some? && |table.value| == 768
  }

  /** Directory `i` is supported and has the main image's bands. */
  predicate Supported(ifd: Ifd, i: nat, bands: Bands) {
    var level := LevelOf(ifd, i);
    level.Some? && level.value.1 == bands
  }

  function LevelsOf(ifds: seq<Ifd>, bands: Bands): (levels: seq<Level>)
    requires forall i: nat :: i < |ifds| ==> Supported(ifds[i], i, bands)
    ensures |levels| == |ifds|
  {
    seq(|ifds|, (i: nat) requires i < |ifds| => (assert Supported(ifds[i], i, bands); LevelOf(ifds[i], i).value.0))
  }

  // ---- The missing value -------------------------------------------------

  datatype Nodata = Absent | Value(value: byte) | Unsupported

  const BLANKS: set<nat> := {9, 10, 11, 12, 13, 32}

  /** Tab, line feed, vertical tab, form feed, carriage return and space. */
  lemma BlanksAre(c: nat)
    ensures c in BLANKS <==> 9 <= c <= 13 || c == 32
  {
  }

  /** `text` without leading and trailing characters of `drop`. */
  function Trim(text: seq<nat>, drop: set<nat>): seq<nat> {
    if text == [] then []
    else if text[0] in drop then Trim(text[1..], drop)
    else if text[|text| - 1] in drop then Trim(text[..|text| - 1], drop)
    else text
  }

  /** The value of a string of ASCII digits. */
  function DigitsValue(digits: seq<nat>): Option<nat> {
    if digits == [] then Some(0)
    else
      var front, last := DigitsValue(digits[..|digits| - 1]), digits[|digits| - 1];
      if front.None? || !(48 <= last <= 57) then None else Some(10 * front.value + (last - 48))
  }

  /** An unsigned byte in decimal, with or without a plus sign. */
  function ParseByte(text: seq<nat>): Option<byte> {
    var digits := if text != [] && text[0] == 43 then text[1..] else text;
    var value := DigitsValue(digits);
    if digits == [] || value.None? || value.value >= 256 then None else Some(value.value)
  }

  /** The GDAL_NODATA tag: a byte in text, or some other text; a tag of another
      type is refused. */
  function NodataOf(fields: seq<Field>): Option<Nodata> {
    var field := Find(fields, 42113);
    if field.None? then Some(Absent)
    else if field.value.typeCode != 2 then None
    else
      var value := ParseByte(Trim(Trim(field.value.items, {0}), BLANKS));
      Some(if value.Some? then Value(value.value) else Unsupported)
  }

  function Decimal(n: nat): (text: seq<nat>)
    ensures text != [] && forall i :: 0 <= i < |text| ==> 48 <= text[i] <= 57
  {
    if n < 10 then [48 + n] else Decimal(n / 10) + [48 + n % 10]
  }

  lemma OneMoreDigit(digits: seq<nat>, d: nat)
    requires DigitsValue(digits).Some? && d < 10
    ensures DigitsValue(digits + [48 + d]) == Some(10 * DigitsValue(digits).value + d)
  {
    assert (digits + [48 + d])[..|digits|] == digits;
  }

  lemma {:induction false} DecimalHasItsValue(n: nat)
    ensures DigitsValue(Decimal(n)) == Some(n)
  {
    if n < 10 {
      OneMoreDigit([], n);
      assert [] + [48 + n] == Decimal(n);
    } else {
      DecimalHasItsValue(n / 10);
      OneMoreDigit(Decimal(n / 10), n % 10);
      hide DigitsValue;
    }
  }

  /** A byte written in decimal and ended by a NUL, as GDAL writes it, is the
      missing value that is read. */
  lemma NodataReadsBack(fields: seq<Field>, value: byte)
    requires Find(fields, 42113) == Some(Field(42113, 2, Decimal(value) + [0]))
    ensures NodataOf(fields) == Some(Value(value))
  {
    hide Find, Decimal;
    var text := Decimal(value) + [0];
    DecimalHasItsValue(value);
    assert text[..|text| - 1] == Decimal(value);
    assert Trim(text, {0}) == Trim(Decimal(value), {0}) == Decimal(value);
  }

  // ---- Finest first ------------------------------------------------------

  /** Puts `x` behind every level at least as wide. */
  function Insert(x: Level, sorted: seq<Level>): seq<Level> {
    if sorted == [] || sorted[|sorted| - 1].width >= x.width then sorted + [x]
    else Insert(x, sorted[..|sorted| - 1]) + [sorted[|sorted| - 1]]
  }

  /** The stable sort by descending width. */
  function SortDesc(levels: seq<Level>): seq<Level> {
    if levels == [] then [] else Insert(levels[|levels| - 1], SortDesc(levels[..|levels| - 1]))
  }

  predicate Descending(levels: seq<Level>) {
    forall i, j :: 0 <= i <= j < |levels| ==> levels[i].width >= levels[j].width
  }

  /** The levels of one width, in order. */
  function OfWidth(levels: seq<Level>, width: nat): seq<Level> {
    if levels == [] then []
    else OfWidth(levels[..|levels| - 1], width)
         + (if levels[|levels| - 1].width == width then [levels[|levels| - 1]] else [])
  }

  lemma OfWidthSnoc(levels: seq<Level>, x: Level, width: nat)
    ensures OfWidth(levels + [x], width) == OfWidth(levels, width) + (if x.width == width then [x] else [])
  {
    assert (levels + [x])[..|levels|] == levels;
  }

  lemma {:induction false} InsertOrders(x: Level, sorted: seq<Level>)
    requires Descending(sorted)
    ensures Descending(Insert(x, sorted))
    ensures forall y :: y in Insert(x, sorted) ==> y == x || y in sorted
  {
    if sorted != [] && sorted[|sorted| - 1].width < x.width {
      var front, last := sorted[..|sorted| - 1], sorted[|sorted| - 1];
      InsertOrders(x, front);
      forall y | y in Insert(x, front) ensures y.width >= last.width {
        if y != x { assert y in sorted; }
      }
    }
  }

  lemma {:induction false} InsertKeeps(x: Level, sorted: seq<Level>, width: nat)
    requires Descending(sorted)
    ensures OfWidth(Insert(x, sorted), width) == OfWidth(sorted + [x], width)
  {
    OfWidthSnoc(sorted, x, width);
    if sorted != [] && sorted[|sorted| - 1].width < x.width {
      var front, last := sorted[..|sorted| - 1], sorted[|sorted| - 1];
      InsertKeeps(x, front, width);
      OfWidthSnoc(front, x, width);
      OfWidthSnoc(Insert(x, front), last, width);
    }
  }

  /** The sort orders the levels and keeps those of equal width in file order. */
  lemma {:induction false} SortDescIsStable(levels: seq<Level>, width: nat)
    ensures Descending(SortDesc(levels))
    ensures OfWidth(SortDesc(levels), width) == OfWidth(levels, width)
  {
    if levels != [] {
      var front, last := levels[..|levels| - 1], levels[|levels| - 1];
      SortDescIsStable(front, width);
      InsertOrders(last, SortDesc(front));
      InsertKeeps(last, SortDesc(front), width);
      OfWidthSnoc(SortDesc(front), last, width);
    }
  }

  /** Levels already in order stay where they are. */
  lemma {:induction false} SortDescKeepsOrder(levels: seq<Level>)
    requires Descending(levels)
    ensures SortDesc(levels) == levels
  {
    if levels != [] {
      SortDescKeepsOrder(levels[..|levels| - 1]);
      assert levels == levels[..|levels| - 1] + [levels[|levels| - 1]];
    }
  }

  // ---- Opening -----------------------------------------------------------

  /** A chain of supported directories with one band layout, the first of them
      on the globe and with a colour table where one is needed. */
  ghost predicate Openable(file: seq<byte>) {
    && Directories(file).Some?
    && var ifds := Directories(file).value;
       && |ifds| > 0 && LevelOf(ifds[0], 0).Some?
       && var bands := LevelOf(ifds[0], 0).value.1;
          && ColormapFits(ifds[0], bands) && NodataOf(ifds[0].fields).Some? && Georeferenced(ifds[0].fields)
          && forall i: nat :: i < |ifds| ==> Supported(ifds[i], i, bands)
  }

  /** Which files can be opened, condition by condition. */
  lemma OpenableIff(file: seq<byte>)
    ensures Openable(file) <==>
              && Directories(file).Some? && Directories(file).value != []
              && (forall i: nat {:trigger LevelOf(Directories(file).value[i], i)} :: i < |Directories(file).value| ==> LevelOf(Directories(file).value[i], i).Some?)
              && (forall i: nat {:trigger Directories(file).value[i]} :: i < |Directories(file).value| ==>
                    BandsOf(Directories(file).value[i].fields) == BandsOf(Directories(file).value[0].fields))
              && var fields := Directories(file).value[0].fields;
                 && (BandsOf(fields) == Some(Palette) ==> Lookup(fields, 320).Some? && |Lookup(fields, 320).value| == 768)
                 && (Find(fields, 42113).Some? ==> Find(fields, 42113).value.typeCode == 2)
                 && GeoKeys.Georeferenced(Doubles(fields, 33550), Doubles(fields, 33922), GeoDirectory(fields))
  {
    hide Directories, Lookup, BandsOf, Find, GeoKeys.Georeferenced, Doubles, GeoDirectory;
  }

  /** What opening such a file finds. */
  ghost function Opened(file: seq<byte>): CogMeta
    requires Openable(file)
  {
    var ifds := Directories(file).value;
    var (main, bands) := LevelOf(ifds[0], 0).value;
    CogMeta(bands, SortDesc(LevelsOf(ifds, bands)), NodataOf(ifds[0].fields).value, GeorefOf(TransformOf(ifds[0].fields), main))
  }

  lemma OpenedIsTied(file: seq<byte>)
    requires Openable(file)
    ensures var fields := Directories(file).value[0].fields;
            && (Opened(file).geo.Some? ==> Tied(fields, Opened(file).geo.value))
            && (Opened(file).geo.Some? <==> GeoKeys.Numbers(Doubles(fields, 33550), Doubles(fields, 33922)))
  {
    hide Directories, SortDesc, Lookup, Doubles, NodataOf, ColormapFits, GeoKeys.DoubleValue, GeoKeys.Finite, GeoKeys.CrsOf;
  }

  /** Walks and checks every directory; succeeds exactly on a supported file. */
  method Open(file: seq<byte>) returns (r: Result<CogMeta, OpenError>)
    ensures r.Ok? <==> Openable(file)
    ensures r.Ok? ==> r.value == Opened(file)
    ensures r.Ok? && r.value.geo.Some? ==> Tied(Directories(file).value[0].fields, r.value.geo.value)
  {
    hide ParseIfd, LevelOf, ReadLe, SortDesc, Georeferenced, NodataOf, ColormapFits, TransformOf, Tied;
    var first := MainIfd(file);
    if first.None? {
      return Err(NotATiff);
    }
    if first.value == 0 {
      return Err(NoImage);
    }
    if first.value >= |file| {
      return Err(BadDirectory);
    }
    var ifd := ParseIfd(file, first.value);
    if ifd.None? {
      return Err(BadDirectory);
    }
    var main := LevelOf(ifd.value, 0);
    if main.None? {
      return Err(Refused);
    }
    var (level0, bands) := main.value;
    if !ColormapFits(ifd.value, bands) {
      return Err(BadColormap);
    }
    var nodata := NodataOf(ifd.value.fields);
    if nodata.None? {
      return Err(BadNodata);
    }
    var transform :- CheckGeoreference(ifd.value.fields);
    var ifds := [ifd.value];
    var levels := [level0];
    var at: nat, seen: set<nat> := ifd.value.next, {first.value};
    assert {} + {first.value} == seen;
    while at != 0
      invariant |ifds| > 0 && ifds[0] == ifd.value
      invariant Directories(file) == var rest := Chain(file, at, seen); if rest.None? then None else Some(ifds + rest.value)
      invariant forall i: nat :: i < |ifds| ==> Supported(ifds[i], i, bands)
      invariant levels == LevelsOf(ifds, bands)
      decreases OffsetsBelow(|file|) - seen
    {
      if at in seen || at >= |file| {
        return Err(BadDirectory);
      }
      var next := ParseIfd(file, at);
      if next.None? {
        return Err(BadDirectory);
      }
      var level := LevelOf(next.value, |ifds|);
      ghost var rest := Chain(file, next.value.next, seen + {at});
      if rest.Some? {
        assert (ifds + ([next.value] + rest.value))[|ifds|] == next.value;
        assert Supported(next.value, |ifds|, bands) <==> level.Some? && level.value.1 == bands;
      }
      if level.None? {
        return Err(Refused);
      }
      if level.value.1 != bands {
        return Err(MixedBands);
      }
      if rest.Some? { assert ifds + ([next.value] + rest.value) == ifds + [next.value] + rest.value; }
      seen := seen + {at};
      at := next.value.next;
      ifds := ifds + [next.value];
      levels := levels + [level.value.0];
    }
    assert ifds + [] == ifds;
    OpenedIsTied(file);
    return Ok(CogMeta(bands, SortDesc(levels), nodata.value, GeorefOf(transform, level0)));
  }

  /** What is found is sound: the levels descend, each can be cut into chunks,
      and the raster has an extent. */
  lemma OpenedIsSound(file: seq<byte>)
    requires Openable(file)
    ensures var meta := Opened(file);
            && meta.levels != [] && Descending(meta.levels)
            && (forall i :: 0 <= i < |meta.levels| ==> TilingOf(meta.levels[i], meta.bands).Valid())
            && (meta.geo.Some? ==> meta.geo.value.Valid())
  {
    hide Directories, SortDesc, Lookup, NodataOf, ColormapFits, Georeferenced, TransformOf;
    var ifds := Directories(file).value;
    var (main, bands) := LevelOf(ifds[0], 0).value;
    var levels := LevelsOf(ifds, bands);
    forall i: nat | i < |levels| ensures TilingOf(levels[i], bands).Valid() { assert Supported(ifds[i], i, bands); }
    SortDescIsStable(levels, main.width);
    SortDescPermutes(levels);
    var sorted := SortDesc(levels);
    forall i | 0 <= i < |sorted| ensures TilingOf(sorted[i], bands).Valid() {
      assert sorted[i] in sorted;
      var j :| 0 <= j < |levels| && levels[j] == sorted[i];
      assert TilingOf(levels[j], bands).Valid();
    }
    if TransformOf(ifds[0].fields).Some? {
      var t := TransformOf(ifds[0].fields).value;
      ScaleIsPositive(ifds[0].fields);
      GeoKeys.Product(main.width as real, t.scaleX);
      GeoKeys.Product(main.height as real, t.scaleY);
    }
  }

  lemma ScaleIsPositive(fields: seq<Field>)
    requires Georeferenced(fields) && TransformOf(fields).Some?
    ensures TransformOf(fields).value.scaleX > 0.0 && TransformOf(fields).value.scaleY > 0.0
  {
  }

  lemma {:induction false} SortDescPermutes(levels: seq<Level>)
    ensures |SortDesc(levels)| == |levels| && forall x :: x in SortDesc(levels) ==> x in levels
  {
    if levels != [] {
      var front, last := levels[..|levels| - 1], levels[|levels| - 1];
      SortDescPermutes(front);
      InsertAdds(last, SortDesc(front));
      assert forall x :: x in front ==> x in levels;
    }
  }

  lemma {:induction false} InsertAdds(x: Level, sorted: seq<Level>)
    ensures |Insert(x, sorted)| == |sorted| + 1 && forall y :: y in Insert(x, sorted) ==> y == x || y in sorted
  {
    if sorted != [] && sorted[|sorted| - 1].width < x.width { InsertAdds(x, sorted[..|sorted| - 1]); }
  }

  // ---- Walking to one directory ------------------------------------------

  /** The directory `n` links after the one at `at`. */
  ghost function Reach(file: seq<byte>, at: nat, seen: set<nat>, n: nat): Option<Ifd>
    decreases n
  {
    if at == 0 || at in seen || at >= |file| then None
    else
      var ifd := ParseIfd(file, at);
      if ifd.None? || n == 0 then ifd else Reach(file, ifd.value.next, seen + {at}, n - 1)
  }

  lemma {:induction false} ReachInChain(file: seq<byte>, at: nat, seen: set<nat>, n: nat)
    requires Chain(file, at, seen).Some? && n < |Chain(file, at, seen).value|
    ensures Reach(file, at, seen, n) == Some(Chain(file, at, seen).value[n])
    decreases n
  {
    hide ParseIfd;
    if n > 0 {
      ReachInChain(file, ParseIfd(file, at).value.next, seen + {at}, n - 1);
    }
  }

  /** Re-walks the links from the first directory to directory `n`. */
  method Walk(file: seq<byte>, n: nat) returns (r: Result<Ifd, OpenError>)
    ensures r.Ok? <==> MainIfd(file).Some? && Reach(file, MainIfd(file).value, {}, n).Some?
    ensures r.Ok? ==> Some(r.value) == Reach(file, MainIfd(file).value, {}, n)
  {
    hide ParseIfd, ReadLe;
    var first := MainIfd(file);
    if first.None? {
      return Err(NotATiff);
    }
    var at: nat, seen: set<nat> := first.value, {};
    for i := 0 to n
      invariant Reach(file, first.value, {}, n) == Reach(file, at, seen, n - i)
    {
      if at == 0 || at in seen || at >= |file| {
        return Err(NoImage);
      }
      var ifd := ParseIfd(file, at);
      if ifd.None? {
        return Err(BadDirectory);
      }
      seen := seen + {at};
      at := ifd.value.next;
    }
    if at == 0 || at in seen || at >= |file| {
      return Err(NoImage);
    }
    var last := ParseIfd(file, at);
    r := if last.Some? then Ok(last.value) else Err(BadDirectory);
  }

  // ---- A window of one level ---------------------------------------------

  /** The directory a level was found in. */
  ghost function LevelIfd(file: seq<byte>, level: Level): Option<Ifd> {
    if MainIfd(file).None? then None else Reach(file, MainIfd(file).value, {}, level.ifdIndex)
  }

  /** The level is where it was, as large as it was, and every chunk that the
      window needs is there. */
  ghost predicate Readable(tf: TiledFile, level: Level, bands: Bands, win: PixelWindow)
    requires TilingOf(level, bands).Valid() && win.Inside(level.width, level.height)
  {
    && LevelIfd(tf.file, level).Some?
    && var fields := LevelIfd(tf.file, level).value.fields;
       && First(fields, 256) == Some(level.width) && First(fields, 257) == Some(level.height)
       && forall cx: nat, cy: nat :: Touches(TilingOf(level, bands), win, cx, cy) ==> !Unreadable(tf, fields, TilingOf(level, bands), bands, cx, cy)
  }

  /** What can be read of the window is part of `img`. */
  ghost predicate Carries(tf: TiledFile, level: Level, bands: Bands, win: PixelWindow, img: Image)
    requires TilingOf(level, bands).Valid() && win.Inside(level.width, level.height)
  {
    && TilingOf(level, bands).Fits(img)
    && (LevelIfd(tf.file, level).Some? ==>
          ChunksShow(tf, LevelIfd(tf.file, level).value.fields, TilingOf(level, bands), bands, win, img))
  }

  /** Walks to the level and reads the window there: every pixel of it, or
      nothing exactly if the window is not readable. */
  method ReadLevelWindow(tf: TiledFile, level: Level, style: Style, win: PixelWindow, ghost img: Image)
    returns (r: Result<seq<byte>, ReadError>)
    requires TilingOf(level, style.bands).Valid() && win.Inside(level.width, level.height)
    requires Carries(tf, level, style.bands, win, img)
    ensures r.Ok? <==> Readable(tf, level, style.bands, win)
    ensures r.Ok? ==> RowsOf(r.value, Shown(img, style, win), 0, win.y1 - win.y0)
  {
    hide Reach, ChunksShow, Unreadable, RowsOf, Shown, Touches;
    var walked := Walk(tf.file, level.ifdIndex);
    if walked.Err? {
      return Err(NoDirectory);
    }
    r := ReadWindow(tf, walked.value, level, style, win, img);
  }
}
