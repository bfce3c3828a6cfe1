/** Band layouts and how one native sample becomes straight RGBA. */
module Pixels {
  import opened Wrappers
  import opened Grid
  import opened Raster

  datatype Bands = Gray | Rgb | Rgba | Palette {
    function ChannelCount(): (c: nat)
      ensures 1 <= c <= 4
    {
      match this
      case Gray => 1
      case Palette => 1
      case Rgb => 3
      case Rgba => 4
    }
  }

  type Rgba8 = s: seq<byte> | |s| == 4 witness [0, 0, 0, 0]

  /** A lookup table from class index to colour. */
  type Colormap = byte -> Rgba8

  function Widen(bands: Bands, sample: seq<byte>): Rgba8
    requires |sample| == bands.ChannelCount()
  {
    match bands
    case Gray => [sample[0], sample[0], sample[0], 255]
    case Palette => [sample[0], sample[0], sample[0], 255]
    case Rgb => [sample[0], sample[1], sample[2], 255]
    case Rgba => [sample[0], sample[1], sample[2], sample[3]]
  }

  function PixelRgba(bands: Bands, colormap: Option<Colormap>, nodata: Option<byte>, sample: seq<byte>): Rgba8
    requires |sample| == bands.ChannelCount()
  {
    if nodata.Some? && forall k :: 0 <= k < |sample| ==> sample[k] == nodata.value then [0, 0, 0, 0]
    else if (bands == Gray || bands == Palette) && colormap.Some? then colormap.value(sample[0])
    else Widen(bands, sample)
  }

  /** Without a colour table a pixel is invisible exactly if it is the declared
      missing value or says so itself, and visible pixels keep their samples. */
  lemma InvisibleIff(bands: Bands, nodata: Option<byte>, sample: seq<byte>)
    requires |sample| == bands.ChannelCount()
    ensures var rgba := PixelRgba(bands, None, nodata, sample);
            var missing := nodata.Some? && sample == seq(|sample|, _ => nodata.value);
            && (rgba[3] == 0 <==> missing || (bands == Rgba && sample[3] == 0))
            && (!missing ==> if |sample| == 1 then rgba == [sample[0], sample[0], sample[0], 255] else sample <= rgba)
            && (missing ==> rgba == [0, 0, 0, 0])
  {
    if nodata.Some? && sample != seq(|sample|, _ => nodata.value) {
      assert exists k :: 0 <= k < |sample| && sample[k] != nodata.value;
    }
  }

  /** With a colour table a one-sample pixel has the colour of its class, unless
      it is missing; the others are shown as without one. */
  lemma ColourTableIs(bands: Bands, table: Colormap, nodata: Option<byte>, sample: seq<byte>)
    requires |sample| == bands.ChannelCount()
    ensures var rgba := PixelRgba(bands, Some(table), nodata, sample);
            if |sample| == 1 then rgba == if nodata == Some(sample[0]) then [0, 0, 0, 0] else table(sample[0])
            else rgba == PixelRgba(bands, None, nodata, sample)
  {
    if |sample| == 1 && nodata.Some? && sample[0] != nodata.value {
      assert exists k :: 0 <= k < |sample| && sample[k] != nodata.value;
    }
  }

  /** How an image is shown: its layout, palette and transparent value. */
  datatype Style = Style(bands: Bands, colormap: Option<Colormap>, nodata: Option<byte>)

  /** The native sample of one pixel. */
  function SampleOf(img: Image, x: nat, y: nat): (s: seq<byte>)
    ensures |s| == img.c
  {
    seq(img.c, k requires 0 <= k < img.c => img.at(x, y, k))
  }

  /** Half-open pixel rectangle. */
  datatype PixelWindow = PixelWindow(x0: nat, y0: nat, x1: nat, y1: nat) {
    predicate Inside(w: nat, h: nat) { x0 < x1 <= w && y0 < y1 <= h }
  }

  /** The RGBA image a window of `img` is meant to show: the crop, widened. */
  function Shown(img: Image, style: Style, win: PixelWindow): (r: Image)
    requires win.x0 <= win.x1 && win.y0 <= win.y1
    requires img.c == style.bands.ChannelCount()
    ensures r.w == win.x1 - win.x0 && r.h == win.y1 - win.y0 && r.c == 4
  {
    Image(win.x1 - win.x0, win.y1 - win.y0, 4, (x: nat, y: nat, k: nat) =>
      var rgba: seq<byte> := PixelRgba(style.bands, style.colormap, style.nodata, SampleOf(img, win.x0 + x, win.y0 + y));
      if k < |rgba| then rgba[k] else 0)
  }
}
