/** What the pixels mean: images as functions of column, row and channel, the
    two overview kernels, and the pyramid they define. */
module Raster {
  import opened Grid

  type byte = x: int | 0 <= x < 256

  /** A `w` by `h` image of `c` channels; `at(x, y, k)` is defined everywhere
      and only its values inside the image mean anything. */
  datatype Image = Image(w: nat, h: nat, c: nat, at: (nat, nat, nat) -> byte)

  // ---- Kernels -----------------------------------------------------------

  datatype Kernel = Average | Nearest

  /** `extent.div_ceil(2)`. */
  function Half(extent: nat): nat { (extent + 1) / 2 }

  /** How many of the two source rows (or columns) starting at `2 * i` exist. */
  function Partners(i: nat, extent: nat): nat { if 2 * i + 1 < extent then 2 else 1 }

  /** The sum of the source samples that exist in the 2x2 block of (x, y). */
  function BlockSum(img: Image, x: nat, y: nat, k: nat): nat {
    var right := Partners(x, img.w) == 2;
    var below := Partners(y, img.h) == 2;
    img.at(2 * x, 2 * y, k)
    + (if right then img.at(2 * x + 1, 2 * y, k) else 0)
    + (if below then img.at(2 * x, 2 * y + 1, k) else 0)
    + (if right && below then img.at(2 * x + 1, 2 * y + 1, k) else 0)
  }

  function Rounded(sum: nat, count: nat): (r: nat)
    requires count > 0
  {
    (sum + count / 2) / count
  }

  function AverageAt(img: Image, x: nat, y: nat, k: nat): byte {
    var count := Partners(x, img.w) * Partners(y, img.h);
    RoundedIsByte(BlockSum(img, x, y, k), count);
    Rounded(BlockSum(img, x, y, k), count)
  }

  lemma RoundedIsByte(sum: nat, count: nat)
    requires count in {1, 2, 4} && sum <= 255 * count
    ensures Rounded(sum, count) < 256
  {
  }

  /** The nearest integer to `sum / count`, halves upwards. */
  predicate IsMean(v: nat, sum: nat, count: nat) { 2 * sum - count < 2 * count * v <= 2 * sum + count }

  /** `v` is the mean of the pixels that pixel (x, y) of the half image covers:
      four of them, or those that exist at an odd edge. */
  predicate MeanAt(v: byte, img: Image, x: nat, y: nat, k: nat) {
    var nw, right, below := img.at(2 * x, 2 * y, k), 2 * x + 1 < img.w, 2 * y + 1 < img.h;
    if right && below then IsMean(v, nw + img.at(2 * x + 1, 2 * y, k) + img.at(2 * x, 2 * y + 1, k) + img.at(2 * x + 1, 2 * y + 1, k), 4)
    else if right then IsMean(v, nw + img.at(2 * x + 1, 2 * y, k), 2)
    else if below then IsMean(v, nw + img.at(2 * x, 2 * y + 1, k), 2)
    else v == nw
  }

  /** The stored average is that mean. */
  lemma AverageIsNearestInteger(img: Image, x: nat, y: nat, k: nat)
    ensures MeanAt(AverageAt(img, x, y, k), img, x, y, k)
  {
    MeanIsRounded(BlockSum(img, x, y, k), Partners(x, img.w) * Partners(y, img.h));
    hide Rounded;
  }

  lemma MeanIsRounded(sum: nat, count: nat)
    requires count in {1, 2, 4}
    ensures IsMean(Rounded(sum, count), sum, count)
  {
  }

  function HalveAt(kernel: Kernel, img: Image, x: nat, y: nat, k: nat): byte {
    match kernel
    case Average => AverageAt(img, x, y, k)
    case Nearest => img.at(2 * x, 2 * y, k)
  }

  /** One overview step on the whole image at once. */
  function Halve(kernel: Kernel, img: Image): Image {
    Image(Half(img.w), Half(img.h), img.c, (x, y, k) => HalveAt(kernel, img, x, y, k))
  }

  /** The image that level `n` of a pyramid over `img` is meant to show. */
  function Pyramid(kernel: Kernel, img: Image, n: nat): Image {
    if n == 0 then img else Halve(kernel, Pyramid(kernel, img, n - 1))
  }

  function Pow2(n: nat): (p: nat)
    ensures p > 0
  {
    if n == 0 then 1 else 2 * Pow2(n - 1)
  }

  lemma {:induction false} PyramidSize(kernel: Kernel, img: Image, n: nat)
    ensures Pyramid(kernel, img, n).w == CeilDiv(img.w, Pow2(n))
    ensures Pyramid(kernel, img, n).h == CeilDiv(img.h, Pow2(n))
    ensures Pyramid(kernel, img, n).c == img.c
  {
    if n > 0 {
      PyramidSize(kernel, img, n - 1);
      CeilDivTwice(img.w, Pow2(n - 1));
      CeilDivTwice(img.h, Pow2(n - 1));
    } else {
      MulIs(img.w, 1);
      MulIs(img.h, 1);
      CeilDivUnique(img.w, 1, img.w);
      CeilDivUnique(img.h, 1, img.h);
    }
  }

  lemma CeilDivTwice(a: nat, p: nat)
    requires p > 0
    ensures Half(CeilDiv(a, p)) == CeilDiv(a, 2 * p)
  {
    var q := CeilDiv(a, p);
    var h := Half(q);
    CeilDivBlocks(a, p, q);
    if q > 0 { CeilDivBlocks(a, p, q - 1); }
    MulLaws(h, 2, p);
    assert Mul(2, p) == Mul(1, p) + p == 2 * p;
    MulIs(h, 2);
    CeilDivUnique(a, 2 * p, h);
  }

  /** With the nearest kernel a level is a plain subsampling of the original:
      no value is ever blended, however many levels are built. */
  lemma {:induction false} NearestSubsamples(img: Image, n: nat, x: nat, y: nat, k: nat)
    ensures Pyramid(Nearest, img, n).at(x, y, k) == img.at(Pow2(n) * x, Pow2(n) * y, k)
  {
    if n > 0 {
      NearestSubsamples(img, n - 1, 2 * x, 2 * y, k);
      assert Pow2(n - 1) * (2 * x) == Pow2(n) * x;
      assert Pow2(n - 1) * (2 * y) == Pow2(n) * y;
    }
  }

  /** `half` is the averaged half of `img`. */
  ghost predicate Averages(img: Image, half: Image) {
    && half.w == (img.w + 1) / 2 && half.h == (img.h + 1) / 2 && half.c == img.c
    && forall x: nat, y: nat, k: nat {:trigger half.at(x, y, k)} :: x < half.w && y < half.h ==> MeanAt(half.at(x, y, k), img, x, y, k)
  }

  /** `level` holds every 2^n-th pixel of `img`, and nothing else. */
  ghost predicate Subsamples(img: Image, n: nat, level: Image) {
    && level.w == CeilDiv(img.w, Pow2(n)) && level.h == CeilDiv(img.h, Pow2(n)) && level.c == img.c
    && forall x: nat, y: nat, k: nat :: x < level.w && y < level.h ==> EveryNth(level, x, y, k, img, Pow2(n))
  }

  /** Pixel (x, y) is the pixel of `img` at `step` times that place. */
  predicate EveryNth(level: Image, x: nat, y: nat, k: nat, img: Image, step: nat) {
    step * x < img.w && step * y < img.h && level.at(x, y, k) == img.at(step * x, step * y, k)
  }

  /** `level` is level `n` of a pyramid over `img`: its every 2^n-th pixel if it
      must not be blended, otherwise each level the average of the one before. */
  ghost predicate IsLevel(img: Image, n: nat, level: Image, unblended: bool)
    decreases n
  {
    if unblended then Subsamples(img, n, level)
    else if n == 0 then level == img
    else exists before :: IsLevel(img, n - 1, before, unblended) && Averages(before, level)
  }

  lemma HalveAverages(img: Image)
    ensures Averages(img, Halve(Average, img))
  {
    hide MeanAt;
    forall x: nat, y: nat, k: nat ensures MeanAt(Halve(Average, img).at(x, y, k), img, x, y, k) {
      AverageIsNearestInteger(img, x, y, k);
    }
  }

  lemma NearestLevel(img: Image, n: nat)
    ensures Subsamples(img, n, Pyramid(Nearest, img, n))
  {
    hide CeilDiv, Pow2, Pyramid, Mul;
    var p, level := Pow2(n), Pyramid(Nearest, img, n);
    PyramidSize(Nearest, img, n);
    forall x: nat, y: nat, k: nat | x < level.w && y < level.h ensures EveryNth(level, x, y, k, img, p)
    {
      NearestSubsamples(img, n, x, y, k);
      CeilDivBlocks(img.w, p, x);
      CeilDivBlocks(img.h, p, y);
      MulIs(x, p);
      MulIs(y, p);
    }
  }

  /** The two kernels build these levels. */
  lemma {:induction false} PyramidIsLevel(kernel: Kernel, img: Image, n: nat)
    ensures IsLevel(img, n, Pyramid(kernel, img, n), kernel == Nearest)
  {
    hide Averages, Halve, Subsamples;
    if kernel == Nearest {
      NearestLevel(img, n);
    } else if n > 0 {
      PyramidIsLevel(kernel, img, n - 1);
      HalveAverages(Pyramid(kernel, img, n - 1));
    }
  }

  // ---- Flat buffers ------------------------------------------------------

  /** Byte `x` of row `y` of a buffer with rows of `n` bytes. */
  function Cell(buf: seq<byte>, n: nat, y: nat, x: nat): byte {
    var i := Off(n, y, x);
    if i < |buf| then buf[i] else 0
  }

  /** Byte `b` of row `y` of an image, its channels interleaved. */
  function ByteAt(img: Image, y: nat, b: nat): byte
    requires img.c > 0
  {
    img.at(Div(b, img.c), y, Mod(b, img.c))
  }

  lemma ByteOfSample(img: Image, x: nat, y: nat, k: nat)
    requires k < img.c
    ensures ByteAt(img, y, Off(img.c, x, k)) == img.at(x, y, k)
  {
    OffSplit(img.c, x, k);
  }

  /** `buf` is exactly rows `[y0, y0 + rows)` of `img`, row-major. */
  ghost predicate RowsOf(buf: seq<byte>, img: Image, y0: nat, rows: nat)
    requires img.c > 0
  {
    var n := Mul(img.w, img.c);
    && |buf| == Mul(rows, n)
    && forall r: nat, b: nat {:trigger Cell(buf, n, r, b)} :: r < rows && b < n ==> Cell(buf, n, r, b) == ByteAt(img, y0 + r, b)
  }

  /** The image a flat buffer holds. */
  function View(buf: seq<byte>, w: nat, h: nat, c: nat): Image {
    Image(w, h, c, (x, y, k) => Cell(buf, Mul(w, c), y, Off(c, x, k)))
  }

  /** Rows of an image, viewed as an image, are that image shifted. */
  lemma ViewOfRows(buf: seq<byte>, img: Image, y0: nat, rows: nat, x: nat, y: nat, k: nat)
    requires img.c > 0 && RowsOf(buf, img, y0, rows)
    requires x < img.w && y < rows && k < img.c
    ensures View(buf, img.w, rows, img.c).at(x, y, k) == img.at(x, y0 + y, k)
  {
    OffSplit(img.c, x, k);
    OffColumns(img.c, img.w, Off(img.c, x, k));
    ByteOfSample(img, x, y0 + y, k);
  }

  /** Streaming loses nothing: halving a band of an even number of rows, or the
      last rows, gives the matching rows of the halved image. */
  lemma BandHalves(kernel: Kernel, buf: seq<byte>, img: Image, y0: nat, rows: nat, x: nat, y: nat, k: nat)
    requires img.c > 0 && RowsOf(buf, img, 2 * y0, rows)
    requires 2 * y0 + rows <= img.h
    requires rows % 2 == 0 || 2 * y0 + rows == img.h
    requires x < Half(img.w) && y < Half(rows) && k < img.c
    ensures Halve(kernel, View(buf, img.w, rows, img.c)).at(x, y, k) == Halve(kernel, img).at(x, y0 + y, k)
  {
    hide Mul, Div, Mod;
    BandPartners(y0, rows, img.h, y);
    forall i: nat, j: nat {:trigger InBlock(i, j)} | InBlock(i, j) && 2 * x + i < img.w && 2 * y + j < rows
      ensures View(buf, img.w, rows, img.c).at(2 * x + i, 2 * y + j, k) == img.at(2 * x + i, 2 * (y0 + y) + j, k)
    {
      ViewOfRows(buf, img, 2 * y0, rows, 2 * x + i, 2 * y + j, k);
    }
    BlocksAgree(kernel, View(buf, img.w, rows, img.c), img, x, y, y0 + y, k);
  }

  ghost predicate InBlock(i: nat, j: nat) { i < 2 && j < 2 }

  /** A kernel looks at the samples of its own 2x2 block only. */
  lemma BlocksAgree(kernel: Kernel, a: Image, b: Image, x: nat, ya: nat, yb: nat, k: nat)
    requires a.w == b.w && 2 * x < a.w && 2 * ya < a.h && 2 * yb < b.h
    requires Partners(ya, a.h) == Partners(yb, b.h)
    requires forall i: nat, j: nat {:trigger InBlock(i, j)} :: InBlock(i, j) && 2 * x + i < a.w && 2 * ya + j < a.h ==>
               a.at(2 * x + i, 2 * ya + j, k) == b.at(2 * x + i, 2 * yb + j, k)
    ensures HalveAt(kernel, a, x, ya, k) == HalveAt(kernel, b, x, yb, k)
  {
    assert InBlock(0, 0) && InBlock(1, 0) && InBlock(0, 1) && InBlock(1, 1);
    assert BlockSum(a, x, ya, k) == BlockSum(b, x, yb, k);
  }

  lemma BandPartners(y0: nat, rows: nat, h: nat, y: nat)
    requires 2 * y0 + rows <= h && (rows % 2 == 0 || 2 * y0 + rows == h)
    requires y < Half(rows)
    ensures 2 * y < rows && Partners(y, rows) == Partners(y0 + y, h)
  {
  }

  // ---- Copying a run of bytes --------------------------------------------

  /** `s` with `piece` written over it from `at` on. */
  function Splice(s: seq<byte>, at: nat, piece: seq<byte>): (r: seq<byte>)
    requires at + |piece| <= |s|
    ensures |r| == |s|
    ensures forall i :: 0 <= i < |s| ==> r[i] == if at <= i < at + |piece| then piece[i - at] else s[i]
  {
    s[..at] + piece + s[at + |piece|..]
  }

  /** `dst[at..at + |piece|].copy_from_slice(piece)`. */
  method CopyRun(dst: array<byte>, at: nat, piece: seq<byte>)
    requires at + |piece| <= dst.Length
    modifies dst
    ensures dst[..] == Splice(old(dst[..]), at, piece)
  {
    forall i | 0 <= i < |piece| {
      dst[at + i] := piece[i];
    }
  }

  /** A run written inside one row changes that part of that row only. */
  lemma SpliceCells(s: seq<byte>, n: nat, h: nat, y: nat, x: nat, piece: seq<byte>)
    requires |s| == Mul(h, n) && y < h && x + |piece| <= n
    ensures Off(n, y, x) + |piece| <= |s|
    ensures var r := Splice(s, Off(n, y, x), piece);
            forall y': nat, x': nat {:trigger Cell(r, n, y', x')} :: y' < h && x' < n ==>
              Cell(r, n, y', x') == if y' == y && x <= x' < x + |piece| then piece[x' - x] else Cell(s, n, y', x')
  {
    OffInside(n, h);
    assert Mul(y, n) + n <= Mul(h, n);
    var r := Splice(s, Off(n, y, x), piece);
    forall y': nat, x': nat | y' < h && x' < n
      ensures Cell(r, n, y', x') == if y' == y && x <= x' < x + |piece| then piece[x' - x] else Cell(s, n, y', x')
    {
      if y' < y { OffRows(n, y', y); }
      if y < y' { OffRows(n, y, y'); }
    }
  }
}
