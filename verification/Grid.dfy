/** Row-major addressing of flat buffers. Every pixel, byte and tile index of
    the raster code is an offset `y * n + x`. Products and quotients are
    recursive here, so that proofs use the lemmas below and never nonlinear
    arithmetic. */
module Grid {

  /** `a * b`. */
  function Mul(a: nat, b: nat): nat {
    if a == 0 then 0 else Mul(a - 1, b) + b
  }

  /** `a / b`. */
  function Div(a: nat, b: nat): nat
    requires b > 0
  {
    if a < b then 0 else 1 + Div(a - b, b)
  }

  /** `a % b`. */
  function Mod(a: nat, b: nat): (r: nat)
    requires b > 0
    ensures r < b
  {
    if a < b then a else Mod(a - b, b)
  }

  /** Column `x` of row `y` in a buffer whose rows are `n` long. */
  function Off(n: nat, y: nat, x: nat): nat { Mul(y, n) + x }

  /** Ceiling division. */
  function CeilDiv(a: nat, b: nat): nat
    requires b > 0
  {
    Div(a + b - 1, b)
  }

  function Min(a: nat, b: nat): nat { if a <= b then a else b }

  function Max(a: nat, b: nat): nat { if a >= b then a else b }

  lemma {:induction false} MulIs(a: nat, b: nat)
    ensures Mul(a, b) == a * b
  {
    if a > 0 { MulIs(a - 1, b); }
  }

  lemma MulStep(a: nat, b: nat)
    ensures Mul(0, b) == 0
    ensures Mul(a + 1, b) == Mul(a, b) + b
  {
  }

  lemma {:induction false} MulLaws(a: nat, b: nat, c: nat)
    ensures Mul(a, b) == Mul(b, a)
    ensures Mul(Mul(a, b), c) == Mul(a, Mul(b, c))
    ensures Mul(a + b, c) == Mul(a, c) + Mul(b, c)
  {
    MulIs(a, b);
    MulIs(b, a);
    if a > 0 {
      MulLaws(a - 1, b, c);
      MulDistributes(Mul(a - 1, b), b, c);
    }
    MulDistributes(a, b, c);
  }

  lemma {:induction false} MulDistributes(a: nat, b: nat, c: nat)
    ensures Mul(a + b, c) == Mul(a, c) + Mul(b, c)
  {
    if b > 0 {
      MulDistributes(a, b - 1, c);
      assert a + b - 1 == a + (b - 1);
    }
  }

  lemma MulLe(a: nat, b: nat, c: nat)
    requires a <= b
    ensures Mul(a, c) <= Mul(b, c)
    ensures c > 0 && a < b ==> Mul(a, c) < Mul(b, c)
  {
    MulLaws(a, b - a, c);
    if c > 0 && a < b { assert Mul(b - a, c) == Mul(b - a - 1, c) + c; }
  }

  /** Rows do not overlap: row `y` ends before any later row begins. */
  lemma OffRows(n: nat, y: nat, y': nat)
    requires y < y'
    ensures Off(n, y, n) <= Off(n, y', 0)
  {
    MulLe(y + 1, y', n);
  }

  /** No other cell shares an offset with (y, x). */
  lemma OffInjective(n: nat, y: nat, x: nat)
    requires x < n
    ensures forall y': nat, x': nat {:trigger Off(n, y', x')} ::
              x' < n && Off(n, y', x') == Off(n, y, x) ==> y' == y && x' == x
  {
    forall y': nat, x': nat | x' < n && y' != y
      ensures Off(n, y', x') != Off(n, y, x)
    {
      if y' < y { OffRows(n, y', y); } else { OffRows(n, y, y'); }
    }
  }

  /** Every cell of an `h`-row grid lies inside the buffer. */
  lemma OffInside(n: nat, h: nat)
    ensures forall y: nat, x: nat {:trigger Off(n, y, x)} :: y < h && x < n ==> Off(n, y, x) < Mul(h, n)
    ensures forall y: nat {:trigger Mul(y, n)} :: y < h ==> Mul(y, n) + n <= Mul(h, n)
  {
    forall y: nat | y < h ensures Mul(y, n) + n <= Mul(h, n) { OffRows(n, y, h); }
  }

  /** Quotient and remainder by the row length recover row and column. */
  lemma {:induction false} OffSplit(n: nat, y: nat, x: nat)
    requires x < n
    ensures Div(Off(n, y, x), n) == y && Mod(Off(n, y, x), n) == x
  {
    if y > 0 { OffSplit(n, y - 1, x); }
  }

  /** Conversely quotient and remainder name the cell at an offset. */
  lemma {:induction false} OffJoin(n: nat, p: nat)
    requires n > 0
    ensures Off(n, Div(p, n), Mod(p, n)) == p
  {
    if p >= n { OffJoin(n, p - n); }
  }

  lemma DivModAre(a: nat, b: nat)
    requires b > 0
    ensures Div(a, b) == a / b && Mod(a, b) == a % b
  {
    hide Mul, Div, Mod;
    var q, r := a / b, a % b;
    MulIs(q, b);
    OffJoin(b, a);
    SameCell(b, q, r, Div(a, b), Mod(a, b));
  }

  lemma SameCell(n: nat, y: nat, x: nat, y': nat, x': nat)
    requires x < n && x' < n && Off(n, y, x) == Off(n, y', x')
    ensures y == y' && x == x'
  {
    OffInjective(n, y, x);
  }

  /** Byte `b` belongs to one of `w` pixels exactly when its pixel does. */
  lemma OffColumns(c: nat, w: nat, b: nat)
    requires c > 0
    ensures b < Mul(w, c) <==> Div(b, c) < w
  {
    OffJoin(c, b);
    if Div(b, c) < w { OffRows(c, Div(b, c), w); } else { MulLe(w, Div(b, c), c); }
  }

  /** Bytes of pixel (y, x): `(y * w + x) * c` is row `y`, byte `x * c`. */
  lemma PixelOffset(w: nat, c: nat, y: nat, x: nat)
    ensures Mul(Off(w, y, x), c) == Off(Mul(w, c), y, Mul(x, c))
    ensures Mul(Mul(y, w), c) == Mul(y, Mul(w, c))
  {
    MulLaws(y, w, c);
    MulLaws(Mul(y, w), x, c);
  }

  /** `t` is one of the `CeilDiv(a, b)` blocks exactly when it starts before `a`. */
  lemma CeilDivBlocks(a: nat, b: nat, t: nat)
    requires b > 0
    ensures t < CeilDiv(a, b) <==> Mul(t, b) < a
  {
    var q := CeilDiv(a, b);
    OffJoin(b, a + b - 1);
    if t < q { MulLe(t, q - 1, b); } else { MulLe(q, t, b); }
  }

  lemma CeilDivUnique(a: nat, b: nat, q: nat)
    requires b > 0 && a <= Mul(q, b) < a + b
    ensures CeilDiv(a, b) == q
  {
    CeilDivBlocks(a, b, q);
    if q > 0 { CeilDivBlocks(a, b, q - 1); }
  }

  /** The block holding position `p`. */
  lemma BlockOf(p: nat, b: nat)
    requires b > 0
    ensures Mul(Div(p, b), b) <= p < Mul(Div(p, b), b) + b
  {
    OffJoin(b, p);
  }

  lemma {:induction false} BlocksAscend(a: nat, b: nat, ts: nat)
    requires ts > 0 && a <= b
    ensures Div(a, ts) <= Div(b, ts)
  {
    if a >= ts { BlocksAscend(a - ts, b - ts, ts); }
  }
}
