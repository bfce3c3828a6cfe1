/** Georeferencing: when the pixel scale, the tiepoint and the GeoKey directory
    of a GeoTIFF place it on the WGS84 globe, and what copying them keeps. */
module GeoKeys {
  import opened Wrappers
  import opened Raster
  import opened Tiff

  const MODEL_TYPE: u16 := 1024
  const GEOGRAPHIC_TYPE: u16 := 2048
  const PROJECTED_CS_TYPE: u16 := 3072

  const PROJECTED: u16 := 1
  const GEOGRAPHIC: u16 := 2
  const USER_DEFINED: u16 := 32767

  datatype GeoError =
    | ShortScale | ShortTiepoint | NonPositiveScale
    | ShortDirectory | IndirectKey | NoCode | UserDefined | UnknownModel

  // ---- Scale and tiepoint ------------------------------------------------

  /** The 64 bits of a double greater than zero, infinity included: sign clear,
      not zero, not a NaN (IEEE 754 section 3.4). */
  predicate PositiveDouble(bits: u64) { 0 < bits <= 0x7FF0_0000_0000_0000 }

  function Exponent(bits: u64): nat { bits / 0x10_0000_0000_0000 % 0x800 }

  function Fraction(bits: u64): nat { bits % 0x10_0000_0000_0000 }

  /** Neither an infinity nor a NaN. */
  predicate Finite(bits: u64) { bits % 0x8000_0000_0000_0000 < 0x7FF0_0000_0000_0000 }

  /** `2` to the power of `e - 1075`. */
  function Scaled(e: nat): real {
    if e >= 1075 then Pow2(e - 1075) as real else 1.0 / Pow2(1075 - e) as real
  }

  function Magnitude(bits: u64): real {
    if Exponent(bits) == 0 then Fraction(bits) as real * Scaled(1)
    else (Fraction(bits) + 0x10_0000_0000_0000) as real * Scaled(Exponent(bits))
  }

  /** The number that 64 bits stand for. */
  function DoubleValue(bits: u64): real
    requires Finite(bits)
  {
    if bits < 0x8000_0000_0000_0000 then Magnitude(bits) else -Magnitude(bits)
  }

  lemma ScaledIsPositive(e: nat)
    ensures Scaled(e) > 0.0
  {
  }

  lemma Product(a: real, b: real)
    requires a >= 0.0 && b > 0.0
    ensures a * b >= 0.0 && (a * b > 0.0 <==> a > 0.0)
  {
  }

  /** The test on the bits is the test on the number. */
  lemma PositiveIff(bits: u64)
    requires Finite(bits)
    ensures PositiveDouble(bits) <==> DoubleValue(bits) > 0.0
  {
    var e, f := Exponent(bits), Fraction(bits);
    hide Scaled;
    ScaledIsPositive(1);
    ScaledIsPositive(e);
    Product(f as real, Scaled(1));
    Product((f + 0x10_0000_0000_0000) as real, Scaled(e));
  }

  /** The 64 bits: sign, 11 bits of exponent, 52 of fraction. */
  function Bits(negative: bool, e: nat, f: nat): (bits: u64)
    requires e < 0x7FF && f < 0x10_0000_0000_0000
    ensures Finite(bits) && Exponent(bits) == e && Fraction(bits) == f && (bits < 0x8000_0000_0000_0000 <==> !negative)
  {
    (if negative then 0x8000_0000_0000_0000 else 0) + e * 0x10_0000_0000_0000 + f
  }

  /** All ones in the exponent are no number; plus infinity is positive and a NaN
      is not. */
  lemma NotNumbers(bits: u64)
    ensures Finite(bits) <==> bits / 0x10_0000_0000_0000 % 0x800 != 0x7FF
    ensures !Finite(bits) ==> (PositiveDouble(bits) <==> bits == 0x7FF0_0000_0000_0000)
  {
  }

  /** The sign bit negates. */
  lemma SignNegates(e: nat, f: nat)
    requires e < 0x7FF && f < 0x10_0000_0000_0000
    ensures DoubleValue(Bits(true, e, f)) == -DoubleValue(Bits(false, e, f))
  {
    hide Bits, Scaled;
  }

  /** One more in the exponent is twice as much. */
  lemma ExponentDoubles(e: nat, f: nat)
    requires 0 < e < 0x7FE && f < 0x10_0000_0000_0000
    ensures DoubleValue(Bits(false, e + 1, f)) == 2.0 * DoubleValue(Bits(false, e, f))
  {
    hide Bits;
    ScaledDoubles(e);
    hide Scaled;
    TwiceAsMuch((f + 0x10_0000_0000_0000) as real, Scaled(e), Scaled(e + 1));
  }

  lemma TwiceAsMuch(m: real, s: real, t: real)
    requires t == 2.0 * s
    ensures m * t == 2.0 * (m * s)
  {
  }

  lemma ScaledDoubles(e: nat)
    ensures Scaled(e + 1) == 2.0 * Scaled(e)
  {
    if e < 1075 {
      var p, q := Pow2(1075 - e - 1) as real, Pow2(1075 - e) as real;
      assert q == 2.0 * p;
      Reciprocals(p, q);
    }
  }

  lemma Reciprocals(p: real, q: real)
    requires p > 0.0 && q == 2.0 * p
    ensures 1.0 / p == 2.0 * (1.0 / q)
  {
  }

  /** The fraction counts the parts of 2^-52 on top of the power of two, or from
      zero if the exponent is least. */
  lemma FractionCounts(e: nat, f: nat)
    requires e < 0x7FF && f < 0x10_0000_0000_0000
    ensures e > 0 ==> DoubleValue(Bits(false, e, f)) * 4503599627370496.0 == DoubleValue(Bits(false, e, 0)) * (4503599627370496 + f) as real
    ensures DoubleValue(Bits(false, 0, f)) * 4503599627370496.0 == DoubleValue(Bits(false, 1, 0)) * f as real
  {
    hide Bits, Scaled;
    Regroup((f + 0x10_0000_0000_0000) as real, Scaled(e), 4503599627370496.0);
    Regroup(f as real, Scaled(1), 4503599627370496.0);
  }

  lemma Regroup(m: real, s: real, n: real)
    ensures m * s * n == n * s * m
  {
  }

  /** And 1.0 is one. */
  lemma OneIsOne()
    ensures DoubleValue(0x3FF0_0000_0000_0000) == 1.0
  {
    hide Pow2, Scaled;
    assert Exponent(0x3FF0_0000_0000_0000) == 1023 && Fraction(0x3FF0_0000_0000_0000) == 0;
    ScaledToOne();
  }

  lemma ScaledToOne()
    ensures 4503599627370496.0 * Scaled(1023) == 1.0
  {
    PowersAdd(13, 13);
    PowersAdd(26, 26);
    SmallPower();
    hide Pow2;
  }

  lemma SmallPower()
    ensures Pow2(13) == 8192
  {
    assert Pow2(5) == 32 && Pow2(10) == 32 * Pow2(5);
  }

  lemma {:induction false} PowersAdd(a: nat, b: nat)
    ensures Pow2(a + b) == Pow2(a) * Pow2(b)
  {
    if b > 0 { PowersAdd(a, b - 1); }
  }

  predicate Affine(scale: seq<u64>, tiepoint: seq<u64>) {
    |scale| >= 2 && |tiepoint| >= 6 && PositiveDouble(scale[0]) && PositiveDouble(scale[1])
  }

  /** The place of pixel (0, 0), and degrees per pixel. */
  datatype GeoTransform = GeoTransform(originX: real, originY: real, scaleX: real, scaleY: real)

  /** The transform of the tags; nothing if it is not made of numbers. */
  function TransformOf(scale: seq<u64>, tiepoint: seq<u64>): (r: Option<GeoTransform>)
    requires Affine(scale, tiepoint)
    ensures r.Some? ==> r.value.scaleX > 0.0 && r.value.scaleY > 0.0
  {
    if Finite(scale[0]) && Finite(scale[1]) && Finite(tiepoint[0]) && Finite(tiepoint[1]) && Finite(tiepoint[3]) && Finite(tiepoint[4]) then
      PositiveIff(scale[0]);
      PositiveIff(scale[1]);
      var sx, sy := DoubleValue(scale[0]), DoubleValue(scale[1]);
      Some(GeoTransform(DoubleValue(tiepoint[3]) - DoubleValue(tiepoint[0]) * sx, DoubleValue(tiepoint[4]) + DoubleValue(tiepoint[1]) * sy, sx, sy))
    else None
  }

  /** The tags hold numbers, no infinity and no NaN. */
  predicate Numbers(scale: seq<u64>, tiepoint: seq<u64>) {
    && |scale| >= 2 && |tiepoint| >= 6 && Finite(scale[0]) && Finite(scale[1])
    && Finite(tiepoint[0]) && Finite(tiepoint[1]) && Finite(tiepoint[3]) && Finite(tiepoint[4])
  }

  /** The tied pixel lies where it is tied, and pixels are a scale apart. */
  predicate Ties(t: GeoTransform, scale: seq<u64>, tiepoint: seq<u64>) {
    && Numbers(scale, tiepoint) && t.scaleX == DoubleValue(scale[0]) && t.scaleY == DoubleValue(scale[1])
    && t.originX + DoubleValue(tiepoint[0]) * t.scaleX == DoubleValue(tiepoint[3])
    && t.originY - DoubleValue(tiepoint[1]) * t.scaleY == DoubleValue(tiepoint[4])
  }

  method ParseGeoTransform(scale: seq<u64>, tiepoint: seq<u64>) returns (r: Result<Option<GeoTransform>, GeoError>)
    ensures r.Ok? <==> Affine(scale, tiepoint)
    ensures r.Ok? ==> r.value == TransformOf(scale, tiepoint)
    ensures r.Ok? ==> (r.value.Some? <==> Numbers(scale, tiepoint)) && (r.value.Some? ==> Ties(r.value.value, scale, tiepoint))
  {
    hide DoubleValue;
    if |scale| < 2 {
      return Err(ShortScale);
    }
    if |tiepoint| < 6 {
      return Err(ShortTiepoint);
    }
    if !(PositiveDouble(scale[0]) && PositiveDouble(scale[1])) {
      return Err(NonPositiveScale);
    }
    return Ok(TransformOf(scale, tiepoint));
  }

  // ---- The key directory -------------------------------------------------

  datatype Crs = Crs(epsg: nat, isWgs84Geographic: bool)

  /** The low sixteen bits, as a narrowing conversion keeps them. */
  function Narrow(x: nat): u16 { x % 0x1_0000 }

  /** The first `n` keys lie in the directory. */
  predicate Holds(d: seq<nat>, n: nat) { 4 + 4 * n <= |d| }

  function KeyId(d: seq<nat>, e: nat): u16
    requires Holds(d, e + 1)
  {
    Narrow(d[4 + 4 * e])
  }

  function KeyLocation(d: seq<nat>, e: nat): u16
    requires Holds(d, e + 1)
  {
    Narrow(d[5 + 4 * e])
  }

  function KeyOffset(d: seq<nat>, e: nat): u16
    requires Holds(d, e + 1)
  {
    Narrow(d[7 + 4 * e])
  }

  /** A key that matters and whose value is kept in another tag. */
  predicate Indirect(d: seq<nat>, e: nat)
    requires Holds(d, e + 1)
  {
    KeyId(d, e) in {MODEL_TYPE, GEOGRAPHIC_TYPE, PROJECTED_CS_TYPE} && KeyLocation(d, e) != 0
  }

  /** The value a key has among the first `n`: the last one given. */
  function KeyValue(d: seq<nat>, id: u16, n: nat): Option<u16>
    requires Holds(d, n)
  {
    if n == 0 then None
    else if KeyId(d, n - 1) == id then Some(KeyOffset(d, n - 1))
    else KeyValue(d, id, n - 1)
  }

  lemma {:induction false} KeyValueIsLast(d: seq<nat>, id: u16, n: nat, v: u16)
    requires Holds(d, n)
    ensures KeyValue(d, id, n) == Some(v) <==>
              exists e :: 0 <= e < n && KeyId(d, e) == id && KeyOffset(d, e) == v && forall l :: e < l < n ==> KeyId(d, l) != id
  {
    if n > 0 {
      KeyValueIsLast(d, id, n - 1, v);
      if KeyId(d, n - 1) != id && KeyValue(d, id, n - 1) == Some(v) {
        var e :| 0 <= e < n - 1 && KeyId(d, e) == id && KeyOffset(d, e) == v && forall l :: e < l < n - 1 ==> KeyId(d, l) != id;
        assert forall l :: e < l < n ==> KeyId(d, l) != id;
      }
    }
  }

  /** The reference system the first `n` keys declare. */
  function CrsOfKeys(d: seq<nat>, n: nat): Option<Crs>
    requires Holds(d, n)
  {
    if exists e :: 0 <= e < n && Indirect(d, e) then None
    else
      var model := KeyValue(d, MODEL_TYPE, n);
      var code := if model == Some(GEOGRAPHIC) then KeyValue(d, GEOGRAPHIC_TYPE, n)
                  else if model == Some(PROJECTED) then KeyValue(d, PROJECTED_CS_TYPE, n)
                  else None;
      if code.None? || code.value == USER_DEFINED then None
      else Some(Crs(code.value, model == Some(GEOGRAPHIC) && code.value == 4326))
  }

  /** The reference system of a directory; its fourth number counts the keys. */
  function CrsOf(d: seq<nat>): Option<Crs> {
    if |d| < 4 || !Holds(d, d[3]) then None else CrsOfKeys(d, d[3])
  }

  /** One pass over the keys; a repeated key replaces the earlier one. */
  method ParseCrs(d: seq<nat>) returns (r: Result<Crs, GeoError>)
    ensures r.Ok? <==> CrsOf(d).Some?
    ensures r.Ok? ==> CrsOf(d) == Some(r.value)
  {
    if |d| < 4 {
      return Err(ShortDirectory);
    }
    var numKeys := d[3];
    var modelType: Option<u16>, geographic: Option<u16>, projected: Option<u16> := None, None, None;
    for entry := 0 to numKeys
      invariant Holds(d, entry)
      invariant modelType == KeyValue(d, MODEL_TYPE, entry)
      invariant geographic == KeyValue(d, GEOGRAPHIC_TYPE, entry)
      invariant projected == KeyValue(d, PROJECTED_CS_TYPE, entry)
      invariant forall e :: 0 <= e < entry ==> !Indirect(d, e)
    {
      if !Holds(d, entry + 1) {
        return Err(ShortDirectory);
      }
      var id := KeyId(d, entry);
      if id == MODEL_TYPE || id == GEOGRAPHIC_TYPE || id == PROJECTED_CS_TYPE {
        if KeyLocation(d, entry) != 0 {
          assert Indirect(d, entry);
          return Err(IndirectKey);
        }
        var value := Some(KeyOffset(d, entry));
        if id == MODEL_TYPE {
          modelType := value;
        } else if id == GEOGRAPHIC_TYPE {
          geographic := value;
        } else {
          projected := value;
        }
      }
    }
    if modelType == Some(GEOGRAPHIC) || modelType == Some(PROJECTED) {
      var code := if modelType == Some(GEOGRAPHIC) then geographic else projected;
      if code.None? {
        return Err(NoCode);
      }
      if code.value == USER_DEFINED {
        return Err(UserDefined);
      }
      return Ok(Crs(code.value, modelType == Some(GEOGRAPHIC) && code.value == 4326));
    }
    return Err(UnknownModel);
  }

  // ---- Both together -----------------------------------------------------

  /** What both authoring and serving ask of a file. */
  predicate Georeferenced(scale: seq<u64>, tiepoint: seq<u64>, directory: seq<nat>) {
    Affine(scale, tiepoint) && CrsOf(directory).Some? && CrsOf(directory).value.isWgs84Geographic
  }

  /** The last entry with this id has this value. */
  ghost predicate LastIs(d: seq<nat>, n: nat, id: nat, value: nat)
    requires 4 + 4 * n <= |d|
  {
    exists e :: 0 <= e < n && d[4 + 4 * e] % 65536 == id && d[7 + 4 * e] % 65536 == value
             && forall l :: e < l < n ==> d[4 + 4 * l] % 65536 != id
  }

  /** An entry for the model or one of the systems whose value is not in it. */
  predicate Elsewhere(d: seq<nat>, e: nat)
    requires 8 + 4 * e <= |d|
  {
    d[4 + 4 * e] % 65536 in {1024, 2048, 3072} && d[5 + 4 * e] % 65536 != 0
  }

  /** A directory is on the WGS84 globe exactly if it holds as many entries as it
      says, its model is geographic, its geographic system is EPSG 4326, and no
      entry for model or system keeps its value elsewhere. */
  lemma OnTheGlobeIff(d: seq<nat>)
    ensures CrsOf(d).Some? && CrsOf(d).value.isWgs84Geographic <==>
              && |d| >= 4 && 4 + 4 * d[3] <= |d| && LastIs(d, d[3], 1024, 2) && LastIs(d, d[3], 2048, 4326)
              && forall e :: 0 <= e < d[3] ==> !Elsewhere(d, e)
  {
    if |d| >= 4 && Holds(d, d[3]) {
      var n := d[3];
      LastIff(d, n, 1024, 2);
      LastIff(d, n, 2048, 4326);
      hide KeyValue, LastIs;
      forall e | 0 <= e < n ensures Elsewhere(d, e) <==> Indirect(d, e) {
      }
    }
  }

  /** The code declared is that of the geographic system under model 2 and that of
      the projected system under model 1; 32767 stands for none. */
  lemma CrsIff(d: seq<nat>, code: u16)
    ensures CrsOf(d).Some? && CrsOf(d).value.epsg == code <==>
              && |d| >= 4 && 4 + 4 * d[3] <= |d| && code != 32767
              && ((LastIs(d, d[3], 1024, 2) && LastIs(d, d[3], 2048, code)) || (LastIs(d, d[3], 1024, 1) && LastIs(d, d[3], 3072, code)))
              && forall e :: 0 <= e < d[3] ==> !Elsewhere(d, e)
  {
    if |d| >= 4 && Holds(d, d[3]) {
      var n := d[3];
      LastIff(d, n, 1024, 1);
      LastIff(d, n, 1024, 2);
      LastIff(d, n, 2048, code);
      LastIff(d, n, 3072, code);
      hide KeyValue, LastIs;
      forall e | 0 <= e < n ensures Elsewhere(d, e) <==> Indirect(d, e) {
      }
    }
  }

  lemma LastIff(d: seq<nat>, n: nat, id: u16, value: u16)
    requires Holds(d, n)
    ensures LastIs(d, n, id, value) <==> KeyValue(d, id, n) == Some(value)
  {
    hide KeyValue;
    KeyValueIsLast(d, id, n, value);
    if KeyValue(d, id, n) == Some(value) {
      var e :| 0 <= e < n && KeyId(d, e) == id && KeyOffset(d, e) == value && forall l :: e < l < n ==> KeyId(d, l) != id;
      forall l | e < l < n ensures d[4 + 4 * l] % 65536 != id { assert KeyId(d, l) != id; }
    }
    if LastIs(d, n, id, value) {
      var e :| 0 <= e < n && d[4 + 4 * e] % 65536 == id && d[7 + 4 * e] % 65536 == value && forall l :: e < l < n ==> d[4 + 4 * l] % 65536 != id;
      assert KeyId(d, e) == id && KeyOffset(d, e) == value && forall l :: e < l < n ==> KeyId(d, l) != id;
    }
  }

  /** Every number cut to sixteen bits, as authoring copies the directory. */
  function Narrowed(d: seq<nat>): (s: seq<u16>)
    ensures |s| == |d| && forall i :: 0 <= i < |d| ==> s[i] == Narrow(d[i])
  {
    seq(|d|, i requires 0 <= i < |d| => Narrow(d[i]))
  }

  lemma {:induction false} NarrowedKeyValue(d: seq<nat>, id: u16, n: nat)
    requires Holds(d, n)
    ensures KeyValue(Narrowed(d), id, n) == KeyValue(d, id, n)
  {
    if n > 0 { NarrowedKeyValue(d, id, n - 1); }
  }

  /** Cutting a directory keeps all its numbers but the count: the copy declares
      what the first `count % 65536` keys declared. */
  lemma NarrowedDeclares(d: seq<nat>)
    requires |d| >= 4 && Holds(d, d[3])
    ensures CrsOf(Narrowed(d)) == CrsOfKeys(d, d[3] % 0x1_0000)
  {
    var n := d[3] % 0x1_0000;
    NarrowedKeyValue(d, MODEL_TYPE, n);
    NarrowedKeyValue(d, GEOGRAPHIC_TYPE, n);
    NarrowedKeyValue(d, PROJECTED_CS_TYPE, n);
    hide KeyValue;
    forall e | 0 <= e < n ensures Indirect(d, e) <==> Indirect(Narrowed(d), e) {
    }
  }

  /** So a directory of fewer than 65536 keys is copied faithfully, */
  lemma FewKeysAreKept(d: seq<nat>)
    requires CrsOf(d).Some? && d[3] < 0x1_0000
    ensures CrsOf(Narrowed(d)) == CrsOf(d)
  {
    NarrowedDeclares(d);
  }

  /** and a longer one need not be: this one loses all its keys. */
  lemma ManyKeysAreLost() returns (d: seq<nat>)
    ensures CrsOf(d) == Some(Crs(4326, true)) && CrsOf(Narrowed(d)) == None
  {
    var keys: seq<nat> := [1, 1, 0, 0x1_0000, 1024, 0, 1, 2, 2048, 0, 1, 4326];
    d := keys + seq(4 * 0xFFFE, _ => 0);
    NarrowedDeclares(d);
    ZeroKeys(d, MODEL_TYPE, 0x1_0000);
    ZeroKeys(d, GEOGRAPHIC_TYPE, 0x1_0000);
  }

  lemma {:induction false} ZeroKeys(d: seq<nat>, id: u16, n: nat)
    requires n >= 2 && Holds(d, n) && id != 0 && forall i :: 12 <= i < |d| ==> d[i] == 0
    ensures KeyValue(d, id, n) == KeyValue(d, id, 2)
  {
    if n > 2 { ZeroKeys(d, id, n - 1); }
  }
}
