/** The hand-written base64 codec of section 4 of RFC 4648. */
module Base64 {
  import opened Wrappers
  import opened Raster

  /** The symbol of a 6-bit value, in the standard alphabet. */
  function Symbol(v: nat): char
    requires v < 64
  {
    if v < 26 then 'A' + v as char
    else if v < 52 then 'a' + (v - 26) as char
    else if v < 62 then '0' + (v - 52) as char
    else if v == 62 then '+' else '/'
  }

  /** The value of a symbol. */
  function Value(c: char): (r: Option<nat>)
    ensures r.Some? ==> r.value < 64 && Symbol(r.value) == c
  {
    if 'A' <= c <= 'Z' then Some((c - 'A') as nat)
    else if 'a' <= c <= 'z' then Some((c - 'a') as nat + 26)
    else if '0' <= c <= '9' then Some((c - '0') as nat + 52)
    else if c == '+' then Some(62) else if c == '/' then Some(63) else None
  }

  lemma ValueOfSymbol(v: nat)
    requires v < 64
    ensures Value(Symbol(v)) == Some(v) && Symbol(v) != '='
  {
  }

  // ---- One group ---------------------------------------------------------

  function ByteOr0(b: seq<byte>, i: nat): nat { if i < |b| then b[i] else 0 }

  /** The 24-bit number of one to three bytes, missing ones zero. */
  function Bits(b: seq<byte>): (n: nat)
    ensures n < 16777216
  {
    65536 * ByteOr0(b, 0) + 256 * ByteOr0(b, 1) + ByteOr0(b, 2)
  }

  function EncodeGroup(b: seq<byte>): (s: string)
    requires 1 <= |b| <= 3
    ensures |s| == 4
  {
    var n := Bits(b);
    [Symbol(n / 262144 % 64), Symbol(n / 4096 % 64)]
    + [if |b| > 1 then Symbol(n / 64 % 64) else '=']
    + [if |b| > 2 then Symbol(n % 64) else '=']
  }

  /** Padding characters among the first `i`. */
  function Pads(s: string, i: nat): nat
    requires i <= |s|
  {
    if i == 0 then 0 else Pads(s, i - 1) + (if s[i - 1] == '=' then 1 else 0)
  }

  /** Character `i` is padding, or a symbol with no padding before it. */
  predicate Accepts(s: string, i: nat)
    requires i < |s|
  {
    s[i] == '=' || (Pads(s, i) == 0 && Value(s[i]).Some?)
  }

  function Digit(c: char): nat { if Value(c).Some? then Value(c).value else 0 }

  /** Four 6-bit digits as one number. */
  function Number(a: nat, b: nat, c: nat, d: nat): nat { 262144 * a + 4096 * b + 64 * c + d }

  /** The bytes of a 24-bit number, less the padded ones. */
  function GroupBytes(n: nat, pad: nat): seq<byte> {
    [n / 65536 % 256] + (if pad < 2 then [n / 256 % 256] else []) + (if pad < 1 then [n % 256] else [])
  }

  function DecodeGroup(s: string): Option<seq<byte>>
    requires |s| == 4
  {
    if !(Accepts(s, 0) && Accepts(s, 1) && Accepts(s, 2) && Accepts(s, 3)) then None
    else
      Some(GroupBytes(Number(Digit(s[0]), Digit(s[1]), Digit(s[2]), Digit(s[3])), Pads(s, 4)))
  }

  // ---- The whole text ----------------------------------------------------

  function Encode(b: seq<byte>): string {
    if b == [] then "" else if |b| <= 3 then EncodeGroup(b) else EncodeGroup(b[..3]) + Encode(b[3..])
  }

  function Decode(s: string): Option<seq<byte>> {
    if s == "" then Some([])
    else if |s| < 4 then None
    else
      var first, rest := DecodeGroup(s[..4]), Decode(s[4..]);
      if first.None? || rest.None? then None else Some(first.value + rest.value)
  }

  /** One more group of the input is one more group of text. */
  lemma {:induction false} EncodeSnoc(b: seq<byte>, g: nat, j: nat)
    requires 3 * g < j <= |b| && (j == 3 * g + 3 || (j == |b| && j < 3 * g + 3))
    ensures Encode(b[..j]) == Encode(b[..3 * g]) + EncodeGroup(b[3 * g..j])
  {
    hide EncodeGroup;
    if g == 0 {
      assert b[..j] == b[0..j];
    } else {
      EncodeSnoc(b[3..], g - 1, j - 3);
      assert b[3..][..j - 3] == b[..j][3..];
      assert b[3..][..3 * (g - 1)] == b[..3 * g][3..];
      assert b[3..][3 * (g - 1)..j - 3] == b[3 * g..j];
      FirstGroup(b[..j]);
      if g > 1 { FirstGroup(b[..3 * g]); }
      assert b[..j][..3] == b[..3] == b[..3 * g][..3];
      if g == 1 { assert b[..3 * g] == b[..3]; }
    }
  }

  lemma FirstGroup(b: seq<byte>)
    requires |b| > 3
    ensures Encode(b) == EncodeGroup(b[..3]) + Encode(b[3..])
  {
  }

  method EncodeBase64(bytes: seq<byte>) returns (out: string)
    ensures out == Encode(bytes)
  {
    hide Encode, Symbol;
    out := "";
    assert Encode([]) == "" by { NothingEncodes(); }
    ghost var g := 0;
    var i := 0;
    while i < |bytes|
      invariant i <= |bytes| && (i == 3 * g || i == |bytes|)
      invariant out == Encode(bytes[..i])
      decreases |bytes| - i
    {
      var j := if i + 3 <= |bytes| then i + 3 else |bytes|;
      var chunk := bytes[i..j];
      var n := 65536 * ByteOr0(chunk, 0) + 256 * ByteOr0(chunk, 1) + ByteOr0(chunk, 2);
      EncodeSnoc(bytes, g, j);
      out := out + ([Symbol(n / 262144 % 64), Symbol(n / 4096 % 64)]
                    + [if |chunk| > 1 then Symbol(n / 64 % 64) else '=']
                    + [if |chunk| > 2 then Symbol(n % 64) else '=']);
      i := j;
      g := g + 1;
    }
    assert bytes[..|bytes|] == bytes;
  }

  lemma NothingEncodes()
    ensures Encode([]) == ""
  {
  }

  method PushBytes(n: nat, pad: nat) returns (out: seq<byte>)
    ensures out == GroupBytes(n, pad)
  {
    out := [n / 65536 % 256];
    if pad < 2 { out := out + [n / 256 % 256]; }
    if pad < 1 { out := out + [n % 256]; }
  }

  /** One group of four characters, scanned once. */
  method DecodeChunk(chunk: string) returns (r: Option<seq<byte>>)
    requires |chunk| == 4
    ensures r == DecodeGroup(chunk)
  {
    hide Value, GroupBytes, Number;
    var vals: seq<nat> := [0, 0, 0, 0];
    var pad := 0;
    for i := 0 to 4
      invariant |vals| == 4 && pad == Pads(chunk, i)
      invariant forall k :: 0 <= k < i ==> Accepts(chunk, k) && vals[k] == Digit(chunk[k])
      invariant forall k :: i <= k < 4 ==> vals[k] == 0
    {
      if chunk[i] == '=' {
        pad := pad + 1;
      } else {
        if pad > 0 {
          return None;
        }
        var v := Value(chunk[i]);
        if v.None? {
          return None;
        }
        vals := vals[i := v.value];
      }
    }
    assert Accepts(chunk, 0) && Accepts(chunk, 1) && Accepts(chunk, 2) && Accepts(chunk, 3);
    assert vals[0] == Digit(chunk[0]) && vals[1] == Digit(chunk[1]) && vals[2] == Digit(chunk[2]) && vals[3] == Digit(chunk[3]);
    var out := PushBytes(Number(vals[0], vals[1], vals[2], vals[3]), pad);
    return Some(out);
  }

  lemma NothingDecodes()
    ensures Decode("") == Some([])
  {
  }

  lemma FirstText(s: string)
    requires |s| >= 4
    ensures Decode(s) == var first, rest := DecodeGroup(s[..4]), Decode(s[4..]);
                         if first.None? || rest.None? then None else Some(first.value + rest.value)
  {
  }

  /** A text is decoded group by group. */
  lemma {:induction false} DecodeSnoc(s: string, g: nat)
    requires 4 * g + 4 <= |s|
    ensures var front, group := Decode(s[..4 * g]), DecodeGroup(s[4 * g..4 * g + 4]);
            Decode(s[..4 * g + 4]) == if front.None? || group.None? then None else Some(front.value + group.value)
  {
    hide DecodeGroup, Decode;
    if g == 0 {
      NothingDecodes();
      FirstText(s[..4]);
      assert s[..4][..4] == s[0..4] && s[..4][4..] == "" && s[..0] == "";
      var group := DecodeGroup(s[0..4]);
      if group.Some? { assert group.value + [] == [] + group.value; }
    } else {
      var i := 4 * g;
      DecodeSnoc(s[4..], g - 1);
      assert s[4..][..i - 4] == s[..i][4..] && s[4..][..i] == s[..i + 4][4..];
      assert s[4..][i - 4..i] == s[i..i + 4];
      assert s[..i][..4] == s[..i + 4][..4] == s[..4];
      FirstText(s[..i]);
      FirstText(s[..i + 4]);
      var first, rest, group := DecodeGroup(s[..4]), Decode(s[4..][..i - 4]), DecodeGroup(s[i..i + 4]);
      if first.Some? && rest.Some? && group.Some? {
        assert first.value + (rest.value + group.value) == (first.value + rest.value) + group.value;
      }
    }
  }

  /** A bad group anywhere spoils the text. */
  lemma {:induction false} DecodePrefix(s: string, g: nat, groups: nat)
    requires g <= groups && |s| == 4 * groups
    ensures Decode(s).Some? ==> Decode(s[..4 * g]).Some?
    decreases groups - g
  {
    hide Decode, DecodeGroup;
    if g == groups {
      assert s[..4 * g] == s;
    } else {
      DecodePrefix(s, g + 1, groups);
      DecodeSnoc(s, g);
      assert 4 * (g + 1) == 4 * g + 4;
    }
  }

  lemma {:induction false} DecodeNeedsGroups(s: string)
    ensures |s| % 4 != 0 ==> Decode(s).None?
  {
    hide DecodeGroup;
    if |s| >= 4 { DecodeNeedsGroups(s[4..]); }
  }

  method DecodeBase64(input: string) returns (r: Option<seq<byte>>)
    ensures r == Decode(input)
  {
    hide Decode, DecodeGroup;
    NothingDecodes();
    if input == "" {
      return Some([]);
    }
    DecodeNeedsGroups(input);
    if |input| % 4 != 0 {
      return None;
    }
    var groups := |input| / 4;
    var out: seq<byte> := [];
    assert input[..0] == "";
    for g := 0 to groups
      invariant Decode(input[..4 * g]) == Some(out)
    {
      DecodeSnoc(input, g);
      DecodePrefix(input, g + 1, groups);
      var group := DecodeChunk(input[4 * g..4 * g + 4]);
      assert 4 * (g + 1) == 4 * g + 4;
      if group.None? {
        return None;
      }
      out := out + group.value;
    }
    assert input[..|input|] == input;
    return Some(out);
  }

  // ---- What the codec promises -------------------------------------------

  lemma Quotient(n: nat, d: nat, q: nat, r: nat)
    requires d in {64, 256, 4096, 65536, 262144} && r < d && n == (if d == 64 then 64 * q else if d == 256 then 256 * q
             else if d == 4096 then 4096 * q else if d == 65536 then 65536 * q else 262144 * q) + r
    ensures n / d == q && n % d == r
  {
  }

  lemma DigitsMakeBits(n: nat)
    requires n < 16777216
    ensures Number(n / 262144 % 64, n / 4096 % 64, n / 64 % 64, n % 64) == n
  {
    var a, z := n / 64, n % 64;
    var b, y := a / 64, a % 64;
    var c, x := b / 64, b % 64;
    assert n == 64 * a + z && a == 64 * b + y && b == 64 * c + x && c < 64;
    Quotient(n, 4096, b, 64 * y + z);
    Quotient(n, 262144, c, 4096 * x + 64 * y + z);
  }

  lemma BytesOfBits(x: byte, y: byte, z: byte)
    ensures var n: nat := 65536 * x as int + 256 * y as int + z as int;
            n / 65536 % 256 == x && n / 256 % 256 == y && n % 256 == z
  {
    var n: nat := 65536 * x as int + 256 * y as int + z as int;
    Quotient(n, 65536, x, 256 * y as int + z as int);
    Quotient(n, 256, 256 * x as int + y as int, z);
    Quotient(256 * x as int + y as int, 256, x, y);
  }

  /** Missing bytes leave zero digits behind the last symbol. */
  lemma MissingBytes(x: byte, y: byte)
    ensures (65536 * x as int + 256 * y as int) % 64 == 0 && (65536 * x as int) / 64 % 64 == 0 && (65536 * x as int) % 64 == 0
  {
    Quotient(65536 * x as int + 256 * y as int, 64, 1024 * x as int + 4 * y as int, 0);
    Quotient(65536 * x as int, 64, 1024 * x as int, 0);
    Quotient(1024 * x as int, 64, 16 * x as int, 0);
  }

  lemma PadsOfGroup(b: seq<byte>)
    requires 1 <= |b| <= 3
    ensures var s := EncodeGroup(b);
            Pads(s, 0) == Pads(s, 1) == Pads(s, 2) == 0 && Pads(s, 3) == (if |b| > 1 then 0 else 1) && Pads(s, 4) == 3 - |b|
  {
    var n := Bits(b);
    ValueOfSymbol(n / 262144 % 64);
    ValueOfSymbol(n / 4096 % 64);
    ValueOfSymbol(n / 64 % 64);
    ValueOfSymbol(n % 64);
    hide Symbol, Value, Bits;
  }

  lemma GroupRoundTrip(b: seq<byte>)
    requires 1 <= |b| <= 3
    ensures DecodeGroup(EncodeGroup(b)) == Some(b)
  {
    var n, s := Bits(b), EncodeGroup(b);
    PadsOfGroup(b);
    DigitsMakeBits(n);
    ValueOfSymbol(n / 262144 % 64);
    ValueOfSymbol(n / 4096 % 64);
    ValueOfSymbol(n / 64 % 64);
    ValueOfSymbol(n % 64);
    BytesOfBits(b[0], ByteOr0(b, 1), ByteOr0(b, 2));
    MissingBytes(b[0], ByteOr0(b, 1));
    hide Symbol, Value, Pads, Number;
    assert Digit(s[0]) == n / 262144 % 64 && Digit(s[1]) == n / 4096 % 64 && Digit(s[2]) == n / 64 % 64 && Digit(s[3]) == n % 64;
    assert GroupBytes(n, 3 - |b|) == b;
  }

  /** Decoding what was encoded gives the bytes back, for every byte string. */
  lemma {:induction false} RoundTrip(b: seq<byte>)
    ensures Decode(Encode(b)) == Some(b)
  {
    hide EncodeGroup, DecodeGroup;
    if |b| > 3 {
      RoundTrip(b[3..]);
      GroupRoundTrip(b[..3]);
      var first, rest := EncodeGroup(b[..3]), Encode(b[3..]);
      assert (first + rest)[..4] == first && (first + rest)[4..] == rest;
      assert b[..3] + b[3..] == b;
    } else if b != [] {
      GroupRoundTrip(b);
      var s := EncodeGroup(b);
      assert s[..4] == s && s[4..] == "";
      assert b + [] == b;
    }
  }

  /** Padding characters a byte string of this length needs. */
  function PadCount(n: nat): nat { (3 - n % 3) % 3 }

  /** Four characters for every started group of three bytes, padding in
      exactly the last places that need it, symbols everywhere else. */
  lemma {:induction false} ShapeOfText(b: seq<byte>)
    ensures |Encode(b)| == 4 * ((|b| + 2) / 3)
    ensures forall i :: 0 <= i < |Encode(b)| ==>
              if i < |Encode(b)| - PadCount(|b|) then Value(Encode(b)[i]).Some? else Encode(b)[i] == '='
  {
    hide EncodeGroup;
    if |b| > 3 {
      ShapeOfText(b[3..]);
      ShapeOfGroup(b[..3]);
      var e, f, t := Encode(b), EncodeGroup(b[..3]), Encode(b[3..]);
      assert e == f + t && PadCount(|b|) == PadCount(|b| - 3) && PadCount(3) == 0;
      hide Encode, PadCount, Value;
      forall i | 0 <= i < |e| ensures e[i] == if i < 4 then f[i] else t[i - 4] {
      }
    } else if b != [] {
      ShapeOfGroup(b);
    }
  }

  lemma ShapeOfGroup(b: seq<byte>)
    requires 1 <= |b| <= 3
    ensures forall i :: 0 <= i < 4 ==>
              if i < 4 - PadCount(|b|) then Value(EncodeGroup(b)[i]).Some? else EncodeGroup(b)[i] == '='
  {
    var n := Bits(b);
    ValueOfSymbol(n / 262144 % 64);
    ValueOfSymbol(n / 4096 % 64);
    ValueOfSymbol(n / 64 % 64);
    ValueOfSymbol(n % 64);
    hide Symbol, Value, Bits;
  }

  // ---- Against the standard ----------------------------------------------

  /** The alphabet of table 1 of RFC 4648: A to Z, a to z, 0 to 9, + and /. */
  lemma AlphabetIs(v: nat)
    requires v < 63
    ensures Symbol(0) == 'A' && Symbol(25) == 'Z' && Symbol(26) == 'a' && Symbol(51) == 'z'
    ensures Symbol(52) == '0' && Symbol(61) == '9' && Symbol(62) == '+' && Symbol(63) == '/'
    ensures v !in {25, 51, 61, 62} ==> Symbol(v + 1) as int == Symbol(v) as int + 1
  {
  }

  predicate InAlphabet(c: char) { 'A' <= c <= 'Z' || 'a' <= c <= 'z' || '0' <= c <= '9' || c in "+/" }

  lemma ValueIff(c: char)
    ensures Value(c).Some? <==> InAlphabet(c)
  {
  }

  /** A group of text is the same 24 bits as its bytes, six at a time, most
      significant first. */
  lemma GroupIsBits(b: seq<byte>)
    requires |b| == 3
    ensures var s := EncodeGroup(b);
            262144 * Digit(s[0]) + 4096 * Digit(s[1]) + 64 * Digit(s[2]) + Digit(s[3]) == 65536 * b[0] as int + 256 * b[1] as int + b[2] as int
  {
    var n := Bits(b);
    DigitsMakeBits(n);
    ValueOfSymbol(n / 262144 % 64);
    ValueOfSymbol(n / 4096 % 64);
    ValueOfSymbol(n / 64 % 64);
    ValueOfSymbol(n % 64);
    hide Symbol, Value;
  }

  /** No padding before place `i` in its group of four. */
  predicate Unpadded(s: string, i: nat)
    requires i <= |s|
  {
    forall j :: i - i % 4 <= j < i ==> s[j] != '='
  }

  /** Every character is padding, or in the alphabet with no padding before it in
      its group. */
  predicate WellPadded(s: string) { forall i :: 0 <= i < |s| ==> GoodAt(s, i) }

  predicate GoodAt(s: string, i: nat)
    requires i < |s|
  {
    s[i] == '=' || (InAlphabet(s[i]) && Unpadded(s, i))
  }

  lemma GroupIff(s: string)
    requires |s| == 4
    ensures DecodeGroup(s).Some? <==> WellPadded(s)
  {
    forall i | 0 <= i < 4 ensures Accepts(s, i) <==> GoodAt(s, i) {
      ValueIff(s[i]);
      PadsIff(s, i);
    }
    hide Accepts, GoodAt, GroupBytes;
    assert WellPadded(s) <==> GoodAt(s, 0) && GoodAt(s, 1) && GoodAt(s, 2) && GoodAt(s, 3);
  }

  lemma {:induction false} PadsIff(s: string, i: nat)
    requires |s| == 4 && i < 4
    ensures Pads(s, i) == 0 <==> Unpadded(s, i)
  {
    if i > 0 { PadsIff(s, i - 1); }
  }

  /** Exactly the well-padded texts of whole groups are decoded. */
  lemma {:induction false} DecodesIff(s: string)
    ensures Decode(s).Some? <==> |s| % 4 == 0 && WellPadded(s)
  {
    hide DecodeGroup, InAlphabet;
    if |s| >= 4 {
      DecodesIff(s[4..]);
      GroupIff(s[..4]);
      PaddingSplits(s);
    }
  }

  lemma PaddingSplits(s: string)
    requires |s| >= 4
    ensures WellPadded(s) <==> WellPadded(s[..4]) && WellPadded(s[4..])
  {
    hide InAlphabet;
    forall i | 0 <= i < 4 ensures Unpadded(s, i) <==> Unpadded(s[..4], i) {
    }
    forall i | 4 <= i < |s| ensures Unpadded(s, i) <==> Unpadded(s[4..], i - 4) { UnpaddedShift(s, i); }
    forall i | 0 <= i < |s| ensures GoodAt(s, i) <==> if i < 4 then GoodAt(s[..4], i) else GoodAt(s[4..], i - 4) {
    }
    hide GoodAt, Unpadded;
    if WellPadded(s) {
      forall i | 0 <= i < |s| - 4 ensures GoodAt(s[4..], i) { assert GoodAt(s, i + 4); }
    }
  }

  lemma UnpaddedShift(s: string, i: nat)
    requires 4 <= i < |s|
    ensures Unpadded(s, i) <==> Unpadded(s[4..], i - 4)
  {
    assert i - i % 4 - 4 == (i - 4) - (i - 4) % 4;
    forall j | i - i % 4 <= j < i ensures s[j] == s[4..][j - 4] {
    }
    forall j | (i - 4) - (i - 4) % 4 <= j < i - 4 ensures s[4..][j] == s[j + 4] {
    }
  }

  /** A decoded group is the leading bytes of its 24 bits: one byte less for
      every padding, but at least one. */
  lemma DecodedIs(s: string)
    requires |s| == 4 && DecodeGroup(s).Some?
    ensures var r, n := DecodeGroup(s).value, 262144 * Digit(s[0]) + 4096 * Digit(s[1]) + 64 * Digit(s[2]) + Digit(s[3]);
            && |r| == (if s[2] == '=' then 1 else if s[3] == '=' then 2 else 3)
            && r[0] == n / 65536 && (|r| > 1 ==> r[1] == n / 256 % 256) && (|r| > 2 ==> r[2] == n % 256)
  {
    hide Digit, Pads, Accepts;
    DigitIsSmall(s[0]);
    DigitIsSmall(s[1]);
    DigitIsSmall(s[2]);
    DigitIsSmall(s[3]);
    LeadingByte(Number(Digit(s[0]), Digit(s[1]), Digit(s[2]), Digit(s[3])));
    PaddingCounts(s);
    hide Number;
  }

  lemma DigitIsSmall(c: char)
    ensures Digit(c) < 64
  {
  }

  lemma LeadingByte(n: nat)
    requires n < 16777216
    ensures n / 65536 % 256 == n / 65536
  {
  }

  lemma PaddingCounts(s: string)
    requires |s| == 4 && DecodeGroup(s).Some?
    ensures Pads(s, 4) >= 2 <==> s[2] == '='
    ensures Pads(s, 4) >= 1 <==> s[3] == '='
  {
    assert Pads(s, 1) == (if s[0] == '=' then 1 else 0);
    assert Pads(s, 2) == Pads(s, 1) + (if s[1] == '=' then 1 else 0);
    assert Pads(s, 3) == Pads(s, 2) + (if s[2] == '=' then 1 else 0);
    hide Value;
  }
}
