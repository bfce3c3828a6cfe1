/** Classic little-endian TIFF directories: how one is encoded, and an
    independent reading of the format to compare the encoding with. */
module Tiff {
  import opened Wrappers
  import opened Raster

  type u16 = x: nat | x < 0x1_0000
  type u32 = x: nat | x < 0x1_0000_0000
  type u64 = x: nat | x < 0x1_0000_0000_0000_0000

  // ---- Little-endian integers --------------------------------------------

  /** The `n` low bytes of `x`, least significant first; higher bytes are lost
      as in a narrowing conversion. */
  function ToLe(x: nat, n: nat): (b: seq<byte>)
    ensures |b| == n
  {
    if n == 0 then [] else [x % 256] + ToLe(x / 256, n - 1)
  }

  /** The little-endian number in the `n` bytes at `at`. */
  function ReadLe(file: seq<byte>, at: nat, n: nat): nat
    requires at + n <= |file|
    decreases n
  {
    if n == 0 then 0 else file[at] + 256 * ReadLe(file, at + 1, n - 1)
  }

  /** `piece` lies in the file at `at`. */
  ghost predicate Placed(file: seq<byte>, at: nat, piece: seq<byte>) {
    && at + |piece| <= |file|
    && forall i: nat {:trigger piece[i]} :: i < |piece| ==> file[at + i] == piece[i]
  }

  lemma PlacedParts(file: seq<byte>, at: nat, a: seq<byte>, b: seq<byte>)
    ensures Placed(file, at, a + b) <==> Placed(file, at, a) && Placed(file, at + |a|, b)
  {
    if Placed(file, at, a + b) {
      forall i: nat | i < |a| ensures file[at + i] == a[i] { assert (a + b)[i] == a[i]; }
      forall i: nat | i < |b| ensures file[at + |a| + i] == b[i] { assert (a + b)[|a| + i] == b[i]; }
    }
  }

  function Pow256(n: nat): nat {
    if n == 0 then 1 else 256 * Pow256(n - 1)
  }

  /** A number written in enough bytes reads back as itself. */
  lemma {:induction false} LeRoundTrip(file: seq<byte>, at: nat, x: nat, n: nat)
    requires x < Pow256(n) && Placed(file, at, ToLe(x, n))
    ensures at + n <= |file| && ReadLe(file, at, n) == x
    decreases n
  {
    if n > 0 {
      PlacedParts(file, at, [x % 256], ToLe(x / 256, n - 1));
      LeRoundTrip(file, at + 1, x / 256, n - 1);
      assert [x % 256][0] == x % 256;
    }
  }

  lemma Powers()
    ensures Pow256(2) == 0x1_0000 && Pow256(4) == 0x1_0000_0000 && Pow256(8) == 0x1_0000_0000_0000_0000
  {
    assert Pow256(1) == 256 && Pow256(3) == 256 * Pow256(2);
    assert Pow256(5) == 256 * Pow256(4) && Pow256(6) == 256 * Pow256(5) && Pow256(7) == 256 * Pow256(6);
  }

  // ---- Tag values --------------------------------------------------------

  /** A tag's value; a double is carried as its 64 bits. */
  datatype Value = Short(shorts: seq<u16>) | Long(longs: seq<u32>) | Double(bits: seq<u64>) {
    function TypeCode(): u16 {
      match this case Short(_) => 3 case Long(_) => 4 case Double(_) => 12
    }

    function Width(): nat {
      match this case Short(_) => 2 case Long(_) => 4 case Double(_) => 8
    }

    function Items(): seq<nat> {
      match this case Short(v) => v case Long(v) => v case Double(v) => v
    }

    function ByteLen(): nat {
      match this case Short(v) => 2 * |v| case Long(v) => 4 * |v| case Double(v) => 8 * |v|
    }
  }

  datatype TagEntry = TagEntry(id: u16, value: Value)

  function ItemBytes(items: seq<nat>, width: nat): seq<byte> {
    if items == [] then [] else ItemBytes(items[..|items| - 1], width) + ToLe(items[|items| - 1], width)
  }

  function ValueBytes(v: Value): (b: seq<byte>)
    ensures |b| == v.ByteLen()
  {
    ItemBytesLength(v);
    ItemBytes(v.Items(), v.Width())
  }

  lemma ItemBytesLength(v: Value)
    ensures |ItemBytes(v.Items(), v.Width())| == v.ByteLen()
  {
    match v
    case Short(s) => Lengths(s, 2);
    case Long(s) => Lengths(s, 4);
    case Double(s) => Lengths(s, 8);
  }

  lemma {:induction false} Lengths(items: seq<nat>, width: nat)
    requires width in {2, 4, 8}
    ensures |ItemBytes(items, width)| == if width == 2 then 2 * |items| else if width == 4 then 4 * |items| else 8 * |items|
  {
    if items != [] { Lengths(items[..|items| - 1], width); }
  }

  /** The value's bytes, item by item. */
  method Bytes(v: Value) returns (out: seq<byte>)
    ensures out == ValueBytes(v)
  {
    out := [];
    var items := v.Items();
    for i := 0 to |items|
      invariant out == ItemBytes(items[..i], v.Width())
    {
      assert items[..i + 1][..i] == items[..i];
      out := out + ToLe(items[i], v.Width());
    }
    assert items[..|items|] == items;
  }

  // ---- One directory -----------------------------------------------------

  /** What a value adds behind the entries: nothing if it fits inline. */
  function External(v: Value): seq<byte> {
    if v.ByteLen() > 4 then ValueBytes(v) else []
  }

  function Externals(tags: seq<TagEntry>): seq<byte> {
    if tags == [] then [] else Externals(tags[..|tags| - 1]) + External(tags[|tags| - 1].value)
  }

  /** The 4-byte value field: the value itself, zero-filled, or its offset. */
  function ValueField(v: Value, offset: nat): (b: seq<byte>)
    ensures |b| == 4
  {
    if v.ByteLen() <= 4 then ValueBytes(v) + seq(4 - v.ByteLen(), _ => 0) else ToLe(offset, 4)
  }

  function EntryBytes(tag: TagEntry, offset: nat): (b: seq<byte>)
    ensures |b| == 12
  {
    ToLe(tag.id, 2) + ToLe(tag.value.TypeCode(), 2) + ToLe(|tag.value.Items()|, 4) + ValueField(tag.value, offset)
  }

  function Entries(tags: seq<TagEntry>, externalStart: nat): (b: seq<byte>)
    ensures |b| == 12 * |tags|
  {
    if tags == [] then []
    else
      var front := tags[..|tags| - 1];
      Entries(front, externalStart) + EntryBytes(tags[|tags| - 1], externalStart + |Externals(front)|)
  }

  /** A directory placed at `base`. */
  function IfdBytes(tags: seq<TagEntry>, next: nat, base: nat): seq<byte> {
    ToLe(|tags|, 2) + Entries(tags, base + 2 + 12 * |tags| + 4) + ToLe(next, 4) + Externals(tags)
  }

  function IfdSize(tags: seq<TagEntry>): nat {
    2 + 12 * |tags| + 4 + |Externals(tags)|
  }

  method IfdEncodedSize(tags: seq<TagEntry>) returns (size: nat)
    ensures size == IfdSize(tags)
  {
    size := 2 + 12 * |tags| + 4;
    for i := 0 to |tags|
      invariant size == 2 + 12 * |tags| + 4 + |Externals(tags[..i])|
    {
      assert tags[..i + 1][..i] == tags[..i];
      var bytes := Bytes(tags[i].value);
      if |bytes| > 4 {
        size := size + |bytes|;
      }
    }
    assert tags[..|tags|] == tags;
  }

  method EncodeEntry(tag: TagEntry, offset: nat) returns (entry: seq<byte>, external: seq<byte>)
    ensures entry == EntryBytes(tag, offset) && external == External(tag.value)
  {
    var value := tag.value;
    entry := ToLe(tag.id, 2) + ToLe(value.TypeCode(), 2) + ToLe(|value.Items()|, 4);
    var bytes := Bytes(value);
    if |bytes| <= 4 {
      entry, external := entry + (bytes + seq(4 - |bytes|, _ => 0)), [];
    } else {
      entry, external := entry + ToLe(offset, 4), bytes;
    }
  }

  method EncodeIfd(tags: seq<TagEntry>, next: nat, base: nat) returns (out: seq<byte>)
    ensures out == IfdBytes(tags, next, base)
  {
    hide ToLe, EntryBytes, ValueBytes, External;
    var entries: seq<byte> := [];
    var external: seq<byte> := [];
    var externalStart := base + 2 + 12 * |tags| + 4;
    for i := 0 to |tags|
      invariant entries == Entries(tags[..i], externalStart)
      invariant external == Externals(tags[..i])
    {
      assert tags[..i + 1][..i] == tags[..i];
      var entry, more := EncodeEntry(tags[i], externalStart + |external|);
      entries := entries + entry;
      external := external + more;
    }
    assert tags[..|tags|] == tags;
    out := ToLe(|tags|, 2) + entries + ToLe(next, 4) + external;
  }

  /** Placeholders do not move anything: a directory's size depends only on the
      types and counts of its values. */
  lemma {:induction false} SizeIgnoresContents(a: seq<TagEntry>, b: seq<TagEntry>)
    requires |a| == |b|
    requires forall i: nat :: i < |a| ==> a[i].value.ByteLen() == b[i].value.ByteLen()
    ensures IfdSize(a) == IfdSize(b)
  {
    if a != [] { SizeIgnoresContents(a[..|a| - 1], b[..|b| - 1]); }
  }

  // ---- Reading a directory, from the format ------------------------------

  datatype Field = Field(id: nat, typeCode: nat, items: seq<nat>)

  datatype Ifd = Ifd(fields: seq<Field>, next: nat)

  /** Bytes per item of the field types of TIFF 6.0 section 2. */
  function TypeWidth(typeCode: nat): Option<nat> {
    if typeCode in {1, 2, 6, 7} then Some(1)
    else if typeCode in {3, 8} then Some(2)
    else if typeCode in {4, 9, 11} then Some(4)
    else if typeCode in {5, 10, 12} then Some(8)
    else None
  }

  function DataLength(count: nat, width: nat): nat {
    if width == 1 then count else if width == 2 then 2 * count else if width == 4 then 4 * count else 8 * count
  }

  function ReadItems(file: seq<byte>, at: nat, width: nat, count: nat): seq<nat>
    requires width in {1, 2, 4, 8} && at + DataLength(count, width) <= |file|
  {
    if count == 0 then []
    else ReadItems(file, at, width, count - 1) + [ReadLe(file, at + DataLength(count - 1, width), width)]
  }

  /** The type of a field whose value lies outside the file. */
  const UNREADABLE: nat := 0

  /** One 12-byte entry: id, type, count, then the value or where it is.
      Entries of an unknown type are skipped. */
  function ParseEntry(file: seq<byte>, at: nat): Option<Field>
    requires at + 12 <= |file|
  {
    var id, typeCode, count := ReadLe(file, at, 2), ReadLe(file, at + 2, 2), ReadLe(file, at + 4, 4);
    var width := TypeWidth(typeCode);
    if width.None? then None
    else
      var len := DataLength(count, width.value);
      var data := if len <= 4 then at + 8 else ReadLe(file, at + 8, 4);
      if data + len > |file| then Some(Field(id, UNREADABLE, []))
      else Some(Field(id, typeCode, ReadItems(file, data, width.value, count)))
  }

  function ParseEntries(file: seq<byte>, at: nat, n: nat): seq<Field>
    requires at + 12 * n <= |file|
  {
    if n == 0 then []
    else
      var last := ParseEntry(file, at + 12 * (n - 1));
      ParseEntries(file, at, n - 1) + (if last.Some? then [last.value] else [])
  }

  /** A directory: entry count, entries, offset of the next directory. */
  function ParseIfd(file: seq<byte>, at: nat): Option<Ifd> {
    if at + 2 > |file| then None
    else
      var n := ReadLe(file, at, 2);
      if at + 2 + 12 * n + 4 > |file| then None
      else Some(Ifd(ParseEntries(file, at + 2, n), ReadLe(file, at + 2 + 12 * n, 4)))
  }

  function FieldOf(tag: TagEntry): Field {
    Field(tag.id, tag.value.TypeCode(), tag.value.Items())
  }

  function FieldsOf(tags: seq<TagEntry>): (f: seq<Field>)
    ensures |f| == |tags|
    ensures forall i :: 0 <= i < |f| ==> f[i] == FieldOf(tags[i])
  {
    seq(|tags|, i requires 0 <= i < |tags| => FieldOf(tags[i]))
  }

  // ---- The encoding reads back -------------------------------------------

  lemma {:induction false} ItemsReadBack(file: seq<byte>, at: nat, items: seq<nat>, width: nat)
    requires width in {2, 4, 8}
    requires forall i: nat :: i < |items| ==> items[i] < Pow256(width)
    requires Placed(file, at, ItemBytes(items, width))
    ensures at + DataLength(|items|, width) <= |file|
    ensures ReadItems(file, at, width, |items|) == items
  {
    hide ToLe, ReadLe, Pow256;
    Lengths(items, width);
    if items != [] {
      var front, last := items[..|items| - 1], items[|items| - 1];
      Lengths(front, width);
      PlacedParts(file, at, ItemBytes(front, width), ToLe(last, width));
      ItemsReadBack(file, at, front, width);
      LeRoundTrip(file, at + DataLength(|front|, width), last, width);
    }
  }

  lemma ValueReadsBack(file: seq<byte>, at: nat, v: Value)
    requires Placed(file, at, ValueBytes(v))
    ensures at + v.ByteLen() <= |file|
    ensures ReadItems(file, at, v.Width(), |v.Items()|) == v.Items()
  {
    Powers();
    hide Pow256;
    ItemsReadBack(file, at, v.Items(), v.Width());
  }

  /** The first eight bytes of an entry read back. */
  lemma EntryHeadReadsBack(file: seq<byte>, at: nat, tag: TagEntry, offset: nat)
    requires |tag.value.Items()| < 0x1_0000_0000
    requires Placed(file, at, EntryBytes(tag, offset))
    ensures at + 12 <= |file|
    ensures ReadLe(file, at, 2) == tag.id && ReadLe(file, at + 2, 2) == tag.value.TypeCode() && ReadLe(file, at + 4, 4) == |tag.value.Items()|
    ensures Placed(file, at + 8, ValueField(tag.value, offset))
  {
    var a, b, c, d := ToLe(tag.id, 2), ToLe(tag.value.TypeCode(), 2), ToLe(|tag.value.Items()|, 4), ValueField(tag.value, offset);
    Powers();
    hide Pow256, Placed, ToLe, ReadLe, ValueField, Value.Items;
    assert EntryBytes(tag, offset) == a + b + c + d;
    PlacedInside(file, at, EntryBytes(tag, offset));
    PlacedParts(file, at, a + b + c, d);
    PlacedParts(file, at, a + b, c);
    PlacedParts(file, at, a, b);
    LeRoundTrip(file, at, tag.id, 2);
    LeRoundTrip(file, at + 2, tag.value.TypeCode(), 2);
    LeRoundTrip(file, at + 4, |tag.value.Items()|, 4);
  }

  /** A value placed inline or where its entry points reads back. */
  lemma FieldReadsBack(file: seq<byte>, at: nat, v: Value, offset: nat)
    requires Placed(file, at, ValueField(v, offset))
    requires offset + |External(v)| <= 0x1_0000_0000 && Placed(file, offset, External(v))
    ensures at + 4 <= |file|
    ensures var data := if v.ByteLen() <= 4 then at else ReadLe(file, at, 4);
            data + v.ByteLen() <= |file| && ReadItems(file, data, v.Width(), |v.Items()|) == v.Items()
  {
    Powers();
    hide Pow256, Placed, ToLe, ReadLe, ReadItems, ValueBytes;
    PlacedInside(file, at, ValueField(v, offset));
    if v.ByteLen() <= 4 {
      PlacedParts(file, at, ValueBytes(v), seq(4 - v.ByteLen(), _ => 0));
      ValueReadsBack(file, at, v);
    } else {
      LeRoundTrip(file, at, offset, 4);
      ValueReadsBack(file, offset, v);
    }
  }

  lemma ValueShape(v: Value)
    ensures TypeWidth(v.TypeCode()) == Some(v.Width()) && v.Width() in {1, 2, 4, 8}
    ensures DataLength(|v.Items()|, v.Width()) == v.ByteLen()
  {
  }

  /** An entry placed in a file, with its external bytes where it points, is
      read back as its tag. */
  lemma EntryReadsBack(file: seq<byte>, at: nat, tag: TagEntry, offset: nat)
    requires |tag.value.Items()| < 0x1_0000_0000
    requires Placed(file, at, EntryBytes(tag, offset))
    requires offset + |External(tag.value)| <= 0x1_0000_0000 && Placed(file, offset, External(tag.value))
    ensures at + 12 <= |file| && ParseEntry(file, at) == Some(FieldOf(tag))
  {
    hide Placed, ReadLe, ReadItems, ValueBytes, EntryBytes, External, ValueField, TypeWidth, DataLength;
    hide Value.Items, Value.TypeCode, Value.Width, Value.ByteLen;
    ValueShape(tag.value);
    EntryHeadReadsBack(file, at, tag, offset);
    FieldReadsBack(file, at + 8, tag.value, offset);
  }

  lemma PlacedInside(file: seq<byte>, at: nat, piece: seq<byte>)
    requires Placed(file, at, piece)
    ensures at + |piece| <= |file|
  {
  }

  lemma {:induction false} EntriesReadBack(file: seq<byte>, at: nat, tags: seq<TagEntry>, externalStart: nat)
    requires forall i: nat :: i < |tags| ==> |tags[i].value.Items()| < 0x1_0000_0000
    requires externalStart + |Externals(tags)| <= 0x1_0000_0000
    requires Placed(file, at, Entries(tags, externalStart))
    requires Placed(file, externalStart, Externals(tags))
    ensures at + 12 * |tags| <= |file| && ParseEntries(file, at, |tags|) == FieldsOf(tags)
  {
    hide Placed, ParseEntry, EntryBytes, External, ValueBytes, FieldOf, FieldsOf, ToLe, ReadLe;
    hide Value.Items, Value.TypeCode, Value.Width, Value.ByteLen;
    PlacedInside(file, at, Entries(tags, externalStart));
    if tags != [] {
      var n := |tags| - 1;
      var front, last := tags[..n], tags[n];
      var offset := externalStart + |Externals(front)|;
      PlacedParts(file, at, Entries(front, externalStart), EntryBytes(last, offset));
      PlacedParts(file, externalStart, Externals(front), External(last.value));
      EntriesReadBack(file, at, front, externalStart);
      EntryReadsBack(file, at + 12 * n, last, offset);
      FieldsOfSnoc(tags);
    }
  }

  lemma FieldsOfSnoc(tags: seq<TagEntry>)
    requires tags != []
    ensures FieldsOf(tags) == FieldsOf(tags[..|tags| - 1]) + [FieldOf(tags[|tags| - 1])]
  {
    hide FieldOf;
  }

  /** The four parts of a directory. */
  lemma IfdParts(file: seq<byte>, tags: seq<TagEntry>, next: nat, base: nat)
    requires Placed(file, base, IfdBytes(tags, next, base))
    ensures Placed(file, base, ToLe(|tags|, 2))
    ensures Placed(file, base + 2, Entries(tags, base + 2 + 12 * |tags| + 4))
    ensures Placed(file, base + 2 + 12 * |tags|, ToLe(next, 4))
    ensures Placed(file, base + 2 + 12 * |tags| + 4, Externals(tags))
  {
    hide Placed, ToLe, Entries, Externals;
    var a, b, c, d := ToLe(|tags|, 2), Entries(tags, base + 2 + 12 * |tags| + 4), ToLe(next, 4), Externals(tags);
    PlacedParts(file, base, a + b + c, d);
    PlacedParts(file, base, a + b, c);
    PlacedParts(file, base, a, b);
  }

  /** A directory encoded for the place where it lies reads back as its tags,
      inline and external values alike, and its link to the next one. */
  lemma IfdReadsBack(file: seq<byte>, tags: seq<TagEntry>, next: nat, base: nat)
    requires |tags| < 0x1_0000 && next < 0x1_0000_0000
    requires forall i: nat :: i < |tags| ==> |tags[i].value.Items()| < 0x1_0000_0000
    requires base + IfdSize(tags) <= 0x1_0000_0000
    requires Placed(file, base, IfdBytes(tags, next, base))
    ensures ParseIfd(file, base) == Some(Ifd(FieldsOf(tags), next))
  {
    Powers();
    hide Pow256, Placed, ToLe, ReadLe, Entries, Externals, ParseEntries, FieldsOf, IfdBytes;
    IfdParts(file, tags, next, base);
    LeRoundTrip(file, base, |tags|, 2);
    LeRoundTrip(file, base + 2 + 12 * |tags|, next, 4);
    EntriesReadBack(file, base + 2, tags, base + 2 + 12 * |tags| + 4);
  }

  // ---- The format in bytes -----------------------------------------------

  /** Least significant byte first, written and read (TIFF 6.0 section 2). */
  lemma LittleEndian(x: nat, file: seq<byte>, at: nat)
    ensures ToLe(x, 2) == [x % 256, x / 256 % 256]
    ensures ToLe(x, 4) == [x % 256, x / 256 % 256, x / 65536 % 256, x / 16777216 % 256]
    ensures at + 2 <= |file| ==> ReadLe(file, at, 2) == file[at] as int + 256 * file[at + 1] as int
    ensures at + 4 <= |file| ==>
      ReadLe(file, at, 4) == file[at] as int + 256 * file[at + 1] as int + 65536 * file[at + 2] as int + 16777216 * file[at + 3] as int
  {
    assert x / 256 / 256 == x / 65536 && x / 65536 / 256 == x / 16777216;
    assert ToLe(x / 65536, 2) == [x / 65536 % 256, x / 16777216 % 256];
    assert ToLe(x / 256, 1) == [x / 256 % 256];
    assert ToLe(x / 256, 3) == [x / 256 % 256] + ToLe(x / 65536, 2);
    if at + 4 <= |file| {
      assert ReadLe(file, at + 2, 2) == file[at + 2] as int + 256 * file[at + 3] as int;
      assert ReadLe(file, at + 1, 3) == file[at + 1] as int + 256 * ReadLe(file, at + 2, 2);
    }
  }

  /** Types 3, 4 and 12 of two, four and eight bytes an item. */
  lemma TypesAre(shorts: seq<u16>, longs: seq<u32>, bits: seq<u64>)
    ensures Short(shorts).TypeCode() == 3 && TypeWidth(3) == Some(2) && |ValueBytes(Short(shorts))| == 2 * |shorts|
    ensures Long(longs).TypeCode() == 4 && TypeWidth(4) == Some(4) && |ValueBytes(Long(longs))| == 4 * |longs|
    ensures Double(bits).TypeCode() == 12 && TypeWidth(12) == Some(8) && |ValueBytes(Double(bits))| == 8 * |bits|
  {
  }

  /** An entry is its id, its type, its count, and the value itself or where it
      lies, in this order and 12 bytes long. */
  lemma EntryIs(tag: TagEntry, offset: nat)
    ensures var b, value := EntryBytes(tag, offset), ValueBytes(tag.value);
            && |b| == 12 && b[..2] == ToLe(tag.id, 2) && b[2..4] == ToLe(tag.value.TypeCode(), 2) && b[4..8] == ToLe(|tag.value.Items()|, 4)
            && (if |value| <= 4 then b[8..8 + |value|] == value && (forall i :: 8 + |value| <= i < 12 ==> b[i] == 0) else b[8..] == ToLe(offset, 4))
  {
    hide ToLe, ItemBytes, Value.TypeCode, Value.Items;
  }
}
