/**
 Column values, their bytes, and what it means for a buffer to hold the columns of a row.  Both
 encoders are proved to reach such a buffer, and both decoders to read it back.
 */
module RowImage {
  import opened Bytes
  import opened RowLayout

  type int16 = x: int | -0x8000 <= x < 0x8000
  type int32 = x: int | -0x8000_0000 <= x < 0x8000_0000
  type int64 = x: int | -0x8000_0000_0000_0000 <= x < 0x8000_0000_0000_0000
  type bits32 = x: nat | x < 0x1_0000_0000
  type bits64 = x: nat | x < 0x1_0000_0000_0000_0000

  /** A column value; floating-point numbers are their bit patterns. */
  datatype Value =
    | Null
    | VBool(b: bool)
    | VInt16(i16: int16)
    | VInt32(i32: int32)
    | VInt64(i64: int64)
    | VFloat(f: bits32)
    | VDouble(d: bits64)
    | VDate(year: int32, month: int32, day: int32)
    | VTimestamp(ts: int64)
    | VString(s: seq<byte>)

  /** The column type of a value that is not NULL. */
  function TypeOf(v: Value): Type {
    match v
    case Null => NullType
    case VBool(_) => Bool
    case VInt16(_) => Int16
    case VInt32(_) => Int32
    case VInt64(_) => Int64
    case VFloat(_) => Float
    case VDouble(_) => Double
    case VDate(_, _, _) => Date
    case VTimestamp(_) => Timestamp
    case VString(_) => Varchar
  }

  predicate HasType(v: Value, t: Type) {
    v.Null? || TypeOf(v) == t
  }

  predicate ValidDate(year: int, month: int, day: int) {
    1900 <= year <= 9999 && 1 <= month <= 12 && 1 <= day <= 31
  }

  predicate Encodable(v: Value, t: Type) {
    HasType(v, t) && (v.VDate? ==> ValidDate(v.year, v.month, v.day))
  }

  // ----- dates -----

  /** `(year - 1900) << 16 | (month - 1) << 8 | day`: the fields do not share bits. */
  function PackDate(year: int, month: int, day: int): (date: int32)
    requires ValidDate(year, month, day)
    ensures date >= 0
  {
    (year - 1900) * 0x1_0000 + (month - 1) * 0x100 + day
  }

  /** `Date::Decode`: nothing for a negative number. */
  function UnpackDate(date: int32): (v: Value) {
    if date < 0 then Null
    else VDate(1900 + date / 0x100 / 0x100, 1 + date / 0x100 % 0x100, date % 0x100)
  }

  lemma {:induction false} DateRoundTrip(year: int32, month: int32, day: int32)
    requires ValidDate(year, month, day)
    ensures UnpackDate(PackDate(year, month, day)) == VDate(year, month, day)
  {
    var date := PackDate(year, month, day);
    assert date / 0x100 == (year - 1900) * 0x100 + (month - 1);
  }

  /** Packed dates compare like dates. */
  lemma {:induction false} DatesCompare(y1: int, m1: int, d1: int, y2: int, m2: int, d2: int)
    requires ValidDate(y1, m1, d1) && ValidDate(y2, m2, d2)
    ensures PackDate(y1, m1, d1) < PackDate(y2, m2, d2)
       <==> y1 < y2 || (y1 == y2 && (m1 < m2 || (m1 == m2 && d1 < d2)))
    ensures PackDate(1900, 1, 1) == 1
  {
  }

  // ----- fixed fields -----

  /** A fixed value as the unsigned number that its bytes spell. */
  function FixedBits(v: Value): nat
    requires !v.Null? && !v.VString? && (v.VDate? ==> ValidDate(v.year, v.month, v.day))
  {
    match v
    case VBool(b) => if b then 1 else 0
    case VInt16(i) => Unsigned(i, 0x1_0000)
    case VInt32(i) => Unsigned(i, 0x1_0000_0000)
    case VInt64(i) => Unsigned(i, 0x1_0000_0000_0000_0000)
    case VFloat(f) => f
    case VDouble(d) => d
    case VDate(y, m, d) => PackDate(y, m, d)
    case VTimestamp(i) => Unsigned(i, 0x1_0000_0000_0000_0000)
  }

  function FixedBytes(v: Value): (s: seq<byte>)
    requires !v.Null? && !v.VString? && (v.VDate? ==> ValidDate(v.year, v.month, v.day))
    ensures |s| == FixedSize(TypeOf(v))
  {
    ToLE(FixedBits(v), FixedSize(TypeOf(v)))
  }

  /** The value of type `t` that the number `u` spells. */
  function FixedValue(t: Type, u: nat): Value
    requires InSizeMap(t) && u < Pow256(TypeSize(t))
  {
    Pow256Values();
    match t
    case Bool => VBool(u == 1)
    case Int16 => VInt16(Signed(u, 0x1_0000))
    case Int32 => VInt32(Signed(u, 0x1_0000_0000))
    case Int64 => VInt64(Signed(u, 0x1_0000_0000_0000_0000))
    case Float => VFloat(u)
    case Double => VDouble(u)
    case Date => UnpackDate(Signed(u, 0x1_0000_0000))
    case Timestamp => VTimestamp(Signed(u, 0x1_0000_0000_0000_0000))
  }

  /** The typed load of a fixed field. */
  function ReadFixed(t: Type, s: seq<byte>): Value
    requires InSizeMap(t) && |s| == TypeSize(t)
  {
    FromLEBound(s);
    FixedValue(t, FromLE(s))
  }

  lemma {:induction false} FixedRoundTrip(v: Value, t: Type)
    requires Encodable(v, t) && !v.Null? && t != Varchar
    ensures InSizeMap(t) && ReadFixed(t, FixedBytes(v)) == v
  {
    Pow256Values();
    LERoundTrip(FixedBits(v), TypeSize(t));
    if v.VDate? { DateRoundTrip(v.year, v.month, v.day); }
  }

  // ----- string slots -----

  function Swapped(s: seq<byte>): (t: seq<byte>)
    requires |s| == 3
    ensures |t| == 3
  {
    [s[2], s[1], s[0]]
  }

  /** A string offset in a slot of width `w`: three bytes are big-endian, the others native. */
  function SlotBytes(w: nat, off: nat): (s: seq<byte>)
    requires 1 <= w <= 4
    ensures |s| == w
  {
    if w == 3 then Swapped(ToLE(off, w)) else ToLE(off, w)
  }

  function SlotValue(s: seq<byte>): nat
    requires 1 <= |s| <= 4
  {
    if |s| == 3 then (s[0] * 256 + s[1]) * 256 + s[2] else FromLE(s)
  }

  lemma {:induction false} FromLEThree(s: seq<byte>)
    requires |s| == 3
    ensures FromLE(s) == SlotValue(Swapped(s))
  {
    assert s[1..][1..] == s[2..] && s[2..][1..] == s[3..];
    assert FromLE(s[3..]) == 0;
    assert FromLE(s[2..]) == s[2];
    assert FromLE(s[1..]) == s[1] + 256 * FromLE(s[2..]);
  }

  lemma {:induction false} SlotRoundTrip(w: nat, off: nat)
    requires 1 <= w <= 4 && off < Pow256(w)
    ensures SlotValue(SlotBytes(w, off)) == off
  {
    LERoundTrip(off, w);
    if w == 3 { FromLEThree(ToLE(off, 3)); }
  }

  // ----- the image of a row -----

  function StrLen(v: Value): nat {
    if v.VString? then |v.s| else 0
  }

  /** The total length of the strings among the first `i` values. */
  function StrBytes(vals: seq<Value>, i: nat): nat
    requires i <= |vals|
  {
    if i == 0 then 0 else StrBytes(vals, i - 1) + StrLen(vals[i - 1])
  }

  /** Where the body of the string in column `i` starts, or would start. */
  function BodyOffset(schema: Schema, w: nat, vals: seq<Value>, i: nat): nat
    requires i <= |vals|
  {
    StrStart(schema) + Slots(w, StrCount(schema)) + StrBytes(vals, i)
  }

  function SlotOffset(schema: Schema, w: nat, i: nat): nat
    requires i <= |schema|
  {
    StrStart(schema) + Slots(w, StrIndex(schema, i))
  }

  ghost predicate Fitting(schema: Schema, vals: seq<Value>) {
    && |vals| <= |schema|
    && forall i {:trigger vals[i]} :: 0 <= i < |vals| ==> Encodable(vals[i], schema[i])
  }

  ghost predicate HeaderHolds(b: seq<byte>, size: nat) {
    |b| >= HEADER_LENGTH && b[0] == 1 && b[1] == 1 && FromLE(b[2..6]) == size
  }

  predicate NullBit(b: seq<byte>, i: nat)
    requires HEADER_LENGTH + i / 8 < |b|
  {
    Bit(b[HEADER_LENGTH + i / 8], i % 8)
  }

  ghost predicate NullsHold(b: seq<byte>, n: nat, vals: seq<Value>) {
    && |b| >= HEADER_LENGTH + BitMapSize(n)
    && forall i {:trigger NullBit(b, i)} :: 0 <= i < n ==> (NullBit(b, i) <==> i < |vals| && vals[i].Null?)
  }

  ghost predicate Slice(b: seq<byte>, off: nat, data: seq<byte>) {
    off + |data| <= |b| && b[off..off + |data|] == data
  }

  /** Value `v` of column `i` is in place: its fixed field, or its slot and its body at `body`. */
  ghost predicate ValueHolds(b: seq<byte>, schema: Schema, w: nat, i: nat, v: Value, body: nat)
    requires 1 <= w <= 4 && i < |schema| && Encodable(v, schema[i])
  {
    if schema[i] == Varchar then
      && Slice(b, SlotOffset(schema, w, i), SlotBytes(w, body))
      && (v.VString? ==> Slice(b, body, v.s))
    else
      v.Null? || Slice(b, FieldOffset(schema, i), FixedBytes(v))
  }

  ghost predicate ColumnHolds(b: seq<byte>, schema: Schema, w: nat, vals: seq<Value>, i: nat)
    requires 1 <= w <= 4 && Fitting(schema, vals) && i < |vals|
  {
    ValueHolds(b, schema, w, i, vals[i], BodyOffset(schema, w, vals, i))
  }

  /** The first `|vals|` columns of a row of `size` bytes with slots of width `w` are in place. */
  ghost predicate Holds(b: seq<byte>, schema: Schema, w: nat, size: nat, vals: seq<Value>) {
    && 1 <= w <= 4
    && Fitting(schema, vals)
    && BodyOffset(schema, w, vals, |vals|) <= size <= |b|
    && HeaderHolds(b, size)
    && NullsHold(b, |schema|, vals)
    && forall i :: 0 <= i < |vals| ==> ColumnHolds(b, schema, w, vals, i)
  }

  /** A finished row: every column is in place and the bodies end at its last byte. */
  ghost predicate Finished(b: seq<byte>, schema: Schema, w: nat, vals: seq<Value>) {
    && |vals| == |schema| > 0
    && Holds(b, schema, w, |b|, vals)
    && BodyOffset(schema, w, vals, |vals|) == |b|
  }

  /** A finished row whose slots have the width that its size calls for. */
  ghost predicate Encodes(b: seq<byte>, schema: Schema, vals: seq<Value>) {
    |b| < TWO32 && Finished(b, schema, AddrLength(|b|), vals)
  }

  // ----- a row, byte by byte -----

  const EXAMPLE_SCHEMA: Schema := [Bool, Int16, Date, Varchar, Varchar, Int32]

  const EXAMPLE_VALUES: seq<Value> :=
    [VBool(true), VInt16(-2), VDate(2020, 5, 20), VString([65, 66]), Null, VInt32(0x0102_0304)]

  /** Versions, size, null bits, fixed fields, two slots of one byte, one body. */
  const EXAMPLE_ROW: seq<byte> :=
    [1, 1, 22, 0, 0, 0, 0x10, 1, 0xFE, 0xFF, 20, 4, 120, 0, 4, 3, 2, 1, 20, 22, 65, 66]

  lemma {:induction false} ExampleLayout()
    ensures var s := EXAMPLE_SCHEMA;
            && FieldOffset(s, 0) == 7 && FieldOffset(s, 1) == 8 && FieldOffset(s, 2) == 10 && FieldOffset(s, 5) == 14
            && StrStart(s) == 18 && StrIndex(s, 3) == 0 && StrIndex(s, 4) == 1 && StrCount(s) == 2
  {
    var s := EXAMPLE_SCHEMA;
    assert FieldOffset(s, 3) == 14 && FieldOffset(s, 4) == 14;
    assert StrIndex(s, 1) == 0 && StrIndex(s, 2) == 0 && StrIndex(s, 5) == 2;
  }

  lemma {:induction false} ExampleBytes()
    ensures FixedBytes(VBool(true)) == [1] && FixedBytes(VInt16(-2)) == [0xFE, 0xFF]
    ensures FixedBytes(VDate(2020, 5, 20)) == [20, 4, 120, 0] && FixedBytes(VInt32(0x0102_0304)) == [4, 3, 2, 1]
  {
    FourBytesOf(20 + 0x100 * 4 + 0x1_0000 * 120, 20, 4, 120, 0);
    FourBytesOf(0x0102_0304, 4, 3, 2, 1);
    TwoBytesOf(0xFFFE, 0xFE, 0xFF);
    OneByteOf(1);
    hide ToLE;
  }

  lemma {:induction false} OneByteOf(a: byte)
    ensures ToLE(a, 1) == [a] && SlotBytes(1, a) == [a]
  {
    assert ToLE(a, 1) == [a] + ToLE(0, 0);
  }

  lemma {:induction false} TwoBytesOf(v: nat, a: byte, b: byte)
    requires v == a + 0x100 * b
    ensures ToLE(v, 2) == [a, b]
  {
    assert v / 256 == b && v % 256 == a;
    assert ToLE(b, 1) == [b] + ToLE(0, 0);
    assert ToLE(v, 2) == [a] + ToLE(b, 1);
  }

  lemma {:induction false} FourBytesOf(v: nat, a: byte, b: byte, c: byte, d: byte)
    requires v == a + 0x100 * b + 0x1_0000 * c + 0x100_0000 * d
    ensures ToLE(v, 4) == [a, b, c, d]
  {
    var v1, v2, v3 := b + 0x100 * c + 0x1_0000 * d, c + 0x100 * d, d;
    assert v / 256 == v1 && v1 / 256 == v2 && v2 / 256 == v3;
    assert ToLE(v3, 1) == [d] + ToLE(0, 0);
    assert ToLE(v2, 2) == [c] + ToLE(v3, 1);
    assert ToLE(v1, 3) == [b] + ToLE(v2, 2);
  }

  lemma {:induction false} ExampleBits(i: nat)
    requires i < 6
    ensures NullBit(EXAMPLE_ROW, i) <==> i == 4
  {
    assert Bit(16, 4) && Bit(8, 3) && Bit(4, 2);
    assert !Bit(16, 0) && !Bit(16, 1) && !Bit(16, 2) && !Bit(16, 3) && !Bit(16, 5);
  }

  lemma {:induction false} ExampleStrings()
    ensures Slots(1, 0) == 0 && Slots(1, 1) == 1 && Slots(1, 2) == 2
    ensures var vals := EXAMPLE_VALUES;
            StrBytes(vals, 3) == 0 && StrBytes(vals, 4) == 2 && StrBytes(vals, 5) == 2 && StrBytes(vals, 6) == 2
  {
    assert StrBytes(EXAMPLE_VALUES, 1) == 0 && StrBytes(EXAMPLE_VALUES, 2) == 0;
  }

  lemma {:induction false} ExampleFields()
    ensures var s, vals, b := EXAMPLE_SCHEMA, EXAMPLE_VALUES, EXAMPLE_ROW;
            && Slice(b, FieldOffset(s, 0), FixedBytes(vals[0])) && Slice(b, FieldOffset(s, 1), FixedBytes(vals[1]))
            && Slice(b, FieldOffset(s, 2), FixedBytes(vals[2])) && Slice(b, FieldOffset(s, 5), FixedBytes(vals[5]))
  {
    ExampleLayout();
    ExampleBytes();
    hide FieldOffset;
    hide FixedBytes;
    var b := EXAMPLE_ROW;
    assert b[7..8] == [1] && b[8..10] == [0xFE, 0xFF] && b[10..14] == [20, 4, 120, 0] && b[14..18] == [4, 3, 2, 1];
  }

  lemma {:induction false} ExampleSlots()
    ensures var s, vals, b := EXAMPLE_SCHEMA, EXAMPLE_VALUES, EXAMPLE_ROW;
            && BodyOffset(s, 1, vals, 3) == 20 && BodyOffset(s, 1, vals, 4) == 22 && BodyOffset(s, 1, vals, 6) == 22
            && Slice(b, SlotOffset(s, 1, 3), SlotBytes(1, 20)) && Slice(b, SlotOffset(s, 1, 4), SlotBytes(1, 22))
            && Slice(b, 20, [65, 66])
  {
    ExampleLayout();
    ExampleStrings();
    OneByteOf(20);
    OneByteOf(22);
    hide FieldOffset;
    hide StrIndex;
    hide StrBytes;
    hide Slots;
    hide SlotBytes;
    var b := EXAMPLE_ROW;
    assert b[18..19] == [20] && b[19..20] == [22] && b[20..22] == [65, 66];
  }

  lemma {:induction false} ExampleColumn(i: nat)
    requires i < 6
    ensures Encodable(EXAMPLE_VALUES[i], EXAMPLE_SCHEMA[i])
    ensures ValueHolds(EXAMPLE_ROW, EXAMPLE_SCHEMA, 1, i, EXAMPLE_VALUES[i], BodyOffset(EXAMPLE_SCHEMA, 1, EXAMPLE_VALUES, i))
  {
    ExampleFields();
    ExampleSlots();
    hide Slice;
    hide FieldOffset;
    hide FixedBytes;
    hide SlotBytes;
    hide SlotOffset;
    hide BodyOffset;
    assert i == 0 || i == 1 || i == 2 || i == 3 || i == 4 || i == 5;
  }

  lemma {:induction false} ExampleHeader()
    ensures HeaderHolds(EXAMPLE_ROW, 22)
  {
    FourBytesOf(22, 22, 0, 0, 0);
    Pow256Values();
    LERoundTrip(22, 4);
    hide FromLE;
    assert EXAMPLE_ROW[2..6] == [22, 0, 0, 0];
  }

  /** The format of a row, on one example. */
  lemma {:induction false} ExampleRowEncodes()
    ensures Encodes(EXAMPLE_ROW, EXAMPLE_SCHEMA, EXAMPLE_VALUES)
  {
    ExampleHeader();
    ExampleSlots();
    hide HeaderHolds;
    hide BodyOffset;
    hide SlotOffset;
    hide ValueHolds;
    hide Encodable;
    hide NullBit;
    forall i | 0 <= i < 6
      ensures NullBit(EXAMPLE_ROW, i) <==> EXAMPLE_VALUES[i].Null?
    {
      ExampleBits(i);
    }
    forall i | 0 <= i < 6
      ensures Encodable(EXAMPLE_VALUES[i], EXAMPLE_SCHEMA[i])
      ensures ValueHolds(EXAMPLE_ROW, EXAMPLE_SCHEMA, 1, i, EXAMPLE_VALUES[i], BodyOffset(EXAMPLE_SCHEMA, 1, EXAMPLE_VALUES, i))
    {
      ExampleColumn(i);
    }
  }
}
