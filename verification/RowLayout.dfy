/**
 Where each column of a row lives: header, null bitmap, fixed fields, string slots, string bodies.
 */
module RowLayout {
  import opened Bytes

  const VERSION_LENGTH := 2
  const HEADER_LENGTH := 6
  const UINT8_MAX := 0xFF
  const UINT16_MAX := 0xFFFF
  const UINT24_MAX := 0xFF_FFFF
  const TWO32 := 0x1_0000_0000

  datatype Type = Bool | Int16 | Int32 | Int64 | Float | Double | Varchar | Date | Timestamp | Blob | NullType

  type Schema = seq<Type>

  /** The fixed types that have an entry in the type size map. */
  predicate InSizeMap(t: Type) {
    t != Varchar && t != Blob && t != NullType
  }

  function TypeSize(t: Type): nat
    requires InSizeMap(t)
  {
    match t
    case Bool => 1
    case Int16 => 2
    case Int32 => 4
    case Float => 4
    case Date => 4
    case Int64 => 8
    case Timestamp => 8
    case Double => 8
  }

  predicate Supported(schema: Schema) {
    forall i :: 0 <= i < |schema| ==> schema[i] == Varchar || InSizeMap(schema[i])
  }

  function BitMapSize(n: nat): (m: nat)
    ensures 8 * m >= n && 8 * m < n + 8
  {
    n / 8 + if n % 8 != 0 then 1 else 0
  }

  // ----- the layout, column by column -----

  /** Bytes that column type `t` takes among the fixed fields. */
  function FixedSize(t: Type): nat {
    if InSizeMap(t) then TypeSize(t) else 0
  }

  /** Offset of the fixed field of column `i`; for `i == |schema|`, the end of the fixed fields. */
  function FieldOffset(schema: Schema, i: nat): (off: nat)
    requires i <= |schema|
    ensures off >= HEADER_LENGTH + BitMapSize(|schema|)
  {
    if i == 0 then HEADER_LENGTH + BitMapSize(|schema|)
    else FieldOffset(schema, i - 1) + FixedSize(schema[i - 1])
  }

  /** How many of the first `i` columns are strings: the slot number of string column `i`. */
  function StrIndex(schema: Schema, i: nat): nat
    requires i <= |schema|
  {
    if i == 0 then 0 else StrIndex(schema, i - 1) + if schema[i - 1] == Varchar then 1 else 0
  }

  function StrStart(schema: Schema): nat { FieldOffset(schema, |schema|) }

  function StrCount(schema: Schema): nat { StrIndex(schema, |schema|) }

  /** A fixed column's byte offset, a string column's slot number. */
  function Place(schema: Schema, i: nat): nat
    requires i < |schema|
  {
    if schema[i] == Varchar then StrIndex(schema, i) else FieldOffset(schema, i)
  }

  /** The offset vector of the first `i` columns; unsupported types get no entry. */
  function Offsets(schema: Schema, i: nat): (v: seq<nat>)
    requires i <= |schema|
    ensures |v| <= i
  {
    if i == 0 then []
    else if schema[i - 1] == Varchar || InSizeMap(schema[i - 1]) then Offsets(schema, i - 1) + [Place(schema, i - 1)]
    else Offsets(schema, i - 1)
  }

  lemma {:induction false} OffsetsArePlaces(schema: Schema, i: nat)
    requires Supported(schema) && i <= |schema|
    ensures |Offsets(schema, i)| == i
    ensures forall j :: 0 <= j < i ==> Offsets(schema, i)[j] == Place(schema, j)
  {
    if i > 0 {
      OffsetsArePlaces(schema, i - 1);
    }
  }

  lemma {:induction false} OffsetAt(schema: Schema, i: nat)
    requires Supported(schema) && i < |schema|
    ensures |Offsets(schema, |schema|)| == |schema|
    ensures Offsets(schema, |schema|)[i] == Place(schema, i)
  {
    OffsetsArePlaces(schema, |schema|);
  }

  // ----- fields never overlap -----

  lemma {:induction false} FieldsGrow(schema: Schema, i: nat, j: nat)
    requires i <= j <= |schema|
    ensures FieldOffset(schema, i) <= FieldOffset(schema, j)
    ensures StrIndex(schema, i) <= StrIndex(schema, j) <= StrIndex(schema, i) + (j - i)
    decreases j - i
  {
    if i < j {
      FieldsGrow(schema, i, j - 1);
    }
  }

  /** Fixed fields are pairwise disjoint and lie between the bitmap and the string slots; slot numbers are distinct. */
  lemma {:induction false} PlacesDisjoint(schema: Schema, i: nat, j: nat)
    requires i < j < |schema|
    ensures FieldOffset(schema, i) + FixedSize(schema[i]) <= FieldOffset(schema, j)
    ensures FieldOffset(schema, j) + FixedSize(schema[j]) <= StrStart(schema)
    ensures schema[i] == Varchar ==> StrIndex(schema, i) < StrIndex(schema, j)
    ensures schema[j] == Varchar ==> StrIndex(schema, j) < StrCount(schema)
  {
    FieldsGrow(schema, i + 1, j);
    FieldsGrow(schema, j + 1, |schema|);
  }

  lemma {:induction false} PlaceInside(schema: Schema, i: nat)
    requires i < |schema|
    ensures HEADER_LENGTH + BitMapSize(|schema|) <= FieldOffset(schema, i)
    ensures FieldOffset(schema, i) + FixedSize(schema[i]) <= StrStart(schema)
    ensures schema[i] == Varchar ==> StrIndex(schema, i) < StrCount(schema)
  {
    FieldsGrow(schema, i + 1, |schema|);
  }

  // ----- the width of a string slot -----

  /** The bytes of `k` slots of width `w`: the product, written as repeated addition. */
  function Slots(w: nat, k: nat): nat {
    if k == 0 then 0 else Slots(w, k - 1) + w
  }

  lemma {:induction false} SlotsGrow(w: nat, k: nat, n: nat)
    requires k <= n
    ensures Slots(w, k) <= Slots(w, n)
    decreases n
  {
    if k < n { SlotsGrow(w, k, n - 1); }
  }

  lemma {:induction false} SlotsIsProduct(w: nat, k: nat)
    ensures Slots(w, k) == w * k
  {
    if k > 0 { SlotsIsProduct(w, k - 1); }
  }

  /** `GetAddrLength`: the width that the builder and the row view derive from the total size. */
  function AddrLength(size: nat): nat {
    if size <= UINT8_MAX then 1 else if size <= UINT16_MAX then 2 else if size <= UINT24_MAX then 3 else 4
  }

  /** `v1::GetAddrSpace`: the width that generated code derives from the total size. */
  function AddrSpace(size: nat): nat {
    if size <= UINT8_MAX then 1 else if size <= UINT16_MAX then 2 else if size <= 0x100_0000 then 3 else 4
  }

  /** The builder's width is the least that can express every offset into a row of this size. */
  lemma {:induction false} WidthIsLeast(size: nat)
    requires size < TWO32
    ensures 1 <= AddrLength(size) <= 4 && size < Pow256(AddrLength(size))
    ensures AddrLength(size) > 1 ==> size >= Pow256(AddrLength(size) - 1)
  {
    Pow256Values();
  }

  /** The two derivations differ at exactly one size, where the generated code's width is one short. */
  lemma {:induction false} WidthsAgree(size: nat)
    ensures AddrLength(size) == AddrSpace(size) <==> size != 0x100_0000
    ensures size == 0x100_0000 ==> AddrLength(size) == 4 && AddrSpace(size) == 3
  {
  }

  function Wrap32(n: int): (m: nat)
    ensures m < TWO32
    ensures 0 <= n < TWO32 ==> m == n
  {
    n % TWO32
  }

  /** `RowBuilder::CalTotalLength`, in 32-bit unsigned arithmetic; the last comparison is always true there. */
  function CalTotalLength(schema: Schema, stringLength: nat): nat {
    if schema == [] then 0
    else
      var total, n := Wrap32(StrStart(schema) + stringLength), StrCount(schema);
      if Wrap32(total + n) <= UINT8_MAX then Wrap32(total + n)
      else if Wrap32(total + Wrap32(n * 2)) <= UINT16_MAX then Wrap32(total + Wrap32(n * 2))
      else if Wrap32(total + Wrap32(n * 3)) <= UINT24_MAX then Wrap32(total + Wrap32(n * 3))
      else Wrap32(total + Wrap32(n * 4))
  }

  /** `v1::CalcTotalLength`: the total size and the slot width. */
  function CalcTotalLength(primarySize: nat, strFieldCnt: nat, strSize: nat): (nat, nat) {
    var total := Wrap32(primarySize + strSize);
    if Wrap32(total + strFieldCnt) <= UINT8_MAX then (Wrap32(total + strFieldCnt), 1)
    else if Wrap32(total + Wrap32(strFieldCnt * 2)) <= UINT16_MAX then (Wrap32(total + Wrap32(strFieldCnt * 2)), 2)
    else if Wrap32(total + Wrap32(strFieldCnt * 3)) <= 0x100_0000 then (Wrap32(total + Wrap32(strFieldCnt * 3)), 3)
    else (Wrap32(total + Wrap32(strFieldCnt * 4)), 4)
  }

  /**
   Without 32-bit overflow the builder's total has room for the fixed part, the string bodies and one
   slot per string of the very width that will later be derived from that total, and not a byte more.
   */
  lemma {:induction false} BuilderWidthIsRederived(schema: Schema, stringLength: nat)
    requires schema != [] && StrStart(schema) + stringLength + 4 * StrCount(schema) < TWO32
    ensures var size := CalTotalLength(schema, stringLength);
            && size == StrStart(schema) + Slots(AddrLength(size), StrCount(schema)) + stringLength
            && HEADER_LENGTH < size < TWO32
  {
    var total, n := StrStart(schema) + stringLength, StrCount(schema);
    assert Wrap32(total) == total && Wrap32(n * 2) == n * 2 && Wrap32(n * 3) == n * 3 && Wrap32(n * 4) == n * 4;
    SlotsIsProduct(1, n);
    SlotsIsProduct(2, n);
    SlotsIsProduct(3, n);
    SlotsIsProduct(4, n);
  }

  /**
   The total is exact if and only if the addition does not overflow, and then the width is the least
   one that fits: with any smaller slots the row would be too large for them.
   */
  lemma {:induction false} BuilderTotalIsExactIff(schema: Schema, stringLength: nat)
    ensures var size, n := CalTotalLength(schema, stringLength), StrCount(schema);
            && (schema == [] ==> size == 0)
            && (schema != [] ==>
                  (size == StrStart(schema) + Slots(AddrLength(size), n) + stringLength
                   <==> StrStart(schema) + stringLength + 4 * n < TWO32))
  {
    if schema != [] {
      var size, n := CalTotalLength(schema, stringLength), StrCount(schema);
      if StrStart(schema) + stringLength + 4 * n < TWO32 {
        BuilderWidthIsRederived(schema, stringLength);
      } else {
        SlotsIsProduct(1, n);
        SlotsIsProduct(2, n);
        SlotsIsProduct(3, n);
        SlotsIsProduct(4, n);
        hide Slots;
        hide FieldOffset;
        hide StrIndex;
        assert size < TWO32;
        hide CalTotalLength;
      }
    }
  }

  lemma {:induction false} BuilderTotalIsLeast(schema: Schema, stringLength: nat, w: nat)
    requires schema != [] && StrStart(schema) + stringLength + 4 * StrCount(schema) < TWO32
    requires 1 <= w < AddrLength(CalTotalLength(schema, stringLength))
    ensures StrStart(schema) + Slots(w, StrCount(schema)) + stringLength >= Pow256(w)
  {
    hide CalTotalLength;
    hide FieldOffset;
    hide StrIndex;
    hide Slots;
    Pow256Values();
    hide Pow256;
    BuilderChoice(schema, stringLength, StrStart(schema) + stringLength, StrCount(schema));
    assert w == 1 || w == 2 || w == 3;
    SlotsIsProduct(w, StrCount(schema));
  }

  /** Without overflow, the width rules out the smaller ones. */
  lemma {:induction false} BuilderChoice(schema: Schema, stringLength: nat, total: nat, n: nat)
    requires schema != [] && total == StrStart(schema) + stringLength && n == StrCount(schema) && total + 4 * n < TWO32
    ensures var w := AddrLength(CalTotalLength(schema, stringLength));
            && (w > 1 ==> total + n > UINT8_MAX) && (w > 2 ==> total + n * 2 > UINT16_MAX)
            && (w > 3 ==> total + n * 3 > UINT24_MAX)
  {
    hide FieldOffset;
    hide StrIndex;
  }

  /** The same for generated code, where a row of exactly 2^24 bytes still gets slots of three bytes. */
  lemma {:induction false} NativeTotalIsExactIff(primarySize: nat, strFieldCnt: nat, strSize: nat)
    ensures var (size, width) := CalcTotalLength(primarySize, strFieldCnt, strSize);
            size == primarySize + Slots(width, strFieldCnt) + strSize <==> primarySize + strSize + 4 * strFieldCnt < TWO32
  {
    var (size, width) := CalcTotalLength(primarySize, strFieldCnt, strSize);
    if primarySize + strSize + 4 * strFieldCnt < TWO32 {
      NativeWidthIsRederived(primarySize, strFieldCnt, strSize);
    } else {
      SlotsIsProduct(width, strFieldCnt);
      assert size < TWO32 && (width < 4 ==> size <= 0x100_0000);
    }
  }

  lemma {:induction false} NativeTotalIsLeast(primarySize: nat, strFieldCnt: nat, strSize: nat, w: nat)
    requires primarySize + strSize + 4 * strFieldCnt < TWO32
    requires 1 <= w < CalcTotalLength(primarySize, strFieldCnt, strSize).1
    ensures primarySize + Slots(w, strFieldCnt) + strSize >= Pow256(w) + if w == 3 then 1 else 0
  {
    Pow256Values();
    SlotsIsProduct(w, strFieldCnt);
  }

  lemma {:induction false} NativeWidthIsRederived(primarySize: nat, strFieldCnt: nat, strSize: nat)
    requires primarySize + strSize + 4 * strFieldCnt < TWO32
    ensures var (size, width) := CalcTotalLength(primarySize, strFieldCnt, strSize);
            && width == AddrSpace(size)
            && size == primarySize + Slots(width, strFieldCnt) + strSize
  {
    SlotsIsProduct(CalcTotalLength(primarySize, strFieldCnt, strSize).1, strFieldCnt);
  }
}
