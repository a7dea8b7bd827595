/**
 Reading a row back: the string decoder shared by both paths, the reads of whole columns, and the
 proof that they invert every finished row.
 */
module RowReading {
  import opened Bytes
  import opened RowLayout
  import opened RowImage
  import opened RowWrites

  /** What the string getter reports: a negative code, or the place and length of the body. */
  datatype StrField = StrError(code: int) | Str(off: nat, len: nat)

  /** The bytes that the getter looks at are inside the row. */
  predicate SlotsInside(row: seq<byte>, field: nat, next: nat, start: nat, w: nat) {
    && |row| >= HEADER_LENGTH
    && (1 <= w <= 4 ==>
          && start + Slots(w, field) + w <= |row|
          && (next > 0 ==> start + Slots(w, next) + w <= |row|))
  }

  /** Where the getter believes that a string ends. */
  function EndOfString(row: seq<byte>, next: nat, start: nat, w: nat): nat
    requires 1 <= w <= 4 && |row| >= HEADER_LENGTH && (next > 0 ==> start + Slots(w, next) + w <= |row|)
  {
    if next > 0 then SlotValue(row[start + Slots(w, next)..start + Slots(w, next) + w])
    else FromLE(row[VERSION_LENGTH..HEADER_LENGTH])
  }

  /** `v1::GetStrFieldUnsafe`: the next slot, or the stored size when `next` is zero, ends the body. */
  function GetStrFieldUnsafe(row: seq<byte>, field: nat, next: nat, start: nat, w: nat): StrField
    requires SlotsInside(row, field, next, start, w)
  {
    if w < 1 || w > 4 then StrError(-2)
    else
      var off := SlotValue(row[start + Slots(w, field)..start + Slots(w, field) + w]);
      var end := EndOfString(row, next, start, w);
      if end < off then StrError(-3) else Str(off, end - off)
  }

  /** The slot after slot `k` of `n`, or zero for the last one. */
  function Successor(k: nat, n: nat): nat { if k + 1 < n then k + 1 else 0 }

  /** Slot number of the string after the one in column `i`, or zero for the last string. */
  function NextSlot(schema: Schema, i: nat): nat
    requires i < |schema|
  {
    Successor(StrIndex(schema, i), StrCount(schema))
  }

  /** What a getter delivers; a string getter may point at bytes that are not all in the row. */
  datatype Got = GotError(code: int) | GotNull | Got(value: Value) | GotOutside(off: nat, len: nat)

  /** The string that the getter's pointer and length denote. */
  function FetchString(row: seq<byte>, field: nat, next: nat, start: nat, w: nat): Got
    requires SlotsInside(row, field, next, start, w)
  {
    match GetStrFieldUnsafe(row, field, next, start, w)
    case StrError(code) => GotError(code)
    case Str(off, len) => if off + len <= |row| then Got(VString(row[off..off + len])) else GotOutside(off, len)
  }

  function ReadString(b: seq<byte>, schema: Schema, w: nat, i: nat): Got
    requires i < |schema| && schema[i] == Varchar
    requires |b| >= BodyStart(schema, w) && 1 <= w <= 4
  {
    StringReadsInside(b, schema, w, i);
    FetchString(b, StrIndex(schema, i), NextSlot(schema, i), StrStart(schema), w)
  }

  lemma {:induction false} StringReadsInside(b: seq<byte>, schema: Schema, w: nat, i: nat)
    requires i < |schema| && schema[i] == Varchar && |b| >= BodyStart(schema, w) && 1 <= w <= 4
    ensures SlotsInside(b, StrIndex(schema, i), NextSlot(schema, i), StrStart(schema), w)
  {
    Marks(schema, w, i);
    SlotInside(schema, w, i, |schema|);
    SlotsGrow(w, NextSlot(schema, i) + 1, StrCount(schema));
  }

  /** Reading column `i` under its own type. */
  function ReadColumn(b: seq<byte>, schema: Schema, w: nat, i: nat): Got
    requires Supported(schema) && i < |schema| && |b| >= BodyStart(schema, w) && 1 <= w <= 4
  {
    Marks(schema, w, i);
    PlaceInside(schema, i);
    if NullBit(b, i) then GotNull
    else if schema[i] == Varchar then ReadString(b, schema, w, i)
    else
      var off := FieldOffset(schema, i);
      Got(ReadFixed(schema[i], b[off..off + TypeSize(schema[i])]))
  }

  function AsGot(v: Value): Got { if v.Null? then GotNull else Got(v) }

  // ----- the next string -----

  function NextString(schema: Schema, i: nat): (j: nat)
    requires i < |schema|
    ensures i < j <= |schema| && (j < |schema| ==> schema[j] == Varchar)
    decreases |schema| - i
  {
    if i + 1 == |schema| || schema[i + 1] == Varchar then i + 1 else NextString(schema, i + 1)
  }

  lemma {:induction false} NothingBetween(schema: Schema, vals: seq<Value>, i: nat)
    requires Fitting(schema, vals) && |vals| == |schema| && i < |schema|
    ensures StrIndex(schema, NextString(schema, i)) == StrIndex(schema, i + 1)
    ensures StrBytes(vals, NextString(schema, i)) == StrBytes(vals, i + 1)
    decreases |schema| - i
  {
    if i + 1 < |schema| && schema[i + 1] != Varchar {
      assert !vals[i + 1].VString?;
      NothingBetween(schema, vals, i + 1);
    }
  }

  /** The slot after a string's own is the slot of the next string column, where its body ends. */
  lemma {:induction false} NextSlotIsNextString(schema: Schema, vals: seq<Value>, i: nat)
    requires Fitting(schema, vals) && |vals| == |schema| && i < |schema| && schema[i] == Varchar
    ensures var j := NextString(schema, i);
            && NextSlot(schema, i) == (if j < |schema| then StrIndex(schema, j) else 0)
            && StrBytes(vals, j) == StrBytes(vals, i) + StrLen(vals[i])
  {
    var j := NextString(schema, i);
    NothingBetween(schema, vals, i);
    if j < |schema| { PlaceInside(schema, j); }
  }

  // ----- reading back -----

  /** No string starts beyond what a slot can express. */
  ghost predicate SlotsFit(schema: Schema, w: nat, vals: seq<Value>)
    requires |vals| == |schema|
  {
    forall i :: 0 <= i < |schema| && schema[i] == Varchar ==> BodyOffset(schema, w, vals, i) < Pow256(w)
  }

  lemma {:induction false} SlotReadsBack(b: seq<byte>, schema: Schema, w: nat, vals: seq<Value>, i: nat)
    requires Finished(b, schema, w, vals) && SlotsFit(schema, w, vals) && i < |schema| && schema[i] == Varchar
    ensures var off := StrStart(schema) + Slots(w, StrIndex(schema, i));
            && off + w <= |b|
            && SlotValue(b[off..off + w]) == BodyOffset(schema, w, vals, i)
  {
    assert ColumnHolds(b, schema, w, vals, i);
    SlotRoundTrip(w, BodyOffset(schema, w, vals, i));
  }

  lemma {:induction false} EndReadsBack(b: seq<byte>, schema: Schema, w: nat, vals: seq<Value>, i: nat)
    requires Finished(b, schema, w, vals) && SlotsFit(schema, w, vals) && i < |schema| && schema[i] == Varchar
    requires NextSlot(schema, i) > 0 ==> StrStart(schema) + Slots(w, NextSlot(schema, i)) + w <= |b|
    ensures EndOfString(b, NextSlot(schema, i), StrStart(schema), w) ==
            BodyOffset(schema, w, vals, i) + StrLen(vals[i])
  {
    var j := NextString(schema, i);
    assert HeaderHolds(b, |b|) && BodyOffset(schema, w, vals, |vals|) == |b|;
    NextSlotIsNextString(schema, vals, i);
    hide Finished;
    hide SlotValue;
    if j < |schema| {
      SlotReadsBack(b, schema, w, vals, j);
      FieldsGrow(schema, i + 1, j);
      assert StrIndex(schema, j) > 0;
    } else {
      assert BodyOffset(schema, w, vals, j) == |b|;
    }
  }

  lemma {:induction false} BodyReadsBack(b: seq<byte>, schema: Schema, w: nat, vals: seq<Value>, i: nat)
    requires Finished(b, schema, w, vals) && SlotsFit(schema, w, vals) && i < |schema| && schema[i] == Varchar
    ensures SlotsInside(b, StrIndex(schema, i), NextSlot(schema, i), StrStart(schema), w)
    ensures GetStrFieldUnsafe(b, StrIndex(schema, i), NextSlot(schema, i), StrStart(schema), w) ==
            Str(BodyOffset(schema, w, vals, i), StrLen(vals[i]))
  {
    StringReadsInside(b, schema, w, i);
    SlotReadsBack(b, schema, w, vals, i);
    EndReadsBack(b, schema, w, vals, i);
  }

  lemma {:induction false} StringReadsBack(b: seq<byte>, schema: Schema, w: nat, vals: seq<Value>, i: nat)
    requires Finished(b, schema, w, vals) && SlotsFit(schema, w, vals)
    requires i < |schema| && schema[i] == Varchar && !vals[i].Null?
    ensures |b| >= BodyStart(schema, w) && ReadString(b, schema, w, i) == Got(vals[i])
  {
    hide GetStrFieldUnsafe;
    hide SlotBytes;
    BodyHeld(b, schema, w, vals, i);
    BodyReadsBack(b, schema, w, vals, i);
    hide Finished;
    hide SlotsInside;
    hide StrIndex;
    hide FieldOffset;
  }

  lemma {:induction false} BodyHeld(b: seq<byte>, schema: Schema, w: nat, vals: seq<Value>, i: nat)
    requires Finished(b, schema, w, vals) && i < |schema| && schema[i] == Varchar && !vals[i].Null?
    ensures |b| >= BodyStart(schema, w) && vals[i].VString? && Slice(b, BodyOffset(schema, w, vals, i), vals[i].s)
  {
    assert ColumnHolds(b, schema, w, vals, i);
  }

  lemma {:induction false} FixedReadsBack(b: seq<byte>, schema: Schema, i: nat, v: Value)
    requires i < |schema| && Encodable(v, schema[i]) && !v.Null? && schema[i] != Varchar
    requires Slice(b, FieldOffset(schema, i), FixedBytes(v))
    ensures InSizeMap(schema[i]) && FieldOffset(schema, i) + TypeSize(schema[i]) <= |b|
    ensures ReadFixed(schema[i], b[FieldOffset(schema, i)..FieldOffset(schema, i) + TypeSize(schema[i])]) == v
  {
    hide FixedBytes;
    FixedRoundTrip(v, schema[i]);
  }

  /** Every value, NULL flag and string of a finished row reads back, at any slot width that fits. */
  lemma {:induction false} ColumnReadsBack(b: seq<byte>, schema: Schema, w: nat, vals: seq<Value>, i: nat)
    requires Supported(schema) && Finished(b, schema, w, vals) && SlotsFit(schema, w, vals) && i < |schema|
    ensures |b| >= BodyStart(schema, w) && ReadColumn(b, schema, w, i) == AsGot(vals[i])
  {
    Marks(schema, w, i);
    assert NullBit(b, i) <==> vals[i].Null?;
    if !vals[i].Null? {
      if schema[i] == Varchar {
        StringReadsBack(b, schema, w, vals, i);
      } else {
        assert ColumnHolds(b, schema, w, vals, i);
        FixedReadsBack(b, schema, i, vals[i]);
      }
    }
  }

  lemma {:induction false} EncodedSlotsFit(b: seq<byte>, schema: Schema, vals: seq<Value>)
    requires Encodes(b, schema, vals)
    ensures SlotsFit(schema, AddrLength(|b|), vals)
  {
    WidthIsLeast(|b|);
    forall i | 0 <= i < |schema| ensures BodyOffset(schema, AddrLength(|b|), vals, i) <= |b| {
      StrBytesGrow(vals, i, |vals|);
    }
  }

  /** The row view, which derives the width from the size, reads back every encoded row. */
  lemma {:induction false} RowReadsBack(b: seq<byte>, schema: Schema, vals: seq<Value>, i: nat)
    requires Supported(schema) && Encodes(b, schema, vals) && i < |schema|
    ensures |b| >= BodyStart(schema, AddrLength(|b|))
    ensures ReadColumn(b, schema, AddrLength(|b|), i) == AsGot(vals[i])
  {
    EncodedSlotsFit(b, schema, vals);
    ColumnReadsBack(b, schema, AddrLength(|b|), vals, i);
  }

  /** So a row determines the values it encodes. */
  lemma {:induction false} EncodingIsInjective(b: seq<byte>, schema: Schema, v1: seq<Value>, v2: seq<Value>)
    requires Supported(schema) && Encodes(b, schema, v1) && Encodes(b, schema, v2)
    ensures v1 == v2
  {
    forall i | 0 <= i < |schema| ensures v1[i] == v2[i] {
      RowReadsBack(b, schema, v1, i);
      RowReadsBack(b, schema, v2, i);
    }
  }
}
