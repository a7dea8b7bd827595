/**
 The other encoder: the program that the code generator emits for an output row, built on the `v1`
 functions, and the `v1` decoder that generated code uses.
 */
module NativeEncoding {
  import opened Bytes
  import opened RowLayout
  import opened RowImage
  import opened RowWrites
  import opened RowReading
  import opened RowBuilding

  const TWO24 := 0x100_0000
  const TWO31 := 0x8000_0000

  /**
   One computed output: its value, whether the code tracks its NULL flag, and, for a NULL in a fixed
   column, whatever bytes its value register holds.
   */
  datatype Output = Output(value: Value, nullable: bool, junk: seq<byte>)

  ghost predicate GoodOutputs(schema: Schema, outs: seq<Output>) {
    && |outs| == |schema|
    && forall i :: 0 <= i < |outs| ==>
         && Encodable(outs[i].value, schema[i])
         && (outs[i].value.Null? ==> outs[i].nullable && |outs[i].junk| <= FixedSize(schema[i]))
  }

  function Values(outs: seq<Output>): (vals: seq<Value>)
    ensures |vals| == |outs| && forall i :: 0 <= i < |outs| ==> vals[i] == outs[i].value
  {
    seq(|outs|, i requires 0 <= i < |outs| => outs[i].value)
  }

  // ----- v1::AppendString -----

  /** Returns the next body offset, or -1; a NULL takes its slot width from the buffer size instead. */
  method AppendString(buf: array<byte>, bufSize: nat, colIdx: nat, v: Value, strStart: nat, strField: nat,
                      addrSpace: nat, body: nat) returns (next: int)
    requires v.Null? || v.VString?
    requires bufSize <= buf.Length && HEADER_LENGTH + colIdx / 8 < bufSize && 1 <= addrSpace <= 4
    requires v.Null? ==> strStart + Slots(AddrLength(bufSize), strField) + AddrLength(bufSize) <= bufSize
    requires v.VString? ==> strStart + Slots(addrSpace, strField) + addrSpace <= bufSize && body + |v.s| <= bufSize
    modifies buf
    ensures v.Null? ==> next == body
    ensures v.Null? ==>
              buf[..] == WriteAt(MarkNull(old(buf[..]), colIdx, true), strStart + Slots(AddrLength(bufSize), strField),
                                 SlotBytes(AddrLength(bufSize), body))
    ensures v.VString? ==> next == (if strStart + Slots(addrSpace, strField) + |v.s| > bufSize then -1 else body + |v.s|)
    ensures v.VString? && next >= 0 ==>
              buf[..] == WriteAt(WriteAt(old(buf[..]), strStart + Slots(addrSpace, strField), SlotBytes(addrSpace, body)), body, v.s)
  {
    if v.Null? {
      StoreNull(buf, colIdx, true, strStart, AddrLength(bufSize), strField, body);
      return body;
    }
    SlotsIsProduct(addrSpace, strField);
    if strStart + strField * addrSpace + |v.s| > bufSize {
      return -1;
    }
    StoreString(buf, strStart, addrSpace, strField, body, v.s);
    next := body + |v.s|;
  }

  // ----- the emitted program -----

  /** `AppendHeader`: versions, size and a cleared bitmap. */
  method AppendHeader(buf: array<byte>, size: nat, schema: Schema)
    requires HEADER_LENGTH + BitMapSize(|schema|) <= buf.Length
    modifies buf
    ensures buf[..] == PutHeader(old(buf[..]), schema, size)
  {
    ghost var before := buf[..];
    buf[0] := 1;
    buf[1] := 1;
    Store(buf, VERSION_LENGTH, ToLE(size, 4));
    Store(buf, HEADER_LENGTH, seq(BitMapSize(|schema|), _ => 0));
    assert before[0 := 1][1 := 1] == [1, 1] + before[2..];
  }

  /** `AppendPrimary`: the null bit, set or cleared, if the output is nullable; then the typed store. */
  method AppendPrimary(buf: array<byte>, schema: Schema, idx: nat, offset: nat, out: Output)
    requires idx < |schema| && schema[idx] != Varchar && Encodable(out.value, schema[idx]) && offset == FieldOffset(schema, idx)
    requires HEADER_LENGTH + idx / 8 < buf.Length && offset + FixedSize(schema[idx]) <= buf.Length
    requires out.value.Null? ==> |out.junk| <= FixedSize(schema[idx])
    modifies buf
    ensures var data := if out.value.Null? then out.junk else FixedBytes(out.value);
            buf[..] == PutFixed(old(buf[..]), schema, idx, out.value.Null?, out.nullable, data)
  {
    if out.nullable {
      buf[HEADER_LENGTH + idx / 8] := MarkBit(buf[HEADER_LENGTH + idx / 8], idx % 8, out.value.Null?);
      assert buf[..] == MarkNull(old(buf[..]), idx, out.value.Null?);
    }
    Store(buf, offset, if out.value.Null? then out.junk else FixedBytes(out.value));
  }

  /** The encoder's own layout loop. */
  method Layout(schema: Schema) returns (offsets: seq<nat>, strStart: nat, strCount: nat)
    ensures offsets == Offsets(schema, |schema|) && strStart == StrStart(schema) && strCount == StrCount(schema)
  {
    offsets, strStart, strCount := [], HEADER_LENGTH + BitMapSize(|schema|), 0;
    for idx := 0 to |schema|
      invariant offsets == Offsets(schema, idx)
      invariant strStart == FieldOffset(schema, idx) && strCount == StrIndex(schema, idx)
    {
      if schema[idx] == Varchar {
        offsets := offsets + [strCount];
        strCount := strCount + 1;
      } else if InSizeMap(schema[idx]) {
        offsets := offsets + [strStart];
        strStart := strStart + TypeSize(schema[idx]);
      }
    }
  }

  /** The total size and slot width that the emitted program computes for these values. */
  function RowSize(schema: Schema, vals: seq<Value>): (nat, nat) {
    if StrCount(schema) == 0 then (StrStart(schema), 1)
    else CalcTotalLength(StrStart(schema), StrCount(schema), StrBytes(vals, |vals|))
  }

  /** `CalcTotalSize`: NULL strings count as empty; without string columns no width is computed. */
  method CalcTotalSize(schema: Schema, outs: seq<Output>, strStart: nat, strCount: nat) returns (size: nat, width: nat)
    requires |outs| == |schema| && strStart == StrStart(schema) && strCount == StrCount(schema)
    requires GoodOutputs(schema, outs)
    ensures (size, width) == RowSize(schema, Values(outs))
  {
    if strCount == 0 {
      return strStart, 1;
    }
    var total := 0;
    for idx := 0 to |schema|
      invariant total == StrBytes(Values(outs), idx)
    {
      if schema[idx] == Varchar {
        total := total + if outs[idx].value.Null? then 0 else |outs[idx].value.s|;
      }
    }
    var r := CalcTotalLength(strStart, strCount, total);
    size, width := r.0, r.1;
  }

  lemma {:induction false} NoStringsNoBytes(schema: Schema, vals: seq<Value>, i: nat)
    requires Fitting(schema, vals) && i <= |vals| && StrIndex(schema, i) == 0
    ensures StrBytes(vals, i) == 0
  {
    if i > 0 {
      NoStringsNoBytes(schema, vals, i - 1);
      assert !vals[i - 1].VString?;
    }
  }

  /** The computed size is exactly what the layout needs at the computed width. */
  lemma {:induction false} RowSizeIsExact(schema: Schema, vals: seq<Value>)
    requires Fitting(schema, vals) && |vals| == |schema|
    requires StrStart(schema) + StrBytes(vals, |vals|) + 4 * StrCount(schema) < TWO31
    ensures var (size, w) := RowSize(schema, vals);
            && 1 <= w <= 4 && size == BodyOffset(schema, w, vals, |vals|) < TWO31
            && (StrCount(schema) > 0 ==> w == AddrSpace(size))
  {
    if StrCount(schema) == 0 {
      NoStringsNoBytes(schema, vals, |schema|);
    } else {
      NativeWidthIsRederived(StrStart(schema), StrCount(schema), StrBytes(vals, |vals|));
    }
  }

  /** The width of the slots that the emitted program writes. */
  function SlotWidth(schema: Schema, size: nat): nat {
    if StrCount(schema) == 0 then AddrLength(size) else AddrSpace(size)
  }

  /** NULL strings take the other derivation's width, so they need it to agree. */
  predicate NullsAgree(schema: Schema, size: nat, vals: seq<Value>) {
    size == TWO24 ==> forall i :: 0 <= i < |vals| && i < |schema| && schema[i] == Varchar ==> !vals[i].Null?
  }

  /** The slot of every NULL string, whose width is derived from the row's size, ends inside the row. */
  ghost predicate NullSlotsInside(schema: Schema, size: nat, vals: seq<Value>) {
    forall i :: 0 <= i < |vals| && i < |schema| && schema[i] == Varchar && vals[i].Null? ==>
      SlotOffset(schema, AddrLength(size), i) + AddrLength(size) <= size
  }

  /** A row of `size` bytes has room for every store that the emitted code makes. */
  ghost predicate Emittable(size: nat, schema: Schema, w: nat, outs: seq<Output>) {
    && GoodOutputs(schema, outs) && 1 <= w <= 4
    && BodyOffset(schema, w, Values(outs), |outs|) <= size
    && NullSlotsInside(schema, size, Values(outs))
  }

  /** The stores for a string: a NULL takes the width of its slot from the row's size instead. */
  ghost predicate StringRoom(size: nat, schema: Schema, w: nat, i: nat, v: Value, body: nat) {
    && 1 <= w <= 4 && i < |schema| && HEADER_LENGTH + i / 8 < size && (v.Null? || v.VString?)
    && (v.Null? ==> SlotOffset(schema, AddrLength(size), i) + AddrLength(size) <= size)
    && (v.VString? ==> SlotOffset(schema, w, i) + w <= body && body + |v.s| <= size)
  }

  ghost function EmitString(b: seq<byte>, schema: Schema, w: nat, i: nat, v: Value, body: nat): (c: seq<byte>)
    requires StringRoom(|b|, schema, w, i, v, body)
    ensures |c| == |b|
  {
    if v.Null? then WriteAt(MarkNull(b, i, true), SlotOffset(schema, AddrLength(|b|), i), SlotBytes(AddrLength(|b|), body))
    else WriteAt(WriteAt(b, SlotOffset(schema, w, i), SlotBytes(w, body)), body, v.s)
  }

  ghost predicate FixedRoom(size: nat, schema: Schema, i: nat, out: Output) {
    && i < |schema| && schema[i] != Varchar && Encodable(out.value, schema[i])
    && (out.value.Null? ==> |out.junk| <= FixedSize(schema[i]))
    && HEADER_LENGTH + i / 8 < size && FieldOffset(schema, i) + FixedSize(schema[i]) <= size
  }

  /** The stores for a fixed column: its null bit, if that is tracked, and its value or whatever stands for a NULL. */
  ghost function EmitFixed(b: seq<byte>, schema: Schema, i: nat, out: Output): (c: seq<byte>)
    requires FixedRoom(|b|, schema, i, out)
    ensures |c| == |b|
  {
    PutFixed(b, schema, i, out.value.Null?, out.nullable, if out.value.Null? then out.junk else FixedBytes(out.value))
  }

  lemma {:induction false} EmitRoom(size: nat, schema: Schema, w: nat, outs: seq<Output>, i: nat)
    requires Emittable(size, schema, w, outs) && i < |schema|
    ensures schema[i] != Varchar ==> FixedRoom(size, schema, i, outs[i])
    ensures schema[i] == Varchar ==> StringRoom(size, schema, w, i, outs[i].value, BodyOffset(schema, w, Values(outs), i))
  {
    Marks(schema, w, i);
    PlaceInside(schema, i);
    StrBytesGrow(Values(outs), i + 1, |outs|);
    if schema[i] == Varchar { SlotInside(schema, w, i, |schema|); }
  }

  /** The stores of the emitted code for column `i`. */
  ghost function EmitColumn(b: seq<byte>, schema: Schema, w: nat, outs: seq<Output>, i: nat): (c: seq<byte>)
    requires Emittable(|b|, schema, w, outs) && i < |schema|
    ensures |c| == |b|
  {
    EmitRoom(|b|, schema, w, outs, i);
    if schema[i] == Varchar then EmitString(b, schema, w, i, outs[i].value, BodyOffset(schema, w, Values(outs), i))
    else EmitFixed(b, schema, i, outs[i])
  }

  /** The row after the first `n` columns. */
  ghost function EmitAll(b: seq<byte>, schema: Schema, w: nat, outs: seq<Output>, n: nat): (c: seq<byte>)
    requires Emittable(|b|, schema, w, outs) && n <= |schema|
    ensures |c| == |b|
  {
    if n == 0 then b else EmitColumn(EmitAll(b, schema, w, outs, n - 1), schema, w, outs, n - 1)
  }

  /** The emitted code computes the body offset at the first string only; until then it is negative. */
  ghost predicate BodyKnown(schema: Schema, w: nat, vals: seq<Value>, idx: nat, body: int)
    requires idx <= |vals| == |schema|
  {
    if body < 0 then StrIndex(schema, idx) == 0 else body == BodyOffset(schema, w, vals, idx)
  }

  /** The emitted call for a string column; it never fails, as the slot lies before the body. */
  method EncodeString(buf: array<byte>, schema: Schema, idx: nat, field: nat, v: Value, strStart: nat, w: nat, body: nat)
    returns (next: nat)
    requires StringRoom(buf.Length, schema, w, idx, v, body)
    requires field == StrIndex(schema, idx) && strStart == StrStart(schema)
    modifies buf
    ensures buf[..] == EmitString(old(buf[..]), schema, w, idx, v, body) && next == body + StrLen(v)
  {
    hide WriteAt;
    hide MarkNull;
    hide SlotBytes;
    hide AddrLength;
    hide StrIndex;
    hide FieldOffset;
    hide Slots;
    var r := AppendString(buf, buf.Length, idx, v, strStart, field, w, body);
    next := r;
  }

  method EncodeFixed(buf: array<byte>, schema: Schema, idx: nat, offset: nat, out: Output)
    requires FixedRoom(buf.Length, schema, idx, out) && offset == FieldOffset(schema, idx)
    modifies buf
    ensures buf[..] == EmitFixed(old(buf[..]), schema, idx, out)
  {
    AppendPrimary(buf, schema, idx, offset, out);
  }

  lemma {:induction false} BodyOfNext(size: nat, schema: Schema, w: nat, outs: seq<Output>, idx: nat)
    requires Emittable(size, schema, w, outs) && idx < |schema|
    ensures |outs| == |schema|
    ensures BodyOffset(schema, w, Values(outs), idx + 1) == BodyOffset(schema, w, Values(outs), idx) + StrLen(outs[idx].value)
    ensures schema[idx] != Varchar ==> StrLen(outs[idx].value) == 0 && StrIndex(schema, idx + 1) == StrIndex(schema, idx)
    ensures StrIndex(schema, idx) == 0 ==> BodyOffset(schema, w, Values(outs), idx) == BodyStart(schema, w)
  {
    if StrIndex(schema, idx) == 0 { NoStringsNoBytes(schema, Values(outs), idx); }
  }

  /** The emitted code for one column. */
  method EncodeColumn(buf: array<byte>, schema: Schema, idx: nat, offsets: seq<nat>, outs: seq<Output>, strStart: nat,
                      strCount: nat, width: nat, body: int, ghost w: nat) returns (next: int)
    requires Emittable(buf.Length, schema, w, outs) && idx < |schema|
    requires Supported(schema) && offsets == Offsets(schema, |schema|)
    requires strStart == StrStart(schema) && strCount == StrCount(schema) && (strCount > 0 ==> w == width)
    requires BodyKnown(schema, w, Values(outs), idx, body)
    modifies buf
    ensures buf[..] == EmitColumn(old(buf[..]), schema, w, outs, idx)
    ensures BodyKnown(schema, w, Values(outs), idx + 1, next)
  {
    hide StringRoom;
    hide FixedRoom;
    hide Emittable;
    OffsetAt(schema, idx);
    StringMeansCount(schema, idx);
    EmitRoom(buf.Length, schema, w, outs, idx);
    BodyOfNext(buf.Length, schema, w, outs, idx);
    hide EmitString;
    hide EmitFixed;
    hide BodyOffset;
    hide StrIndex;
    hide FieldOffset;
    hide Slots;
    next := body;
    if schema[idx] == Varchar {
      if body < 0 {
        SlotsIsProduct(width, strCount);
        next := strStart + strCount * width;
      }
      next := EncodeString(buf, schema, idx, offsets[idx], outs[idx].value, strStart, width, next);
    } else {
      EncodeFixed(buf, schema, idx, offsets[idx], outs[idx]);
    }
  }

  lemma {:induction false} StartRow(schema: Schema, vals: seq<Value>, size: nat, width: nat) returns (w: nat)
    requires Fitting(schema, vals) && |vals| == |schema|
    requires StrStart(schema) + StrBytes(vals, |vals|) + 4 * StrCount(schema) < TWO31
    requires (size, width) == RowSize(schema, vals)
    ensures w == SlotWidth(schema, size) && 1 <= w <= 4 && (StrCount(schema) > 0 ==> w == width)
    ensures size == BodyOffset(schema, w, vals, |vals|) < TWO31
    ensures BodyStart(schema, w) <= size
    ensures size != TWO24 ==> w == AddrLength(size)
  {
    RowSizeIsExact(schema, vals);
    w := SlotWidth(schema, size);
    WidthsAgree(size);
  }

  /**
   `BuildEncode`: the whole emitted program, on the memory `was` that it is given.  Unless the row has
   exactly 2^24 bytes and a NULL string, the row is finished.
   */
  method BuildEncode(schema: Schema, outs: seq<Output>) returns (buf: array<byte>, ghost was: seq<byte>)
    requires Supported(schema) && schema != [] && GoodOutputs(schema, outs)
    requires StrStart(schema) + StrBytes(Values(outs), |outs|) + 4 * StrCount(schema) < TWO31
    requires NullSlotsInside(schema, RowSize(schema, Values(outs)).0, Values(outs))
    ensures fresh(buf) && buf.Length == |was| == RowSize(schema, Values(outs)).0
    ensures var w := SlotWidth(schema, buf.Length);
            && HEADER_LENGTH + BitMapSize(|schema|) <= |was| && Emittable(|was|, schema, w, outs)
            && buf[..] == EmitAll(PutHeader(was, schema, |was|), schema, w, outs, |schema|)
    ensures NullsAgree(schema, buf.Length, Values(outs)) ==>
              Finished(buf[..], schema, SlotWidth(schema, buf.Length), Values(outs))
  {
    hide BodyOffset;
    hide Holds;
    hide Finished;
    ghost var vals := Values(outs);
    var offsets, strStart, strCount := Layout(schema);
    var size, width := CalcTotalSize(schema, outs, strStart, strCount);
    ghost var w := StartRow(schema, vals, size, width);
    buf := new byte[size];
    was := buf[..];
    PutHeaderHolds(was, schema, w, size);
    AppendHeader(buf, size, schema);
    EncodeColumns(buf, schema, outs, offsets, strStart, strCount, width, w);
    if NullsAgree(schema, size, vals) {
      EmitFinishes(PutHeader(was, schema, size), schema, w, outs);
    }
  }

  method EncodeColumns(buf: array<byte>, schema: Schema, outs: seq<Output>, offsets: seq<nat>, strStart: nat,
                       strCount: nat, width: nat, ghost w: nat)
    requires Emittable(buf.Length, schema, w, outs) && offsets == Offsets(schema, |schema|) && Supported(schema)
    requires strStart == StrStart(schema) && strCount == StrCount(schema) && (strCount > 0 ==> w == width)
    modifies buf
    ensures buf[..] == EmitAll(old(buf[..]), schema, w, outs, |schema|)
  {
    hide BodyKnown;
    hide Emittable;
    hide EmitColumn;
    ghost var before := buf[..];
    var body := -1;
    NoBodyYet(buf.Length, schema, w, outs);
    for idx := 0 to |schema|
      invariant buf[..] == EmitAll(before, schema, w, outs, idx)
      invariant BodyKnown(schema, w, Values(outs), idx, body)
    {
      body := EncodeColumn(buf, schema, idx, offsets, outs, strStart, strCount, width, body, w);
    }
  }

  lemma {:induction false} NoBodyYet(size: nat, schema: Schema, w: nat, outs: seq<Output>)
    requires Emittable(size, schema, w, outs)
    ensures |outs| == |schema| && BodyKnown(schema, w, Values(outs), 0, -1)
  {
  }

  lemma {:induction false} StringMeansCount(schema: Schema, idx: nat)
    requires idx < |schema|
    ensures schema[idx] == Varchar ==> StrCount(schema) > 0
  {
    PlaceInside(schema, idx);
  }

  // ----- the emitted row is finished -----

  /** One column's stores put its value in place, provided that a NULL string's slot has the common width. */
  lemma {:induction false} EmitStep(b: seq<byte>, schema: Schema, w: nat, outs: seq<Output>, i: nat)
    requires Emittable(|b|, schema, w, outs) && i < |schema|
    requires schema[i] == Varchar && outs[i].value.Null? ==> w == AddrLength(|b|)
    requires Filled(b, schema, w, |b|, Values(outs)[..i], BodyOffset(schema, w, Values(outs), i))
    ensures Filled(EmitColumn(b, schema, w, outs, i), schema, w, |b|, Values(outs)[..i] + [outs[i].value],
                   BodyOffset(schema, w, Values(outs), i) + StrLen(outs[i].value))
  {
    hide Filled;
    hide BodyOffset;
    hide StrIndex;
    hide FieldOffset;
    hide Slots;
    hide WriteAt;
    hide SlotBytes;
    var vals, out, body := Values(outs)[..i], outs[i], BodyOffset(schema, w, Values(outs), i);
    EmitRoom(|b|, schema, w, outs, i);
    FilledHasRoom(b, schema, w, |b|, vals, body);
    hide NullSlotsInside;
    if schema[i] != Varchar {
      FixedStep(b, schema, w, |b|, vals, out, body);
    } else if out.value.Null? {
      AppendedNull(b, EmitColumn(b, schema, w, outs, i), schema, w, |b|, vals, body);
    } else {
      AppendedString(b, schema, w, |b|, vals, out.value.s, body);
    }
  }

  lemma {:induction false} FixedStep(b: seq<byte>, schema: Schema, w: nat, size: nat, vals: seq<Value>, out: Output,
                                     body: nat)
    requires Filled(b, schema, w, size, vals, body) && |vals| < |schema| && schema[|vals|] != Varchar
    requires Encodable(out.value, schema[|vals|])
    requires out.value.Null? ==> out.nullable && |out.junk| <= FixedSize(schema[|vals|])
    ensures Room(b, schema, w, |vals|, body)
    ensures var data := if out.value.Null? then out.junk else FixedBytes(out.value);
            && FieldOffset(schema, |vals|) + |data| <= |b|
            && Filled(PutFixed(b, schema, |vals|, out.value.Null?, out.nullable, data), schema, w, size,
                      vals + [out.value], body)
  {
    FilledHasRoom(b, schema, w, size, vals, body);
    PutFixedHolds(b, schema, w, size, vals, out.value, out.nullable, if out.value.Null? then out.junk else FixedBytes(out.value));
  }

  /** The first `n` columns of the outputs are in place. */
  ghost predicate FilledTo(b: seq<byte>, schema: Schema, w: nat, outs: seq<Output>, n: nat)
    requires n <= |outs|
  {
    Filled(b, schema, w, |b|, Values(outs)[..n], BodyOffset(schema, w, Values(outs), n))
  }

  lemma {:induction false} EmitNext(b: seq<byte>, schema: Schema, w: nat, outs: seq<Output>, i: nat)
    requires Emittable(|b|, schema, w, outs) && i < |schema| && FilledTo(b, schema, w, outs, i)
    requires schema[i] == Varchar && outs[i].value.Null? ==> w == AddrLength(|b|)
    ensures FilledTo(EmitColumn(b, schema, w, outs, i), schema, w, outs, i + 1)
  {
    hide Filled;
    hide EmitColumn;
    hide Emittable;
    BodyOfNext(|b|, schema, w, outs, i);
    hide BodyOffset;
    EmitStep(b, schema, w, outs, i);
    assert Values(outs)[..i + 1] == Values(outs)[..i] + [outs[i].value];
  }

  lemma {:induction false} EmitFills(b: seq<byte>, schema: Schema, w: nat, outs: seq<Output>, n: nat)
    requires Emittable(|b|, schema, w, outs) && n <= |schema| && FilledTo(b, schema, w, outs, 0)
    requires forall i :: 0 <= i < |schema| && schema[i] == Varchar && outs[i].value.Null? ==> w == AddrLength(|b|)
    ensures FilledTo(EmitAll(b, schema, w, outs, n), schema, w, outs, n)
  {
    hide FilledTo;
    hide EmitColumn;
    if n > 0 {
      EmitFills(b, schema, w, outs, n - 1);
      EmitNext(EmitAll(b, schema, w, outs, n - 1), schema, w, outs, n - 1);
    }
  }

  lemma {:induction false} EmitFinishes(b: seq<byte>, schema: Schema, w: nat, outs: seq<Output>)
    requires Emittable(|b|, schema, w, outs) && schema != [] && Holds(b, schema, w, |b|, [])
    requires BodyOffset(schema, w, Values(outs), |outs|) == |b|
    requires |b| != TWO24 ==> w == AddrLength(|b|)
    requires NullsAgree(schema, |b|, Values(outs))
    ensures Finished(EmitAll(b, schema, w, outs, |schema|), schema, w, Values(outs))
  {
    assert Values(outs)[..0] == [];
    EmitFills(b, schema, w, outs, |schema|);
    assert Values(outs)[..|schema|] == Values(outs);
  }

  // ----- both decoders read the emitted row -----

  /** The emitted row has the slots that the row view looks for at every size but 2^24, and there only without strings. */
  lemma {:induction false} NativeRowIsEncoded(b: seq<byte>, schema: Schema, vals: seq<Value>)
    requires |b| < TWO31 && Finished(b, schema, SlotWidth(schema, |b|), vals)
    ensures Encodes(b, schema, vals) <==> |b| != TWO24 || StrCount(schema) == 0
  {
    WidthsAgree(|b|);
    if |b| == TWO24 && StrCount(schema) > 0 {
      WiderSlots(3, 4, StrCount(schema));
    }
  }

  lemma {:induction false} WiderSlots(w: nat, w': nat, n: nat)
    requires w < w' && n > 0
    ensures Slots(w, n) < Slots(w', n)
  {
    if n > 1 { WiderSlots(w, w', n - 1); }
  }

  /** Generated code, which derives the width by the other rule, reads back every column of the emitted row. */
  lemma {:induction false} NativeRowReadsBack(b: seq<byte>, schema: Schema, vals: seq<Value>, i: nat)
    requires Supported(schema) && |b| < TWO31 && i < |schema|
    requires Finished(b, schema, SlotWidth(schema, |b|), vals) && |b| != TWO24
    ensures AddrSpace(|b|) == AddrLength(|b|) && |b| >= BodyStart(schema, AddrSpace(|b|))
    ensures ReadColumn(b, schema, AddrSpace(|b|), i) == AsGot(vals[i])
  {
    WidthsAgree(|b|);
    RowReadsBack(b, schema, vals, i);
  }

  lemma {:induction false} LastStringBounds(schema: Schema, vals: seq<Value>, last: nat)
    requires Fitting(schema, vals) && |vals| == |schema| && BodyOffset(schema, 3, vals, |vals|) == TWO24
    requires last < |schema| && schema[last] == Varchar && NextString(schema, last) == |schema| && StrLen(vals[last]) > 0
    ensures SlotsFit(schema, 3, vals)
  {
    Pow256Values();
    NothingBetween(schema, vals, last);
    forall i | 0 <= i < |schema| && schema[i] == Varchar ensures BodyOffset(schema, 3, vals, i) < Pow256(3) {
      if i <= last {
        StrBytesGrow(vals, i, last);
      } else {
        NextStringComesFirst(schema, last, i);
      }
    }
  }

  lemma {:induction false} NextStringComesFirst(schema: Schema, i: nat, j: nat)
    requires i < j < |schema| && schema[j] == Varchar
    ensures NextString(schema, i) <= j
    decreases j - i
  {
    if i + 1 < j && schema[i + 1] != Varchar { NextStringComesFirst(schema, i + 1, j); }
  }

  lemma {:induction false} CutSlot()
    ensures SlotValue(SlotBytes(3, TWO24)) == 0
  {
    ThreeBytes(TWO24);
  }
}
