/**
 Rows of exactly 2^24 bytes under the generated code itself: slots have three bytes, but a NULL
 string still stores its offset as four bytes, at a multiple of four.  What these stores leave, and
 exactly which rows the generated decoder reads back.
 */
module NativeException {
  import opened Bytes
  import opened RowLayout
  import opened RowImage
  import opened RowWrites
  import opened RowReading
  import opened RowBuilding
  import opened NativeEncoding
  import opened RowViewException

  ghost predicate IsNullString(schema: Schema, vals: seq<Value>, i: nat)
    requires i < |schema| == |vals|
  {
    schema[i] == Varchar && vals[i].Null?
  }

  /** A row of 2^24 bytes, opened by its header, for outputs that fill it exactly. */
  ghost predicate Setting(b: seq<byte>, schema: Schema, outs: seq<Output>) {
    && Supported(schema) && schema != [] && |b| == TWO24
    && Emittable(|b|, schema, 3, outs) && Holds(b, schema, 3, |b|, [])
    && BodyOffset(schema, 3, Values(outs), |outs|) == TWO24
  }

  /** Where the body of column `i` starts, or would start. */
  ghost function Off(schema: Schema, outs: seq<Output>, i: nat): nat
    requires i <= |outs|
  {
    BodyOffset(schema, 3, Values(outs), i)
  }

  /** The stores of the NULL strings among the columns from `lo` to `hi`, and no others. */
  ghost function NullWords(b: seq<byte>, schema: Schema, outs: seq<Output>, lo: nat, hi: nat): (c: seq<byte>)
    requires |b| == TWO24 && Emittable(|b|, schema, 3, outs) && lo <= hi <= |schema|
    ensures |c| == |b|
  {
    if lo == hi then b
    else
      var c := NullWords(b, schema, outs, lo, hi - 1);
      if IsNullString(schema, Values(outs), hi - 1)
      then WriteAt(c, SlotOffset(schema, 4, hi - 1), SlotBytes(4, Off(schema, outs, hi - 1)))
      else c
  }

  // ----- what one column's stores keep -----

  lemma {:induction false} WriteSame(x: seq<byte>, y: seq<byte>, p: nat, d: seq<byte>, lo: nat, hi: nat)
    requires |x| == |y| && p + |d| <= |x| && SameRange(x, y, lo, hi)
    ensures SameRange(WriteAt(x, p, d), WriteAt(y, p, d), lo, hi)
  {
    var u, v := WriteAt(x, p, d), WriteAt(y, p, d);
    forall k | lo <= k < hi ensures u[k] == v[k] {
      assert x[k] == x[lo..hi][k - lo] && y[k] == y[lo..hi][k - lo];
    }
  }

  lemma {:induction false} MarkKeeps(b: seq<byte>, i: nat, on: bool, lo: nat, hi: nat)
    requires HEADER_LENGTH + i / 8 < lo <= hi <= |b|
    ensures SameRange(b, MarkNull(b, i, on), lo, hi)
  {
  }

  lemma {:induction false} BitBeforeSlots(schema: Schema, i: nat)
    requires i < |schema|
    ensures HEADER_LENGTH + i / 8 < HEADER_LENGTH + BitMapSize(|schema|) <= FieldOffset(schema, i)
    ensures FieldOffset(schema, i) + FixedSize(schema[i]) <= StrStart(schema)
  {
    PlaceInside(schema, i);
  }

  /** A fixed column touches nothing from the slots on. */
  lemma {:induction false} FixedKeeps(b: seq<byte>, schema: Schema, i: nat, out: Output, lo: nat, hi: nat)
    requires FixedRoom(|b|, schema, i, out) && StrStart(schema) <= lo <= hi <= |b|
    ensures SameRange(b, EmitFixed(b, schema, i, out), lo, hi)
  {
    BitBeforeSlots(schema, i);
    var marked := if out.nullable then MarkNull(b, i, out.value.Null?) else b;
    if out.nullable { MarkKeeps(b, i, out.value.Null?, lo, hi); }
    var data := if out.value.Null? then out.junk else FixedBytes(out.value);
    WriteKeepsRange(marked, FieldOffset(schema, i), data, lo, hi);
  }

  /** A string that is not NULL touches its slot and its body. */
  lemma {:induction false} StringKeeps(b: seq<byte>, schema: Schema, i: nat, v: Value, body: nat, lo: nat, hi: nat)
    requires StringRoom(|b|, schema, 3, i, v, body) && v.VString? && lo <= hi <= |b|
    requires hi <= SlotOffset(schema, 3, i) || SlotOffset(schema, 3, i) + 3 <= lo
    requires hi <= body || body + |v.s| <= lo
    ensures SameRange(b, EmitString(b, schema, 3, i, v, body), lo, hi)
  {
    var slotted := WriteAt(b, SlotOffset(schema, 3, i), SlotBytes(3, body));
    WriteKeepsRange(b, SlotOffset(schema, 3, i), SlotBytes(3, body), lo, hi);
    WriteKeepsRange(slotted, body, v.s, lo, hi);
  }

  /** A NULL string does to a range from the slots on what its four bytes do. */
  lemma {:induction false} NullFollows(b: seq<byte>, c: seq<byte>, schema: Schema, i: nat, body: nat, lo: nat, hi: nat)
    requires |b| == |c| == TWO24 && StringRoom(|b|, schema, 3, i, Null, body)
    requires StrStart(schema) <= lo && SameRange(b, c, lo, hi)
    ensures SlotOffset(schema, 4, i) + 4 <= |c|
    ensures SameRange(EmitString(b, schema, 3, i, Null, body), WriteAt(c, SlotOffset(schema, 4, i), SlotBytes(4, body)), lo, hi)
  {
    BitBeforeSlots(schema, i);
    MarkKeeps(b, i, true, lo, hi);
    WriteSame(MarkNull(b, i, true), c, SlotOffset(schema, 4, i), SlotBytes(4, body), lo, hi);
  }

  /** One column, seen from a range that its own slot and body do not meet: only a NULL string shows there. */
  lemma {:induction false} ColumnFollows(e: seq<byte>, c: seq<byte>, schema: Schema, outs: seq<Output>, n: nat,
                                         lo: nat, hi: nat)
    requires |e| == |c| == TWO24 && Emittable(|e|, schema, 3, outs) && n < |schema|
    requires StrStart(schema) <= lo && SameRange(e, c, lo, hi)
    requires schema[n] == Varchar && outs[n].value.VString? ==>
               && (hi <= SlotOffset(schema, 3, n) || SlotOffset(schema, 3, n) + 3 <= lo)
               && (hi <= Off(schema, outs, n) || Off(schema, outs, n) + StrLen(outs[n].value) <= lo)
    ensures IsNullString(schema, Values(outs), n) ==>
              && SlotOffset(schema, 4, n) + 4 <= |c|
              && SameRange(EmitColumn(e, schema, 3, outs, n),
                           WriteAt(c, SlotOffset(schema, 4, n), SlotBytes(4, Off(schema, outs, n))), lo, hi)
    ensures !IsNullString(schema, Values(outs), n) ==> SameRange(EmitColumn(e, schema, 3, outs, n), c, lo, hi)
  {
    hide StringRoom;
    hide FixedRoom;
    EmitRoom(|e|, schema, 3, outs, n);
    var after := EmitColumn(e, schema, 3, outs, n);
    hide Emittable;
    hide EmitString;
    hide EmitFixed;
    if schema[n] != Varchar {
      FixedKeeps(e, schema, n, outs[n], lo, hi);
    } else if outs[n].value.Null? {
      NullFollows(e, c, schema, n, Off(schema, outs, n), lo, hi);
    } else {
      assert outs[n].value.VString?;
      StringKeeps(e, schema, n, outs[n].value, Off(schema, outs, n), lo, hi);
    }
  }

  // ----- slots -----

  /** The three-byte slot of string column `m` after the first `n` columns, where it is not just overwritten. */
  ghost predicate SlotFollows(b: seq<byte>, e: seq<byte>, schema: Schema, outs: seq<Output>, n: nat, m: nat)
    requires |b| == |e| == TWO24 && Emittable(|b|, schema, 3, outs) && n <= |schema| && m < |schema|
  {
    if m < n && outs[m].value.VString? then Slice(e, SlotOffset(schema, 3, m), SlotBytes(3, Off(schema, outs, m)))
    else SameRange(e, NullWords(b, schema, outs, 0, n), SlotOffset(schema, 3, m), SlotOffset(schema, 3, m) + 3)
  }

  /** Slots of different strings are apart, bodies come after all slots. */
  lemma {:induction false} SlotsApart(schema: Schema, outs: seq<Output>, m: nat, n: nat)
    requires m < |schema| && n < |schema| && schema[m] == schema[n] == Varchar && m != n && |outs| == |schema|
    ensures SlotOffset(schema, 3, m) + 3 <= SlotOffset(schema, 3, n) || SlotOffset(schema, 3, n) + 3 <= SlotOffset(schema, 3, m)
    ensures SlotOffset(schema, 3, m) + 3 <= BodyStart(schema, 3) <= Off(schema, outs, n)
  {
    if m < n { SlotInside(schema, 3, m, n); } else { SlotInside(schema, 3, n, m); }
    SlotInside(schema, 3, m, |schema|);
  }

  /** The four bytes of a later NULL come after the slot. */
  lemma {:induction false} WordAfterSlot(schema: Schema, m: nat, n: nat)
    requires m < n < |schema| && schema[m] == schema[n] == Varchar
    ensures SlotOffset(schema, 3, m) + 3 <= SlotOffset(schema, 4, n)
  {
    PlacesDisjoint(schema, m, n);
    SlotsIsProduct(3, StrIndex(schema, m));
    SlotsIsProduct(4, StrIndex(schema, n));
  }

  lemma {:induction false} SlotStep(b: seq<byte>, e: seq<byte>, schema: Schema, outs: seq<Output>, n: nat, m: nat)
    requires |b| == |e| == TWO24 && Emittable(|b|, schema, 3, outs) && n < |schema| && m < |schema| && schema[m] == Varchar
    requires SlotFollows(b, e, schema, outs, n, m)
    ensures SlotFollows(b, EmitColumn(e, schema, 3, outs, n), schema, outs, n + 1, m)
  {
    hide EmitColumn;
    hide SlotBytes;
    hide Off;
    var lo := SlotOffset(schema, 3, m);
    SlotInside(schema, 3, m, |schema|);
    if m == n && outs[n].value.VString? {
      OwnSlot(e, schema, outs, n);
    } else if m < n && outs[m].value.VString? {
      SlotStays(e, schema, outs, n, m);
    } else {
      if schema[n] == Varchar && m != n { SlotsApart(schema, outs, m, n); }
      ColumnFollows(e, NullWords(b, schema, outs, 0, n), schema, outs, n, lo, lo + 3);
    }
  }

  lemma {:induction false} OwnSlot(e: seq<byte>, schema: Schema, outs: seq<Output>, n: nat)
    requires |e| == TWO24 && Emittable(|e|, schema, 3, outs) && n < |schema| && schema[n] == Varchar && outs[n].value.VString?
    ensures Slice(EmitColumn(e, schema, 3, outs, n), SlotOffset(schema, 3, n), SlotBytes(3, Off(schema, outs, n)))
    ensures Slice(EmitColumn(e, schema, 3, outs, n), Off(schema, outs, n), outs[n].value.s)
  {
    EmitRoom(|e|, schema, 3, outs, n);
    var slot, body, v := SlotOffset(schema, 3, n), Off(schema, outs, n), outs[n].value;
    hide Emittable;
    var slotted := WriteAt(e, slot, SlotBytes(3, body));
    WriteReads(e, slot, SlotBytes(3, body));
    WriteReads(slotted, body, v.s);
    WriteKeepsRange(slotted, body, v.s, slot, slot + 3);
    SliceKept(slotted, WriteAt(slotted, body, v.s), slot, slot + 3, slot, SlotBytes(3, body));
  }

  lemma {:induction false} SlotStays(e: seq<byte>, schema: Schema, outs: seq<Output>, n: nat, m: nat)
    requires |e| == TWO24 && Emittable(|e|, schema, 3, outs) && m < n < |schema| && schema[m] == Varchar
    requires Slice(e, SlotOffset(schema, 3, m), SlotBytes(3, Off(schema, outs, m)))
    ensures Slice(EmitColumn(e, schema, 3, outs, n), SlotOffset(schema, 3, m), SlotBytes(3, Off(schema, outs, m)))
  {
    hide EmitColumn;
    hide SlotBytes;
    hide Emittable;
    LengthOf(e, schema, outs);
    var lo, after := SlotOffset(schema, 3, m), EmitColumn(e, schema, 3, outs, n);
    SlotInside(schema, 3, m, |schema|);
    if schema[n] == Varchar { SlotsApart(schema, outs, m, n); }
    hide Off;
    ColumnFollows(e, e, schema, outs, n, lo, lo + 3);
    if IsNullString(schema, Values(outs), n) {
      var word, p := SlotBytes(4, Off(schema, outs, n)), SlotOffset(schema, 4, n);
      WordAfterSlot(schema, m, n);
      WriteKeepsRange(e, p, word, lo, lo + 3);
    }
    SliceKept(e, after, lo, lo + 3, lo, SlotBytes(3, Off(schema, outs, m)));
  }

  lemma {:induction false} SlotsFollow(b: seq<byte>, schema: Schema, outs: seq<Output>, n: nat, m: nat)
    requires |b| == TWO24 && Emittable(|b|, schema, 3, outs) && n <= |schema| && m < |schema| && schema[m] == Varchar
    ensures SlotFollows(b, EmitAll(b, schema, 3, outs, n), schema, outs, n, m)
  {
    hide Emittable;
    hide EmitColumn;
    hide SlotFollows;
    if n == 0 {
      NothingFollows(b, schema, outs, m);
    } else {
      SlotsFollow(b, schema, outs, n - 1, m);
      SlotStep(b, EmitAll(b, schema, 3, outs, n - 1), schema, outs, n - 1, m);
    }
  }

  lemma {:induction false} NothingFollows(b: seq<byte>, schema: Schema, outs: seq<Output>, m: nat)
    requires |b| == TWO24 && Emittable(|b|, schema, 3, outs) && m < |schema| && schema[m] == Varchar
    ensures SlotFollows(b, b, schema, outs, 0, m)
  {
    SlotInside(schema, 3, m, |schema|);
  }

  // ----- bodies -----

  /** The body of string column `i` after the first `n` columns: only later NULLs have touched it. */
  ghost predicate BodyFollows(b: seq<byte>, e: seq<byte>, schema: Schema, outs: seq<Output>, n: nat, i: nat)
    requires |b| == |e| == TWO24 && Emittable(|b|, schema, 3, outs) && i < n <= |schema|
    requires schema[i] == Varchar && outs[i].value.VString?
  {
    EmitRoom(|b|, schema, 3, outs, i);
    var off, s := Off(schema, outs, i), outs[i].value.s;
    SameRange(e, NullWords(WriteAt(b, off, s), schema, outs, i + 1, n), off, off + |s|)
  }

  lemma {:induction false} BodyStep(b: seq<byte>, e: seq<byte>, schema: Schema, outs: seq<Output>, n: nat, i: nat)
    requires |b| == |e| == TWO24 && Emittable(|b|, schema, 3, outs) && i < n < |schema|
    requires schema[i] == Varchar && outs[i].value.VString? && BodyFollows(b, e, schema, outs, n, i)
    ensures BodyFollows(b, EmitColumn(e, schema, 3, outs, n), schema, outs, n + 1, i)
  {
    hide EmitColumn;
    EmitRoom(|b|, schema, 3, outs, i);
    var off, s := Off(schema, outs, i), outs[i].value.s;
    BodiesApart(schema, outs, i, n);
    hide Emittable;
    hide Off;
    hide SlotBytes;
    ColumnFollows(e, NullWords(WriteAt(b, off, s), schema, outs, i + 1, n), schema, outs, n, off, off + |s|);
  }

  lemma {:induction false} BodiesApart(schema: Schema, outs: seq<Output>, i: nat, n: nat)
    requires i < n < |schema| == |outs|
    ensures StrStart(schema) <= BodyStart(schema, 3) <= Off(schema, outs, i)
    ensures Off(schema, outs, i) + StrLen(outs[i].value) <= Off(schema, outs, n)
    ensures schema[n] == Varchar ==> SlotOffset(schema, 3, n) + 3 <= BodyStart(schema, 3)
  {
    StrBytesGrow(Values(outs), i + 1, n);
    if schema[n] == Varchar { SlotInside(schema, 3, n, |schema|); }
    Marks(schema, 3, i);
  }

  lemma {:induction false} FirstBody(b: seq<byte>, e: seq<byte>, schema: Schema, outs: seq<Output>, i: nat)
    requires |b| == |e| == TWO24 && Emittable(|b|, schema, 3, outs) && i < |schema|
    requires schema[i] == Varchar && outs[i].value.VString?
    ensures BodyFollows(b, EmitColumn(e, schema, 3, outs, i), schema, outs, i + 1, i)
  {
    EmitRoom(|b|, schema, 3, outs, i);
    OwnSlot(e, schema, outs, i);
    WriteReads(b, Off(schema, outs, i), outs[i].value.s);
  }

  lemma {:induction false} BodiesFollow(b: seq<byte>, schema: Schema, outs: seq<Output>, n: nat, i: nat)
    requires |b| == TWO24 && Emittable(|b|, schema, 3, outs) && i < n <= |schema|
    requires schema[i] == Varchar && outs[i].value.VString?
    ensures BodyFollows(b, EmitAll(b, schema, 3, outs, n), schema, outs, n, i)
    decreases n
  {
    hide Emittable;
    hide EmitColumn;
    hide BodyFollows;
    if n == i + 1 {
      FirstBody(b, EmitAll(b, schema, 3, outs, i), schema, outs, i);
    } else {
      BodiesFollow(b, schema, outs, n - 1, i);
      BodyStep(b, EmitAll(b, schema, 3, outs, n - 1), schema, outs, n - 1, i);
    }
  }

  // ----- header, null bits and fixed fields -----

  /** Everything before the slots is as in any other row. */
  ghost predicate FrontHolds(e: seq<byte>, schema: Schema, outs: seq<Output>, n: nat)
    requires n <= |schema| == |outs|
  {
    && HeaderHolds(e, TWO24) && NullsHold(e, |schema|, Values(outs)[..n])
    && (forall i :: 0 <= i < |outs| ==> Encodable(outs[i].value, schema[i]))
    && forall i {:trigger FrontField(e, schema, outs, i)} :: 0 <= i < n ==> FrontField(e, schema, outs, i)
  }

  ghost predicate FrontField(e: seq<byte>, schema: Schema, outs: seq<Output>, i: nat)
    requires i < |schema| == |outs| && Encodable(outs[i].value, schema[i])
  {
    schema[i] != Varchar && !outs[i].value.Null? ==> Slice(e, FieldOffset(schema, i), FixedBytes(outs[i].value))
  }

  /** What a string column does before the slots: a null bit at most. */
  lemma {:induction false} StringFront(e: seq<byte>, schema: Schema, i: nat, v: Value, body: nat)
    requires |e| == TWO24 && StringRoom(|e|, schema, 3, i, v, body) && StrStart(schema) <= body
    ensures SameRange(if v.Null? then MarkNull(e, i, true) else e, EmitString(e, schema, 3, i, v, body), 0, StrStart(schema))
  {
    Marks(schema, 3, i);
    Marks(schema, 4, i);
    if v.Null? {
      WriteKeepsRange(MarkNull(e, i, true), SlotOffset(schema, 4, i), SlotBytes(4, body), 0, StrStart(schema));
    } else {
      var slotted := WriteAt(e, SlotOffset(schema, 3, i), SlotBytes(3, body));
      WriteKeepsRange(e, SlotOffset(schema, 3, i), SlotBytes(3, body), 0, StrStart(schema));
      WriteKeepsRange(slotted, body, v.s, 0, StrStart(schema));
    }
  }

  /** After one more column its bit is right, its field is in place, and earlier fields stay. */
  lemma {:induction false} FrontStep(e: seq<byte>, schema: Schema, outs: seq<Output>, n: nat)
    requires |e| == TWO24 && Emittable(|e|, schema, 3, outs) && n < |schema| && FrontHolds(e, schema, outs, n)
    ensures FrontHolds(EmitColumn(e, schema, 3, outs, n), schema, outs, n + 1)
  {
    var after, v := EmitColumn(e, schema, 3, outs, n), outs[n].value;
    EmitRoom(|e|, schema, 3, outs, n);
    BitBeforeSlots(schema, n);
    Marks(schema, 3, n);
    var mark := if schema[n] == Varchar then v.Null? else outs[n].nullable;
    var marked := if mark then MarkNull(e, n, v.Null?) else e;
    if schema[n] == Varchar {
      StringFront(e, schema, n, v, Off(schema, outs, n));
      NarrowRange(marked, after, 0, StrStart(schema), 0, FieldOffset(schema, n));
    }
    hide EmitColumn;
    MarkedFront(e, marked, schema, outs, n, mark);
    FrontKept(marked, after, schema, outs, n);
  }

  lemma {:induction false} MarkedFront(e: seq<byte>, marked: seq<byte>, schema: Schema, outs: seq<Output>, n: nat,
                                       mark: bool)
    requires |e| == TWO24 && n < |schema| == |outs| && FrontHolds(e, schema, outs, n)
    requires HEADER_LENGTH + n / 8 < |e| && marked == if mark then MarkNull(e, n, outs[n].value.Null?) else e
    requires outs[n].value.Null? ==> mark
    ensures HeaderHolds(marked, TWO24) && NullsHold(marked, |schema|, Values(outs)[..n + 1])
    ensures forall i {:trigger FrontField(marked, schema, outs, i)} :: 0 <= i < n ==> FrontField(marked, schema, outs, i)
  {
    var vals, v := Values(outs)[..n], outs[n].value;
    assert Values(outs)[..n + 1] == vals + [v];
    NullsGrow(e, |schema|, vals, v);
    if mark {
      forall i | 0 <= i < n ensures FrontField(marked, schema, outs, i) {
        assert FrontField(e, schema, outs, i);
        if schema[i] != Varchar && !outs[i].value.Null? {
          var lo, data := FieldOffset(schema, i), FixedBytes(outs[i].value);
          BitBeforeSlots(schema, i);
          BitBeforeSlots(schema, n);
          PlaceInside(schema, i);
          MarkKeeps(e, n, v.Null?, lo, lo + |data|);
          SliceKept(e, marked, lo, lo + |data|, lo, data);
        }
      }
    }
  }

  lemma {:induction false} FrontKept(marked: seq<byte>, after: seq<byte>, schema: Schema, outs: seq<Output>, n: nat)
    requires n < |schema| == |outs| && HeaderHolds(marked, TWO24) && NullsHold(marked, |schema|, Values(outs)[..n + 1])
    requires forall i :: 0 <= i < |outs| ==> Encodable(outs[i].value, schema[i])
    requires forall i {:trigger FrontField(marked, schema, outs, i)} :: 0 <= i < n ==> FrontField(marked, schema, outs, i)
    requires SameRange(marked, after, 0, FieldOffset(schema, n)) && FrontField(after, schema, outs, n)
    ensures FrontHolds(after, schema, outs, n + 1)
  {
    BitBeforeSlots(schema, n);
    NarrowRange(marked, after, 0, FieldOffset(schema, n), 0, HEADER_LENGTH);
    NarrowRange(marked, after, 0, FieldOffset(schema, n), 0, HEADER_LENGTH + BitMapSize(|schema|));
    NullsKept(marked, after, |schema|, Values(outs)[..n + 1]);
    hide NullsHold;
    hide HeaderHolds;
    hide FrontField;
    forall i | 0 <= i < n + 1 ensures FrontField(after, schema, outs, i) {
      if i < n {
        FrontFieldKept(marked, after, schema, outs, n, i);
      }
    }
  }

  lemma {:induction false} FrontFieldKept(marked: seq<byte>, after: seq<byte>, schema: Schema, outs: seq<Output>, n: nat,
                                          i: nat)
    requires i < n < |schema| == |outs| && Encodable(outs[i].value, schema[i]) && FrontField(marked, schema, outs, i)
    requires SameRange(marked, after, 0, FieldOffset(schema, n))
    ensures FrontField(after, schema, outs, i)
  {
    if schema[i] != Varchar && !outs[i].value.Null? {
      PlacesDisjoint(schema, i, n);
      SliceKept(marked, after, 0, FieldOffset(schema, n), FieldOffset(schema, i), FixedBytes(outs[i].value));
    }
  }

  lemma {:induction false} FrontFollows(b: seq<byte>, schema: Schema, outs: seq<Output>, n: nat)
    requires Setting(b, schema, outs) && n <= |schema|
    ensures FrontHolds(EmitAll(b, schema, 3, outs, n), schema, outs, n)
  {
    hide EmitColumn;
    if n == 0 {
      assert Values(outs)[..0] == [];
    } else {
      FrontFollows(b, schema, outs, n - 1);
      hide FrontHolds;
      FrontStep(EmitAll(b, schema, 3, outs, n - 1), schema, outs, n - 1);
    }
  }

  // ----- which rows the generated decoder reads back -----

  /** The row that the emitted code leaves. */
  ghost function Emitted(b: seq<byte>, schema: Schema, outs: seq<Output>): (e: seq<byte>)
    requires Setting(b, schema, outs)
    ensures |e| == TWO24
  {
    EmitAll(b, schema, 3, outs, |schema|)
  }

  /** The three bytes where the decoder looks for the start of NULL string `m` spell it, after all NULLs have been stored. */
  ghost predicate SlotSurvives(b: seq<byte>, schema: Schema, outs: seq<Output>, m: nat)
    requires Setting(b, schema, outs) && m < |schema| && schema[m] == Varchar
  {
    SlotInside(schema, 3, m, |schema|);
    WordAt(NullWords(b, schema, outs, 0, |schema|), schema, 3, m) == Off(schema, outs, m)
  }

  /** The NULLs after string `i` leave its body as it is. */
  ghost predicate BodySurvives(b: seq<byte>, schema: Schema, outs: seq<Output>, i: nat)
    requires Setting(b, schema, outs) && i < |schema| && schema[i] == Varchar && outs[i].value.VString?
  {
    EmitRoom(|b|, schema, 3, outs, i);
    var off, s := Off(schema, outs, i), outs[i].value.s;
    Slice(NullWords(WriteAt(b, off, s), schema, outs, i + 1, |schema|), off, s)
  }

  ghost predicate StringSurvives(b: seq<byte>, schema: Schema, outs: seq<Output>, i: nat)
    requires Setting(b, schema, outs) && i < |schema| && schema[i] == Varchar && outs[i].value.VString?
  {
    var m := NextString(schema, i);
    BodySurvives(b, schema, outs, i) && (m < |schema| && outs[m].value.Null? ==> SlotSurvives(b, schema, outs, m))
  }

  ghost predicate AllSurvive(b: seq<byte>, schema: Schema, outs: seq<Output>)
    requires Setting(b, schema, outs)
  {
    forall i {:trigger outs[i]} :: 0 <= i < |schema| && schema[i] == Varchar && outs[i].value.VString? ==>
      StringSurvives(b, schema, outs, i)
  }

  ghost predicate ReadsColumn(b: seq<byte>, schema: Schema, outs: seq<Output>, i: nat)
    requires Setting(b, schema, outs) && i < |schema|
  {
    Marks(schema, 3, i);
    ReadColumn(Emitted(b, schema, outs), schema, 3, i) == AsGot(outs[i].value)
  }

  /** The word of a string that is not NULL: its start, or zero where that does not fit three bytes. */
  lemma {:induction false} OwnWordOf(b: seq<byte>, schema: Schema, outs: seq<Output>, i: nat)
    requires Setting(b, schema, outs) && i < |schema| && schema[i] == Varchar && outs[i].value.VString?
    ensures SlotOffset(schema, 3, i) + 3 <= TWO24 && Off(schema, outs, i) <= TWO24
    ensures WordAt(Emitted(b, schema, outs), schema, 3, i) == if Off(schema, outs, i) < TWO24 then Off(schema, outs, i) else 0
  {
    hide Emittable;
    hide Holds;
    hide EmitAll;
    hide NullWords;
    hide SlotBytes;
    LengthOf(b, schema, outs);
    SlotInside(schema, 3, i, |schema|);
    StrBytesGrow(Values(outs), i, |outs|);
    SlotsFollow(b, schema, outs, |schema|, i);
    Pow256Values();
    if Off(schema, outs, i) < TWO24 { SlotRoundTrip(3, Off(schema, outs, i)); } else { CutSlot(); }
  }

  /** The word of a NULL string: what the stores of NULL strings have left there. */
  lemma {:induction false} NullWordOf(b: seq<byte>, schema: Schema, outs: seq<Output>, m: nat)
    requires Setting(b, schema, outs) && m < |schema| && schema[m] == Varchar && outs[m].value.Null?
    ensures SlotOffset(schema, 3, m) + 3 <= TWO24
    ensures WordAt(Emitted(b, schema, outs), schema, 3, m) == WordAt(NullWords(b, schema, outs, 0, |schema|), schema, 3, m)
  {
    hide Emittable;
    hide Holds;
    hide EmitAll;
    hide NullWords;
    LengthOf(b, schema, outs);
    SlotInside(schema, 3, m, |schema|);
    SlotsFollow(b, schema, outs, |schema|, m);
  }

  lemma {:induction false} FrontOf(b: seq<byte>, schema: Schema, outs: seq<Output>, i: nat)
    requires Setting(b, schema, outs) && i < |schema|
    ensures var e := Emitted(b, schema, outs);
            && HeaderHolds(e, TWO24) && |e| >= BodyStart(schema, 3) && HEADER_LENGTH + i / 8 < |e|
            && (NullBit(e, i) <==> outs[i].value.Null?)
            && Encodable(outs[i].value, schema[i]) && FrontField(e, schema, outs, i)
  {
    FrontFollows(b, schema, outs, |schema|);
    assert Values(outs)[..|schema|] == Values(outs);
    Marks(schema, 3, i);
  }

  /** Columns that are fixed or NULL always read back. */
  lemma {:induction false} OthersRead(b: seq<byte>, schema: Schema, outs: seq<Output>, i: nat)
    requires Setting(b, schema, outs) && i < |schema| && !outs[i].value.VString?
    ensures ReadsColumn(b, schema, outs, i)
  {
    hide Emitted;
    FrontOf(b, schema, outs, i);
    Marks(schema, 3, i);
    var e := Emitted(b, schema, outs);
    if !outs[i].value.Null? { FixedReadsBack(e, schema, i, outs[i].value); }
  }

  /** Where the next string starts, or the row ends, this body ends. */
  lemma {:induction false} EndOfBody(b: seq<byte>, schema: Schema, outs: seq<Output>, i: nat)
    requires Setting(b, schema, outs) && i < |schema| && schema[i] == Varchar
    ensures var m := NextString(schema, i);
            Off(schema, outs, i) + StrLen(outs[i].value) == if m < |schema| then Off(schema, outs, m) else TWO24
  {
    OutputsFit(b, schema, outs);
    hide Setting;
    NextSlotIsNextString(schema, Values(outs), i);
  }

  lemma {:induction false} OutputsFit(b: seq<byte>, schema: Schema, outs: seq<Output>)
    requires Setting(b, schema, outs)
    ensures |outs| == |schema| && Fitting(schema, Values(outs)) && BodyOffset(schema, 3, Values(outs), |outs|) == TWO24
  {
  }

  /** A string whose start fits three bytes reads back iff its end is found and its body survives. */
  lemma {:induction false} StringReads(b: seq<byte>, schema: Schema, outs: seq<Output>, i: nat)
    requires Setting(b, schema, outs) && i < |schema| && schema[i] == Varchar && outs[i].value.VString?
    ensures var e, m, off, s := Emitted(b, schema, outs), NextString(schema, i), Off(schema, outs, i), outs[i].value.s;
            && (m < |schema| ==> SlotOffset(schema, 3, m) + 3 <= TWO24)
            && var start, end := if off < TWO24 then off else 0, if m < |schema| then WordAt(e, schema, 3, m) else TWO24;
               ReadsColumn(b, schema, outs, i) <==> end == start + |s| && Slice(e, start, s)
  {
    hide Emitted;
    FrontOf(b, schema, outs, i);
    OwnWordOf(b, schema, outs, i);
    StringReadsIff(Emitted(b, schema, outs), schema, 3, i, outs[i].value.s);
    EndIsNextWord(Emitted(b, schema, outs), schema, 3, i, TWO24);
  }

  lemma {:induction false} BodyReads(b: seq<byte>, schema: Schema, outs: seq<Output>, i: nat)
    requires Setting(b, schema, outs) && i < |schema| && schema[i] == Varchar && outs[i].value.VString?
    ensures Slice(Emitted(b, schema, outs), Off(schema, outs, i), outs[i].value.s) <==> BodySurvives(b, schema, outs, i)
  {
    EmitRoom(|b|, schema, 3, outs, i);
    BodiesFollow(b, schema, outs, |schema|, i);
  }

  /** When all starts fit three bytes, each string reads back iff it survives. */
  lemma {:induction false} ReadsIffSurvives(b: seq<byte>, schema: Schema, outs: seq<Output>, i: nat)
    requires Setting(b, schema, outs) && i < |schema| && schema[i] == Varchar && outs[i].value.VString?
    requires forall j :: 0 <= j < |schema| && schema[j] == Varchar ==> Off(schema, outs, j) < TWO24
    ensures ReadsColumn(b, schema, outs, i) <==> StringSurvives(b, schema, outs, i)
  {
    hide Setting;
    hide Off;
    hide ReadsColumn;
    hide BodySurvives;
    hide WordAt;
    StringReads(b, schema, outs, i);
    BodyReads(b, schema, outs, i);
    EndOfBody(b, schema, outs, i);
    var m := NextString(schema, i);
    if m < |schema| {
      GoodValue(b, schema, outs, m);
      if outs[m].value.Null? { NullWordOf(b, schema, outs, m); } else { OwnWordOf(b, schema, outs, m); }
    }
  }

  lemma {:induction false} GoodValue(b: seq<byte>, schema: Schema, outs: seq<Output>, m: nat)
    requires Setting(b, schema, outs) && m < |schema| && schema[m] == Varchar
    ensures |outs| == |schema| && (outs[m].value.Null? || outs[m].value.VString?)
  {
  }

  /**
   The row view on the same row: fixed columns and NULLs read back, and a string does if and only if
   the four-byte words where it looks for its start and its end enclose as many bytes and these spell it.
   */
  lemma {:induction false} RowViewWithNulls(b: seq<byte>, schema: Schema, outs: seq<Output>, i: nat)
    requires Setting(b, schema, outs) && i < |schema| && BodyStart(schema, 4) <= TWO24
    ensures var e, m := Emitted(b, schema, outs), NextString(schema, i);
            && (!outs[i].value.VString? ==> ReadColumn(e, schema, 4, i) == AsGot(outs[i].value))
            && (outs[i].value.VString? ==>
                  && SlotOffset(schema, 4, i) + 4 <= TWO24 && (m < |schema| ==> SlotOffset(schema, 4, m) + 4 <= TWO24)
                  && var start, end := WordAt(e, schema, 4, i), if m < |schema| then WordAt(e, schema, 4, m) else TWO24;
                     ReadColumn(e, schema, 4, i) == AsGot(outs[i].value) <==>
                     end == start + |outs[i].value.s| && Slice(e, start, outs[i].value.s))
  {
    hide Emitted;
    hide FixedBytes;
    FrontOf(b, schema, outs, i);
    Marks(schema, 4, i);
    var e := Emitted(b, schema, outs);
    hide Setting;
    hide WordAt;
    hide FieldOffset;
    hide Slots;
    if outs[i].value.VString? {
      StringReadsIff(e, schema, 4, i, outs[i].value.s);
      EndIsNextWord(e, schema, 4, i, TWO24);
    } else if !outs[i].value.Null? {
      FixedReadsBack(e, schema, i, outs[i].value);
    }
  }

  // ----- the last string -----

  ghost predicate IsLastString(schema: Schema, last: nat) {
    last < |schema| && schema[last] == Varchar && NextString(schema, last) == |schema|
  }

  lemma {:induction false} LastNonEmpty(vals: seq<Value>, n: nat) returns (k: nat)
    requires n <= |vals| && StrBytes(vals, n) > 0
    ensures k < n && StrLen(vals[k]) > 0 && StrBytes(vals, k + 1) == StrBytes(vals, n)
  {
    if StrLen(vals[n - 1]) > 0 { k := n - 1; } else { k := LastNonEmpty(vals, n - 1); }
  }

  /** A NULL at the end needs room for its four bytes, so that there are bodies. */
  lemma {:induction false} NullAtTheEnd(b: seq<byte>, schema: Schema, outs: seq<Output>, last: nat)
    requires Setting(b, schema, outs) && IsLastString(schema, last) && outs[last].value.Null?
    ensures StrBytes(Values(outs), |outs|) > 0
  {
    SlotOfNext(schema, last);
    NextIndex(schema, last);
    SlotsIsProduct(4, StrIndex(schema, last));
    SlotsIsProduct(3, StrCount(schema));
    assert IsNullString(schema, Values(outs), last);
  }

  /** If the last string is empty or NULL, some string does not read back. */
  lemma {:induction false} EmptyEndMisread(b: seq<byte>, schema: Schema, outs: seq<Output>, last: nat) returns (i: nat)
    requires Setting(b, schema, outs) && IsLastString(schema, last) && StrLen(outs[last].value) == 0
    ensures i < |schema| && !ReadsColumn(b, schema, outs, i)
  {
    hide ReadsColumn;
    hide WordAt;
    GoodValue(b, schema, outs, last);
    if outs[last].value.Null? {
      i := BeforeTheEnd(b, schema, outs, last);
      StringReads(b, schema, outs, i);
      EndWordBound(b, schema, outs, i);
    } else {
      i := last;
      StringReads(b, schema, outs, i);
      EndOfBody(b, schema, outs, i);
    }
  }

  lemma {:induction false} BeforeTheEnd(b: seq<byte>, schema: Schema, outs: seq<Output>, last: nat) returns (i: nat)
    requires Setting(b, schema, outs) && IsLastString(schema, last) && outs[last].value.Null?
    ensures i < |schema| && schema[i] == Varchar && outs[i].value.VString? && NextString(schema, i) < |schema|
    ensures |outs[i].value.s| > 0 && Off(schema, outs, i) + |outs[i].value.s| == TWO24
  {
    NullAtTheEnd(b, schema, outs, last);
    i := LastNonEmpty(Values(outs), |outs|);
    assert Encodable(outs[i].value, schema[i]);
    if i > last { NextStringComesFirst(schema, last, i); } else { NextStringComesFirst(schema, i, last); }
  }

  lemma {:induction false} EndWordBound(b: seq<byte>, schema: Schema, outs: seq<Output>, i: nat)
    requires Setting(b, schema, outs) && i < |schema| && NextString(schema, i) < |schema|
    ensures var m := NextString(schema, i);
            SlotOffset(schema, 3, m) + 3 <= TWO24 && WordAt(Emitted(b, schema, outs), schema, 3, m) < TWO24
  {
    var m := NextString(schema, i);
    SlotInside(schema, 3, m, |schema|);
  }

  lemma {:induction false} StartsFit(b: seq<byte>, schema: Schema, outs: seq<Output>, last: nat, j: nat)
    requires Setting(b, schema, outs) && IsLastString(schema, last) && StrLen(outs[last].value) > 0
    requires j < |schema| && schema[j] == Varchar
    ensures Off(schema, outs, j) < TWO24
  {
    LastStringBounds(schema, Values(outs), last);
    Pow256Values();
  }

  /**
   The generated decoder reads back a whole row of 2^24 bytes, NULL strings or not, if and only if its
   last string is not empty and not NULL, no body is hit by the four bytes of a later NULL, and in
   front of a NULL string the end of the string before it happens to be spelled by those bytes.
   */
  lemma {:induction false} NativeRowAtTheException(b: seq<byte>, schema: Schema, outs: seq<Output>, last: nat)
    requires Setting(b, schema, outs) && IsLastString(schema, last)
    ensures (forall i :: 0 <= i < |schema| ==> ReadsColumn(b, schema, outs, i))
       <==> StrLen(outs[last].value) > 0 && AllSurvive(b, schema, outs)
  {
    hide ReadsColumn;
    hide StringSurvives;
    if StrLen(outs[last].value) > 0 {
      forall j | 0 <= j < |schema| && schema[j] == Varchar ensures Off(schema, outs, j) < TWO24 {
        StartsFit(b, schema, outs, last, j);
      }
      forall i | 0 <= i < |schema| && !(schema[i] == Varchar && outs[i].value.VString?) ensures ReadsColumn(b, schema, outs, i) {
        assert Encodable(outs[i].value, schema[i]);
        OthersRead(b, schema, outs, i);
      }
      forall i | 0 <= i < |schema| && schema[i] == Varchar && outs[i].value.VString?
        ensures ReadsColumn(b, schema, outs, i) <==> StringSurvives(b, schema, outs, i)
      {
        ReadsIffSurvives(b, schema, outs, i);
      }
    } else {
      var i := EmptyEndMisread(b, schema, outs, last);
    }
  }

  // ----- the damage, byte by byte -----

  /** Where the four bytes of NULL string `c` go. */
  ghost function WordOffset(schema: Schema, c: nat): nat
    requires c < |schema|
  {
    SlotOffset(schema, 4, c)
  }

  lemma {:induction false} WordsApart(schema: Schema, c: nat, d: nat)
    requires c < d < |schema| && schema[c] == Varchar
    ensures WordOffset(schema, c) + 4 <= WordOffset(schema, d)
  {
    SlotInside(schema, 4, c, d);
  }

  /** The four bytes of a NULL stay as they were stored, whatever NULLs follow. */
  lemma {:induction false} WordStays(b: seq<byte>, schema: Schema, outs: seq<Output>, lo: nat, hi: nat, c: nat)
    requires |b| == TWO24 && Emittable(|b|, schema, 3, outs) && lo <= c < hi <= |schema| && IsNullString(schema, Values(outs), c)
    ensures Slice(NullWords(b, schema, outs, lo, hi), WordOffset(schema, c), SlotBytes(4, Off(schema, outs, c)))
    decreases hi
  {
    var before, word := NullWords(b, schema, outs, lo, hi - 1), SlotBytes(4, Off(schema, outs, c));
    if hi - 1 == c {
      WriteReads(before, WordOffset(schema, c), word);
    } else {
      WordStays(b, schema, outs, lo, hi - 1, c);
      if IsNullString(schema, Values(outs), hi - 1) {
        WordsApart(schema, c, hi - 1);
        var p, other := WordOffset(schema, hi - 1), SlotBytes(4, Off(schema, outs, hi - 1));
        WriteKeepsRange(before, p, other, WordOffset(schema, c), WordOffset(schema, c) + 4);
        SliceKept(before, WriteAt(before, p, other), WordOffset(schema, c), WordOffset(schema, c) + 4, WordOffset(schema, c), word);
      }
    }
  }

  /** Byte `p` belongs to the four bytes of NULL string `c`, which have the value `x` there. */
  ghost predicate HitBy(schema: Schema, outs: seq<Output>, c: nat, p: nat, x: byte)
    requires c < |schema| == |outs|
  {
    && IsNullString(schema, Values(outs), c) && WordOffset(schema, c) <= p < WordOffset(schema, c) + 4
    && SlotBytes(4, Off(schema, outs, c))[p - WordOffset(schema, c)] == x
  }

  /** Every byte is as it was, or belongs to some NULL. */
  lemma {:induction false} HitOrKept(b: seq<byte>, schema: Schema, outs: seq<Output>, lo: nat, hi: nat, p: nat)
    requires |b| == TWO24 && Emittable(|b|, schema, 3, outs) && lo <= hi <= |schema| && p < TWO24
    ensures var x := NullWords(b, schema, outs, lo, hi)[p];
            x == b[p] || exists c :: lo <= c < hi && HitBy(schema, outs, c, p, x)
    decreases hi
  {
    hide Emittable;
    LengthOf(b, schema, outs);
    if lo < hi {
      HitOrKept(b, schema, outs, lo, hi - 1, p);
      HitStep(b, schema, outs, lo, hi, p);
      hide NullWords;
      hide HitBy;
      var before, x := NullWords(b, schema, outs, lo, hi - 1)[p], NullWords(b, schema, outs, lo, hi)[p];
      if x == before && x != b[p] {
        var c :| lo <= c < hi - 1 && HitBy(schema, outs, c, p, x);
      }
    }
  }

  lemma {:induction false} HitStep(b: seq<byte>, schema: Schema, outs: seq<Output>, lo: nat, hi: nat, p: nat)
    requires |b| == TWO24 && Emittable(|b|, schema, 3, outs) && lo < hi <= |schema| && p < TWO24
    ensures var x := NullWords(b, schema, outs, lo, hi)[p];
            x == NullWords(b, schema, outs, lo, hi - 1)[p] || HitBy(schema, outs, hi - 1, p, x)
  {
    var before, c := NullWords(b, schema, outs, lo, hi - 1), hi - 1;
    if IsNullString(schema, Values(outs), c) {
      hide WriteAt;
      hide SlotBytes;
    }
  }

  /**
   A body survives if and only if every byte of a later NULL that falls into it is the byte that was
   there: a condition on the values alone.
   */
  lemma {:induction false} BodySurvivesIff(b: seq<byte>, schema: Schema, outs: seq<Output>, i: nat)
    requires Setting(b, schema, outs) && i < |schema| && schema[i] == Varchar && outs[i].value.VString?
    ensures var off, s := Off(schema, outs, i), outs[i].value.s;
            BodySurvives(b, schema, outs, i) <==>
            forall c, p, x {:trigger HitBy(schema, outs, c, p, x)} ::
              i < c < |schema| && off <= p < off + |s| && HitBy(schema, outs, c, p, x) ==> s[p - off] == x
  {
    hide HitBy;
    hide NullWords;
    hide WriteAt;
    hide Emittable;
    hide Holds;
    hide Off;
    LengthOf(b, schema, outs);
    EmitRoom(|b|, schema, 3, outs, i);
    OffIs(schema, outs, i);
    var off, s := Off(schema, outs, i), outs[i].value.s;
    WriteReads(b, off, s);
    OverlayKeeps(WriteAt(b, off, s), schema, outs, i + 1, off, s);
  }

  lemma {:induction false} OverlayKeeps(b: seq<byte>, schema: Schema, outs: seq<Output>, lo: nat, off: nat, s: seq<byte>)
    requires |b| == TWO24 && Emittable(|b|, schema, 3, outs) && lo <= |schema| && Slice(b, off, s)
    ensures Slice(NullWords(b, schema, outs, lo, |schema|), off, s) <==>
            forall c, p, x {:trigger HitBy(schema, outs, c, p, x)} ::
              lo <= c < |schema| && off <= p < off + |s| && HitBy(schema, outs, c, p, x) ==> s[p - off] == x
  {
    hide HitBy;
    hide NullWords;
    hide Emittable;
    var n, e := |schema|, NullWords(b, schema, outs, lo, |schema|);
    LengthOf(b, schema, outs);
    if Slice(e, off, s) {
      forall c, p, x | lo <= c < n && off <= p < off + |s| && HitBy(schema, outs, c, p, x) ensures s[p - off] == x {
        HitShows(b, schema, outs, lo, c, p, x);
        assert e[p] == e[off..off + |s|][p - off];
      }
    }
    if forall c, p, x {:trigger HitBy(schema, outs, c, p, x)} ::
        lo <= c < n && off <= p < off + |s| && HitBy(schema, outs, c, p, x) ==> s[p - off] == x {
      forall t | 0 <= t < |s| ensures e[off..off + |s|][t] == s[t] {
        HitOrKept(b, schema, outs, lo, n, off + t);
        assert b[off + t] == b[off..off + |s|][t];
      }
    }
  }

  lemma {:induction false} OffIs(schema: Schema, outs: seq<Output>, i: nat)
    requires i <= |outs|
    ensures Off(schema, outs, i) == BodyOffset(schema, 3, Values(outs), i)
  {
  }

  lemma {:induction false} LengthOf(b: seq<byte>, schema: Schema, outs: seq<Output>)
    requires Emittable(|b|, schema, 3, outs)
    ensures |outs| == |schema|
  {
  }

  lemma {:induction false} HitShows(b: seq<byte>, schema: Schema, outs: seq<Output>, lo: nat, c: nat, p: nat, x: byte)
    requires |b| == TWO24 && Emittable(|b|, schema, 3, outs) && lo <= c < |schema| && p < TWO24 && HitBy(schema, outs, c, p, x)
    ensures NullWords(b, schema, outs, lo, |schema|)[p] == x
  {
    hide NullWords;
    hide SlotBytes;
    WordStays(b, schema, outs, lo, |schema|, c);
    var e, q := NullWords(b, schema, outs, lo, |schema|), WordOffset(schema, c);
    assert e[p] == e[q..q + 4][p - q];
  }

  /** Byte `p` comes to be `x`: every NULL that hits it stores `x` there, or none hits it and `x` was in the memory given. */
  ghost predicate ByteBecomes(b: seq<byte>, schema: Schema, outs: seq<Output>, p: nat, x: byte)
    requires |schema| == |outs| && p < |b|
  {
    && (forall c, y {:trigger HitBy(schema, outs, c, p, y)} :: 0 <= c < |schema| && HitBy(schema, outs, c, p, y) ==> y == x)
    && (b[p] == x || exists c :: 0 <= c < |schema| && HitBy(schema, outs, c, p, x))
  }

  lemma {:induction false} ByteAfterNulls(b: seq<byte>, schema: Schema, outs: seq<Output>, p: nat, x: byte)
    requires |b| == TWO24 && Emittable(|b|, schema, 3, outs) && p < TWO24
    ensures |schema| == |outs| && (NullWords(b, schema, outs, 0, |schema|)[p] == x <==> ByteBecomes(b, schema, outs, p, x))
  {
    hide HitBy;
    hide NullWords;
    hide Emittable;
    LengthOf(b, schema, outs);
    HitOrKept(b, schema, outs, 0, |schema|, p);
    forall c, y | 0 <= c < |schema| && HitBy(schema, outs, c, p, y) ensures NullWords(b, schema, outs, 0, |schema|)[p] == y {
      HitShows(b, schema, outs, 0, c, p, y);
    }
  }

  lemma {:induction false} ThreeByteValue(s: seq<byte>, t: seq<byte>)
    requires |s| == 3 && |t| == 3
    ensures SlotValue(s) < TWO24 && (SlotValue(s) == SlotValue(t) <==> s[0] == t[0] && s[1] == t[1] && s[2] == t[2])
  {
  }

  /**
   The start of a NULL string is spelled in its slot if and only if it fits three bytes and each of the
   three comes to be the right one: a condition on the values and on the memory given.
   */
  lemma {:induction false} SlotSurvivesIff(b: seq<byte>, schema: Schema, outs: seq<Output>, m: nat)
    requires Setting(b, schema, outs) && m < |schema| && schema[m] == Varchar
    ensures var off, lo := Off(schema, outs, m), SlotOffset(schema, 3, m);
            && |schema| == |outs| && lo + 3 <= TWO24
            && (SlotSurvives(b, schema, outs, m) <==>
                off < TWO24 && forall t :: 0 <= t < 3 ==> ByteBecomes(b, schema, outs, lo + t, SlotBytes(3, off)[t]))
  {
    hide NullWords;
    hide Emittable;
    hide Holds;
    hide Off;
    hide SlotBytes;
    hide SlotValue;
    hide ByteBecomes;
    LengthOf(b, schema, outs);
    SlotInside(schema, 3, m, |schema|);
    var off, lo, e := Off(schema, outs, m), SlotOffset(schema, 3, m), NullWords(b, schema, outs, 0, |schema|);
    var word, right := e[lo..lo + 3], SlotBytes(3, off);
    ThreeByteValue(word, right);
    if off < TWO24 {
      Pow256Values();
      SlotRoundTrip(3, off);
      forall t | 0 <= t < 3 ensures word[t] == right[t] <==> ByteBecomes(b, schema, outs, lo + t, right[t]) {
        ByteAfterNulls(b, schema, outs, lo + t, right[t]);
      }
    }
  }

  /** Two strings, the second one NULL: two bytes of the first are overwritten, one of the second slot is never written. */
  lemma {:induction false} NullDamagesTheBody(b: seq<byte>, s: seq<byte>)
    requires Setting(b, [Varchar, Varchar], [Output(VString(s), false, []), Output(Null, true, [])])
    ensures var schema, outs := [Varchar, Varchar], [Output(VString(s), false, []), Output(Null, true, [])];
            var e := Emitted(b, schema, outs);
            && e[13] == 0 && e[14] == 1 && e[10] == b[10] && !ReadsColumn(b, schema, outs, 0)
  {
    var schema, outs := [Varchar, Varchar], [Output(VString(s), false, []), Output(Null, true, [])];
    var e := Emitted(b, schema, outs);
    TwoSlots(schema, outs, s);
    EmitRoom(|b|, schema, 3, outs, 0);
    BodiesFollow(b, schema, outs, 2, 0);
    var start := WriteAt(b, 13, s);
    WordStays(start, schema, outs, 1, 2, 1);
    var f := NullWords(start, schema, outs, 1, 2);
    LastWord(f);
    assert e[13] == e[13..13 + |s|][0] == f[13..13 + |s|][0] && e[14] == e[13..13 + |s|][1] == f[13..13 + |s|][1];
    SlotsFollow(b, schema, outs, 2, 1);
    var g := NullWords(b, schema, outs, 0, 2);
    HitOrKept(b, schema, outs, 0, 2, 10);
    assert e[10] == e[10..13][0] == g[10..13][0];
    StringReads(b, schema, outs, 0);
    EndWordBound(b, schema, outs, 0);
  }

  lemma {:induction false} LastWord(f: seq<byte>)
    requires |f| == TWO24 && Slice(f, 11, SlotBytes(4, TWO24))
    ensures f[13] == 0 && f[14] == 1
  {
    var word := SlotBytes(4, TWO24);
    Pow256Values();
    LERoundTrip(TWO24, 4);
    FourBytes(word);
    assert f[13] == f[11..15][2] && f[14] == f[11..15][3];
  }

  lemma {:induction false} TwoSlots(schema: Schema, outs: seq<Output>, s: seq<byte>)
    requires schema == [Varchar, Varchar] && outs == [Output(VString(s), false, []), Output(Null, true, [])]
    requires BodyOffset(schema, 3, Values(outs), |outs|) == TWO24
    ensures StrIndex(schema, 0) == 0 && StrIndex(schema, 1) == 1 && StrCount(schema) == 2 && StrStart(schema) == 7
    ensures SlotOffset(schema, 3, 1) == 10 && WordOffset(schema, 0) == 7 && WordOffset(schema, 1) == 11
    ensures Off(schema, outs, 0) == 13 && Off(schema, outs, 1) == TWO24 && |s| == TWO24 - 13
    ensures NextString(schema, 0) == 1 && NextString(schema, 1) == 2
  {
    assert FieldOffset(schema, 0) == 7 && FieldOffset(schema, 1) == 7 && FieldOffset(schema, 2) == 7;
    SlotsIsProduct(3, 0);
    SlotsIsProduct(3, 1);
    SlotsIsProduct(3, 2);
    SlotsIsProduct(4, 0);
    SlotsIsProduct(4, 1);
    assert StrBytes(Values(outs), 1) == |s| && StrBytes(Values(outs), 2) == |s|;
  }
}
