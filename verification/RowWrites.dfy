/**
 One column at a time: the stores that put the next column into a row, and the proof that each
 leaves the header and all earlier columns in place.
 */
module RowWrites {
  import opened Bytes
  import opened RowLayout
  import opened RowImage

  // ----- earlier columns only use bytes before these marks -----

  function BodyStart(schema: Schema, w: nat): nat { StrStart(schema) + Slots(w, StrCount(schema)) }

  ghost predicate SameRange(b: seq<byte>, c: seq<byte>, lo: nat, hi: nat) {
    lo <= hi <= |b| && hi <= |c| && b[lo..hi] == c[lo..hi]
  }

  /** Buffers that agree wherever the first `n` columns, with bodies up to `body`, have been written. */
  ghost predicate SameUsed(b: seq<byte>, c: seq<byte>, schema: Schema, w: nat, n: nat, body: nat)
    requires n <= |schema|
  {
    && SameRange(b, c, HEADER_LENGTH + BitMapSize(|schema|), FieldOffset(schema, n))
    && SameRange(b, c, StrStart(schema), SlotOffset(schema, w, n))
    && SameRange(b, c, BodyStart(schema, w), body)
  }

  lemma {:induction false} SubSlice(b: seq<byte>, lo: nat, hi: nat, x: nat, y: nat)
    requires lo <= x <= y <= hi <= |b|
    ensures b[lo..hi][x - lo..y - lo] == b[x..y]
  {
    var whole, part := b[lo..hi][x - lo..y - lo], b[x..y];
    assert |whole| == |part|;
    forall k | 0 <= k < |part| ensures whole[k] == part[k] {
      assert whole[k] == b[lo..hi][x - lo + k] == b[x + k];
    }
  }

  lemma {:induction false} SliceKept(b: seq<byte>, c: seq<byte>, lo: nat, hi: nat, off: nat, data: seq<byte>)
    requires SameRange(b, c, lo, hi) && Slice(b, off, data) && lo <= off && off + |data| <= hi
    ensures Slice(c, off, data)
  {
    SubSlice(b, lo, hi, off, off + |data|);
    SubSlice(c, lo, hi, off, off + |data|);
  }

  /** The slot of string column `i` lies among the slots, after those of earlier columns. */
  lemma {:induction false} SlotInside(schema: Schema, w: nat, i: nat, n: nat)
    requires i < n <= |schema| && schema[i] == Varchar
    ensures StrStart(schema) <= SlotOffset(schema, w, i)
    ensures SlotOffset(schema, w, i) + w <= SlotOffset(schema, w, n) <= BodyStart(schema, w)
  {
    FieldsGrow(schema, i + 1, n);
    FieldsGrow(schema, n, |schema|);
    SlotsGrow(w, StrIndex(schema, i) + 1, StrIndex(schema, n));
    SlotsGrow(w, StrIndex(schema, n), StrCount(schema));
  }

  lemma {:induction false} StrBytesGrow(vals: seq<Value>, i: nat, j: nat)
    requires i <= j <= |vals|
    ensures StrBytes(vals, i) <= StrBytes(vals, j)
    decreases j
  {
    if i < j { StrBytesGrow(vals, i, j - 1); }
  }

  lemma {:induction false} StrBytesOfPrefix(vals: seq<Value>, more: seq<Value>, i: nat)
    requires i <= |vals|
    ensures StrBytes(vals + more, i) == StrBytes(vals, i)
  {
    if i > 0 { StrBytesOfPrefix(vals, more, i - 1); }
  }

  lemma {:induction false} StringKept(b: seq<byte>, c: seq<byte>, schema: Schema, w: nat, vals: seq<Value>, i: nat)
    requires 1 <= w <= 4 && Fitting(schema, vals) && i < |vals| && schema[i] == Varchar
    requires SameUsed(b, c, schema, w, |vals|, BodyOffset(schema, w, vals, |vals|))
    requires ColumnHolds(b, schema, w, vals, i)
    ensures ColumnHolds(c, schema, w, vals, i)
  {
    var n, body := |vals|, BodyOffset(schema, w, vals, i);
    SlotInside(schema, w, i, n);
    SliceKept(b, c, StrStart(schema), SlotOffset(schema, w, n), SlotOffset(schema, w, i), SlotBytes(w, body));
    if vals[i].VString? {
      StrBytesGrow(vals, i + 1, n);
      SliceKept(b, c, BodyStart(schema, w), BodyOffset(schema, w, vals, n), body, vals[i].s);
    }
  }

  lemma {:induction false} ColumnKept(b: seq<byte>, c: seq<byte>, schema: Schema, w: nat, vals: seq<Value>, i: nat)
    requires 1 <= w <= 4 && Fitting(schema, vals) && i < |vals|
    requires SameUsed(b, c, schema, w, |vals|, BodyOffset(schema, w, vals, |vals|))
    requires ColumnHolds(b, schema, w, vals, i)
    ensures ColumnHolds(c, schema, w, vals, i)
  {
    if schema[i] == Varchar {
      StringKept(b, c, schema, w, vals, i);
    } else if !vals[i].Null? {
      FieldsGrow(schema, i + 1, |vals|);
      SliceKept(b, c, HEADER_LENGTH + BitMapSize(|schema|), FieldOffset(schema, |vals|),
                FieldOffset(schema, i), FixedBytes(vals[i]));
    }
  }

  lemma {:induction false} ColumnOfPrefix(b: seq<byte>, schema: Schema, w: nat, vals: seq<Value>, v: Value, i: nat)
    requires 1 <= w <= 4 && Fitting(schema, vals) && i < |vals| && Fitting(schema, vals + [v])
    ensures ColumnHolds(b, schema, w, vals + [v], i) <==> ColumnHolds(b, schema, w, vals, i)
  {
    StrBytesOfPrefix(vals, [v], i);
  }

  lemma {:induction false} FittingExtends(schema: Schema, vals: seq<Value>, v: Value)
    requires Fitting(schema, vals) && |vals| < |schema| && Encodable(v, schema[|vals|])
    ensures Fitting(schema, vals + [v])
  {
  }

  /** Putting the next column in place, without touching what earlier columns use, grows the row. */
  lemma {:induction false} HoldsGrows(b: seq<byte>, c: seq<byte>, schema: Schema, w: nat, size: nat, vals: seq<Value>,
                                      v: Value)
    requires Holds(b, schema, w, size, vals) && |c| == |b|
    requires |vals| < |schema| && Encodable(v, schema[|vals|])
    requires SameRange(b, c, 0, HEADER_LENGTH) && NullsHold(c, |schema|, vals + [v])
    requires SameUsed(b, c, schema, w, |vals|, BodyOffset(schema, w, vals, |vals|))
    requires BodyOffset(schema, w, vals + [v], |vals| + 1) <= size
    requires Fitting(schema, vals + [v]) && ColumnHolds(c, schema, w, vals + [v], |vals|)
    ensures Holds(c, schema, w, size, vals + [v])
  {
    forall i | 0 <= i < |vals| + 1 ensures ColumnHolds(c, schema, w, vals + [v], i) {
      if i < |vals| {
        ColumnKept(b, c, schema, w, vals, i);
        ColumnOfPrefix(c, schema, w, vals, v, i);
      }
    }
  }

  // ----- stores beyond the marks -----

  lemma {:induction false} WriteKeepsRange(b: seq<byte>, off: nat, data: seq<byte>, lo: nat, hi: nat)
    requires off + |data| <= |b| && lo <= hi <= |b| && (hi <= off || off + |data| <= lo)
    ensures SameRange(b, WriteAt(b, off, data), lo, hi)
  {
  }

  /** The order of the marks in a buffer that has room for the bodies so far. */
  lemma {:induction false} Marks(schema: Schema, w: nat, n: nat)
    requires n <= |schema|
    ensures HEADER_LENGTH + BitMapSize(|schema|) <= FieldOffset(schema, n) <= StrStart(schema)
    ensures StrStart(schema) <= SlotOffset(schema, w, n) <= BodyStart(schema, w)
  {
    FieldsGrow(schema, n, |schema|);
    SlotsGrow(w, StrIndex(schema, n), StrCount(schema));
  }

  /** A store into the fixed field of column `n`. */
  lemma {:induction false} FieldStoreKeeps(b: seq<byte>, schema: Schema, w: nat, n: nat, body: nat, data: seq<byte>)
    requires n < |schema| && BodyStart(schema, w) <= body <= |b| && |data| <= FixedSize(schema[n])
    ensures FieldOffset(schema, n) + |data| <= StrStart(schema) <= |b|
    ensures var c := WriteAt(b, FieldOffset(schema, n), data);
            SameUsed(b, c, schema, w, n, body) && SameRange(b, c, 0, HEADER_LENGTH + BitMapSize(|schema|))
  {
    Marks(schema, w, n);
    PlaceInside(schema, n);
    var off := FieldOffset(schema, n);
    WriteKeepsRange(b, off, data, 0, HEADER_LENGTH + BitMapSize(|schema|));
    WriteKeepsRange(b, off, data, HEADER_LENGTH + BitMapSize(|schema|), off);
    WriteKeepsRange(b, off, data, StrStart(schema), SlotOffset(schema, w, n));
    WriteKeepsRange(b, off, data, BodyStart(schema, w), body);
  }

  /** A store into the slot of string column `n`. */
  lemma {:induction false} SlotStoreKeeps(b: seq<byte>, schema: Schema, w: nat, n: nat, body: nat, data: seq<byte>)
    requires n < |schema| && schema[n] == Varchar && BodyStart(schema, w) <= body <= |b| && |data| == w
    ensures SlotOffset(schema, w, n) + w <= BodyStart(schema, w)
    ensures var c := WriteAt(b, SlotOffset(schema, w, n), data);
            SameUsed(b, c, schema, w, n, body) && SameRange(b, c, 0, HEADER_LENGTH + BitMapSize(|schema|))
  {
    Marks(schema, w, n);
    SlotInside(schema, w, n, |schema|);
    var off := SlotOffset(schema, w, n);
    WriteKeepsRange(b, off, data, 0, HEADER_LENGTH + BitMapSize(|schema|));
    WriteKeepsRange(b, off, data, HEADER_LENGTH + BitMapSize(|schema|), FieldOffset(schema, n));
    WriteKeepsRange(b, off, data, StrStart(schema), off);
    WriteKeepsRange(b, off, data, BodyStart(schema, w), body);
  }

  /** A store at the end of the bodies. */
  lemma {:induction false} BodyStoreKeeps(b: seq<byte>, schema: Schema, w: nat, n: nat, body: nat, data: seq<byte>)
    requires n <= |schema| && BodyStart(schema, w) <= body && body + |data| <= |b|
    ensures var c := WriteAt(b, body, data);
            && SameUsed(b, c, schema, w, n, body)
            && SameRange(b, c, 0, BodyStart(schema, w))
  {
    Marks(schema, w, n);
    WriteKeepsRange(b, body, data, 0, BodyStart(schema, w));
    WriteKeepsRange(b, body, data, HEADER_LENGTH + BitMapSize(|schema|), FieldOffset(schema, n));
    WriteKeepsRange(b, body, data, StrStart(schema), SlotOffset(schema, w, n));
    WriteKeepsRange(b, body, data, BodyStart(schema, w), body);
  }

  // ----- the null bitmap -----

  /** The bit of column `i` set to `on`. */
  function MarkNull(b: seq<byte>, i: nat, on: bool): (c: seq<byte>)
    requires HEADER_LENGTH + i / 8 < |b|
    ensures |c| == |b|
  {
    b[HEADER_LENGTH + i / 8 := MarkBit(b[HEADER_LENGTH + i / 8], i % 8, on)]
  }

  lemma {:induction false} MarkNullReads(b: seq<byte>, i: nat, on: bool, j: nat)
    requires HEADER_LENGTH + i / 8 < |b| && HEADER_LENGTH + j / 8 < |b|
    ensures NullBit(MarkNull(b, i, on), j) == if i == j then on else NullBit(b, j)
  {
    if i / 8 == j / 8 {
      MarkBitReads(b[HEADER_LENGTH + i / 8], i % 8, on, j % 8);
    }
  }

  lemma {:induction false} MarkNullKeeps(b: seq<byte>, schema: Schema, w: nat, n: nat, body: nat, on: bool)
    requires n < |schema| && BodyStart(schema, w) <= body <= |b|
    ensures HEADER_LENGTH + n / 8 < |b|
    ensures var c := MarkNull(b, n, on);
            SameUsed(b, c, schema, w, n, body) && SameRange(b, c, 0, HEADER_LENGTH)
  {
    Marks(schema, w, n);
  }

  lemma {:induction false} NullsGrow(b: seq<byte>, n: nat, vals: seq<Value>, v: Value)
    requires NullsHold(b, n, vals) && |vals| < n
    ensures NullsHold(MarkNull(b, |vals|, v.Null?), n, vals + [v])
    ensures !v.Null? ==> NullsHold(b, n, vals + [v])
  {
    forall i | 0 <= i < n
      ensures NullBit(MarkNull(b, |vals|, v.Null?), i) <==> i < |vals + [v]| && (vals + [v])[i].Null?
    {
      MarkNullReads(b, |vals|, v.Null?, i);
    }
  }

  lemma {:induction false} NullsKept(b: seq<byte>, c: seq<byte>, n: nat, vals: seq<Value>)
    requires NullsHold(b, n, vals) && SameRange(b, c, 0, HEADER_LENGTH + BitMapSize(n))
    ensures NullsHold(c, n, vals)
  {
    var m := HEADER_LENGTH + BitMapSize(n);
    forall i | 0 <= i < n ensures NullBit(c, i) == NullBit(b, i) {
      assert b[HEADER_LENGTH + i / 8] == b[0..m][HEADER_LENGTH + i / 8];
      assert c[HEADER_LENGTH + i / 8] == c[0..m][HEADER_LENGTH + i / 8];
    }
  }

  // ----- whole columns -----

  /** The stores for a fixed column: its null bit, when `mark`, and the bytes of its field. */
  function PutFixed(b: seq<byte>, schema: Schema, n: nat, isNull: bool, mark: bool, data: seq<byte>): (c: seq<byte>)
    requires n < |schema| && HEADER_LENGTH + n / 8 < |b| && FieldOffset(schema, n) + |data| <= |b|
    ensures |c| == |b|
  {
    WriteAt(if mark then MarkNull(b, n, isNull) else b, FieldOffset(schema, n), data)
  }

  /** The stores for a string column: the null bit if it is NULL, the slot in any case, then the body. */
  function PutString(b: seq<byte>, schema: Schema, w: nat, n: nat, v: Value, body: nat): (c: seq<byte>)
    requires 1 <= w <= 4 && n < |schema| && HEADER_LENGTH + n / 8 < |b|
    requires SlotOffset(schema, w, n) + w <= |b| && body + StrLen(v) <= |b|
    ensures |c| == |b|
  {
    var marked := if v.VString? then b else MarkNull(b, n, true);
    var slotted := WriteAt(marked, SlotOffset(schema, w, n), SlotBytes(w, body));
    if v.VString? then WriteAt(slotted, body, v.s) else slotted
  }

  lemma {:induction false} NarrowRange(b: seq<byte>, c: seq<byte>, lo: nat, hi: nat, lo': nat, hi': nat)
    requires SameRange(b, c, lo, hi) && lo <= lo' <= hi' <= hi
    ensures SameRange(b, c, lo', hi')
  {
    SubSlice(b, lo, hi, lo', hi');
    SubSlice(c, lo, hi, lo', hi');
  }

  lemma {:induction false} RoomForBits(b: seq<byte>, schema: Schema, w: nat, size: nat, vals: seq<Value>)
    requires Holds(b, schema, w, size, vals) && |vals| < |schema|
    ensures HEADER_LENGTH + |vals| / 8 < |b|
    ensures FieldOffset(schema, |vals|) + FixedSize(schema[|vals|]) <= StrStart(schema) <= BodyStart(schema, w) <= |b|
    ensures schema[|vals|] == Varchar ==> SlotOffset(schema, w, |vals|) + w <= BodyStart(schema, w)
  {
    Marks(schema, w, |vals|);
    PlaceInside(schema, |vals|);
    if schema[|vals|] == Varchar { SlotInside(schema, w, |vals|, |schema|); }
  }

  lemma {:induction false} MarkStep(b: seq<byte>, schema: Schema, w: nat, size: nat, vals: seq<Value>, v: Value,
                                    mark: bool)
    requires Holds(b, schema, w, size, vals) && |vals| < |schema| && (v.Null? ==> mark)
    requires HEADER_LENGTH + |vals| / 8 < |b|
    ensures var c := if mark then MarkNull(b, |vals|, v.Null?) else b;
            && SameUsed(b, c, schema, w, |vals|, BodyOffset(schema, w, vals, |vals|))
            && SameRange(b, c, 0, HEADER_LENGTH) && NullsHold(c, |schema|, vals + [v])
  {
    MarkNullKeeps(b, schema, w, |vals|, BodyOffset(schema, w, vals, |vals|), v.Null?);
    NullsGrow(b, |schema|, vals, v);
    Marks(schema, w, |vals|);
  }

  /** A marked null bit and stores beyond the bitmap that spare earlier columns. */
  lemma {:induction false} HoldsAfterStores(b: seq<byte>, marked: seq<byte>, c: seq<byte>, schema: Schema, w: nat,
                                            size: nat, vals: seq<Value>, v: Value)
    requires Holds(b, schema, w, size, vals) && |vals| < |schema| && Encodable(v, schema[|vals|])
    requires SameRange(b, marked, 0, HEADER_LENGTH) && NullsHold(marked, |schema|, vals + [v])
    requires SameRange(marked, c, 0, HEADER_LENGTH + BitMapSize(|schema|)) && |c| == |b|
    requires SameUsed(b, c, schema, w, |vals|, BodyOffset(schema, w, vals, |vals|))
    requires BodyOffset(schema, w, vals + [v], |vals| + 1) <= size
    requires Fitting(schema, vals + [v]) && ColumnHolds(c, schema, w, vals + [v], |vals|)
    ensures Holds(c, schema, w, size, vals + [v])
  {
    NarrowRange(marked, c, 0, HEADER_LENGTH + BitMapSize(|schema|), 0, HEADER_LENGTH);
    NullsKept(marked, c, |schema|, vals + [v]);
    HoldsGrows(b, c, schema, w, size, vals, v);
  }

  /** A fixed column is in place after its stores; the field of a NULL may receive anything that fits it. */
  lemma {:induction false} PutFixedHolds(b: seq<byte>, schema: Schema, w: nat, size: nat, vals: seq<Value>, v: Value,
                                         mark: bool, data: seq<byte>)
    requires Holds(b, schema, w, size, vals) && |vals| < |schema|
    requires Encodable(v, schema[|vals|]) && schema[|vals|] != Varchar
    requires v.Null? ==> mark && |data| <= FixedSize(schema[|vals|])
    requires !v.Null? ==> data == FixedBytes(v)
    ensures HEADER_LENGTH + |vals| / 8 < |b| && FieldOffset(schema, |vals|) + |data| <= |b|
    ensures Holds(PutFixed(b, schema, |vals|, v.Null?, mark, data), schema, w, size, vals + [v])
    ensures BodyOffset(schema, w, vals + [v], |vals| + 1) == BodyOffset(schema, w, vals, |vals|)
  {
    var n, body := |vals|, BodyOffset(schema, w, vals, |vals|);
    RoomForBits(b, schema, w, size, vals);
    var marked := if mark then MarkNull(b, n, v.Null?) else b;
    MarkStep(b, schema, w, size, vals, v, mark);
    FieldStoreKeeps(marked, schema, w, n, body, data);
    var c := PutFixed(b, schema, n, v.Null?, mark, data);
    FittingExtends(schema, vals, v);
    StrBytesOfPrefix(vals, [v], n);
    WriteReads(marked, FieldOffset(schema, n), data);
    HoldsAfterStores(b, marked, c, schema, w, size, vals, v);
  }

  lemma {:induction false} PutSlotBytes(b: seq<byte>, schema: Schema, w: nat, n: nat, isNull: bool, body: nat)
    requires 1 <= w <= 4 && n < |schema| && schema[n] == Varchar && BodyStart(schema, w) <= body <= |b|
    ensures HEADER_LENGTH + n / 8 < |b| && SlotOffset(schema, w, n) + w <= BodyStart(schema, w)
    ensures var marked := if isNull then MarkNull(b, n, true) else b;
            var c := WriteAt(marked, SlotOffset(schema, w, n), SlotBytes(w, body));
            && Slice(c, SlotOffset(schema, w, n), SlotBytes(w, body))
            && SameUsed(b, c, schema, w, n, body)
            && SameRange(marked, c, 0, HEADER_LENGTH + BitMapSize(|schema|))
  {
    Marks(schema, w, n);
    MarkNullKeeps(b, schema, w, n, body, true);
    var marked := if isNull then MarkNull(b, n, true) else b;
    SlotStoreKeeps(marked, schema, w, n, body, SlotBytes(w, body));
    WriteReads(marked, SlotOffset(schema, w, n), SlotBytes(w, body));
  }

  lemma {:induction false} PutStringBytes(b: seq<byte>, schema: Schema, w: nat, n: nat, v: Value, body: nat)
    requires 1 <= w <= 4 && n < |schema| && schema[n] == Varchar
    requires BodyStart(schema, w) <= body && body + StrLen(v) <= |b|
    requires v.Null? || v.VString?
    ensures HEADER_LENGTH + n / 8 < |b| && SlotOffset(schema, w, n) + w <= |b|
    ensures var c := PutString(b, schema, w, n, v, body);
            && Slice(c, SlotOffset(schema, w, n), SlotBytes(w, body))
            && (v.VString? ==> Slice(c, body, v.s))
            && SameUsed(b, c, schema, w, n, body)
            && SameRange(if v.VString? then b else MarkNull(b, n, true), c, 0, HEADER_LENGTH + BitMapSize(|schema|))
  {
    PutSlotBytes(b, schema, w, n, v.Null?, body);
    if v.VString? {
      Marks(schema, w, n);
      var slotted := WriteAt(b, SlotOffset(schema, w, n), SlotBytes(w, body));
      BodyStoreKeeps(slotted, schema, w, n, body, v.s);
      var c := WriteAt(slotted, body, v.s);
      NarrowRange(slotted, c, 0, BodyStart(schema, w), 0, HEADER_LENGTH + BitMapSize(|schema|));
      SliceKept(slotted, c, 0, BodyStart(schema, w), SlotOffset(schema, w, n), SlotBytes(w, body));
      WriteReads(slotted, body, v.s);
    }
  }

  lemma {:induction false} StringInPlace(b: seq<byte>, c: seq<byte>, schema: Schema, w: nat, size: nat,
                                         vals: seq<Value>, v: Value, body: nat)
    requires Holds(b, schema, w, size, vals) && |vals| < |schema| && |c| == |b|
    requires Encodable(v, schema[|vals|]) && schema[|vals|] == Varchar
    requires body == BodyOffset(schema, w, vals, |vals|) && body + StrLen(v) <= size
    requires HEADER_LENGTH + |vals| / 8 < |b|
    requires SameUsed(b, c, schema, w, |vals|, body)
    requires SameRange(if v.VString? then b else MarkNull(b, |vals|, true), c, 0, HEADER_LENGTH + BitMapSize(|schema|))
    requires Slice(c, SlotOffset(schema, w, |vals|), SlotBytes(w, body)) && (v.VString? ==> Slice(c, body, v.s))
    ensures Holds(c, schema, w, size, vals + [v])
    ensures BodyOffset(schema, w, vals + [v], |vals| + 1) == body + StrLen(v)
  {
    FittingExtends(schema, vals, v);
    StrBytesOfPrefix(vals, [v], |vals|);
    MarkStep(b, schema, w, size, vals, v, v.Null?);
    HoldsAfterStores(b, if v.VString? then b else MarkNull(b, |vals|, true), c, schema, w, size, vals, v);
  }

  /** A string column is in place after its stores: a NULL still fills its slot. */
  lemma {:induction false} PutStringHolds(b: seq<byte>, schema: Schema, w: nat, size: nat, vals: seq<Value>, v: Value,
                                          body: nat)
    requires Holds(b, schema, w, size, vals) && |vals| < |schema|
    requires Encodable(v, schema[|vals|]) && schema[|vals|] == Varchar
    requires body == BodyOffset(schema, w, vals, |vals|) && body + StrLen(v) <= size
    ensures HEADER_LENGTH + |vals| / 8 < |b| && SlotOffset(schema, w, |vals|) + w <= |b| && body + StrLen(v) <= |b|
    ensures Holds(PutString(b, schema, w, |vals|, v, body), schema, w, size, vals + [v])
    ensures BodyOffset(schema, w, vals + [v], |vals| + 1) == body + StrLen(v)
  {
    PutStringBytes(b, schema, w, |vals|, v, body);
    StringInPlace(b, PutString(b, schema, w, |vals|, v, body), schema, w, size, vals, v, body);
  }

  // ----- the empty row -----

  /** The stores that open a row: both versions, the size, and a cleared bitmap. */
  function PutHeader(b: seq<byte>, schema: Schema, size: nat): (c: seq<byte>)
    requires HEADER_LENGTH + BitMapSize(|schema|) <= |b|
    ensures |c| == |b|
  {
    var zeros := seq(BitMapSize(|schema|), _ => 0);
    WriteAt(WriteAt(b[0 := 1][1 := 1], VERSION_LENGTH, ToLE(size, 4)), HEADER_LENGTH, zeros)
  }

  lemma {:induction false} PutHeaderHolds(b: seq<byte>, schema: Schema, w: nat, size: nat)
    requires 1 <= w <= 4 && BodyStart(schema, w) <= size <= |b| && size < TWO32
    ensures HEADER_LENGTH + BitMapSize(|schema|) <= |b|
    ensures Holds(PutHeader(b, schema, size), schema, w, size, [])
  {
    Marks(schema, w, 0);
    var c := PutHeader(b, schema, size);
    assert c[2..6] == ToLE(size, 4);
    Pow256Values();
    LERoundTrip(size, 4);
    forall i | 0 <= i < |schema| ensures !NullBit(c, i) {
      assert c[HEADER_LENGTH + i / 8] == 0;
      ZeroHasNoBits(i % 8);
    }
  }

  // ----- appending -----

  /** The columns `vals` are in place and the next string body goes to `body`. */
  ghost predicate Filled(b: seq<byte>, schema: Schema, w: nat, size: nat, vals: seq<Value>, body: nat) {
    Holds(b, schema, w, size, vals) && body == BodyOffset(schema, w, vals, |vals|)
  }

  /** Every store for column `n` stays inside the buffer. */
  predicate Room(b: seq<byte>, schema: Schema, w: nat, n: nat, body: nat) {
    && 1 <= w <= 4 && n < |schema|
    && HEADER_LENGTH + n / 8 < |b|
    && FieldOffset(schema, n) + FixedSize(schema[n]) <= |b|
    && (schema[n] == Varchar ==> SlotOffset(schema, w, n) + w <= |b|)
    && body <= |b|
  }

  lemma {:induction false} FilledHasRoom(b: seq<byte>, schema: Schema, w: nat, size: nat, vals: seq<Value>, body: nat)
    requires Filled(b, schema, w, size, vals, body) && |vals| < |schema|
    ensures Room(b, schema, w, |vals|, body) && body <= size
  {
    RoomForBits(b, schema, w, size, vals);
  }

  lemma {:induction false} AppendedNull(b: seq<byte>, c: seq<byte>, schema: Schema, w: nat, size: nat,
                                        vals: seq<Value>, body: nat)
    requires Filled(b, schema, w, size, vals, body) && |vals| < |schema| && Room(b, schema, w, |vals|, body)
    requires c == if schema[|vals|] == Varchar
                  then WriteAt(MarkNull(b, |vals|, true), SlotOffset(schema, w, |vals|), SlotBytes(w, body))
                  else MarkNull(b, |vals|, true)
    ensures Filled(c, schema, w, size, vals + [Null], body)
  {
    if schema[|vals|] == Varchar {
      PutStringHolds(b, schema, w, size, vals, Null, body);
    } else {
      AppendedNullFixed(b, schema, w, size, vals, body);
    }
  }

  lemma {:induction false} AppendedNullFixed(b: seq<byte>, schema: Schema, w: nat, size: nat, vals: seq<Value>, body: nat)
    requires Filled(b, schema, w, size, vals, body) && |vals| < |schema| && Room(b, schema, w, |vals|, body)
    requires schema[|vals|] != Varchar
    ensures Filled(MarkNull(b, |vals|, true), schema, w, size, vals + [Null], body)
  {
    PutFixedHolds(b, schema, w, size, vals, Null, true, []);
    var c := MarkNull(b, |vals|, true);
    assert WriteAt(c, FieldOffset(schema, |vals|), []) == c;
  }

  lemma {:induction false} AppendedFixed(b: seq<byte>, schema: Schema, w: nat, size: nat, vals: seq<Value>, v: Value,
                                         body: nat)
    requires Filled(b, schema, w, size, vals, body) && |vals| < |schema|
    requires Encodable(v, schema[|vals|]) && schema[|vals|] != Varchar && !v.Null?
    ensures FieldOffset(schema, |vals|) + |FixedBytes(v)| <= |b|
    ensures Filled(WriteAt(b, FieldOffset(schema, |vals|), FixedBytes(v)), schema, w, size, vals + [v], body)
  {
    PutFixedHolds(b, schema, w, size, vals, v, false, FixedBytes(v));
  }

  lemma {:induction false} AppendedString(b: seq<byte>, schema: Schema, w: nat, size: nat, vals: seq<Value>,
                                          s: seq<byte>, body: nat)
    requires Filled(b, schema, w, size, vals, body) && |vals| < |schema| && schema[|vals|] == Varchar
    requires Room(b, schema, w, |vals|, body) && body + |s| <= size <= |b|
    ensures var c := WriteAt(WriteAt(b, SlotOffset(schema, w, |vals|), SlotBytes(w, body)), body, s);
            Filled(c, schema, w, size, vals + [VString(s)], body + |s|)
  {
    PutStringHolds(b, schema, w, size, vals, VString(s), body);
  }
}
