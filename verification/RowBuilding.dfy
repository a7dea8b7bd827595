/**
 `RowBuilder`: columns are appended one by one into a caller's buffer.
 */
module RowBuilding {
  import opened Bytes
  import opened RowLayout
  import opened RowImage
  import opened RowWrites

  class RowBuilder {
    const schema: Schema
    var buf: array<byte>
    var cnt: nat
    var size: nat
    var strFieldCnt: nat
    var strAddrLength: nat
    var strFieldStartOffset: nat
    var strOffset: nat
    var offsetVec: seq<nat>

    /** The values appended to the current buffer. */
    ghost var vals: seq<Value>

    ghost predicate LaidOut()
      reads this
    {
      && Supported(schema)
      && strFieldStartOffset == StrStart(schema)
      && strFieldCnt == StrCount(schema)
      && offsetVec == Offsets(schema, |schema|)
    }

    /** A buffer with room for the slots is set, and it holds the columns appended so far. */
    ghost predicate Ready()
      reads this, buf
    {
      && LaidOut()
      && size <= buf.Length && size < TWO32
      && strAddrLength == AddrLength(size)
      && cnt == |vals|
      && Filled(buf[..], schema, strAddrLength, size, vals, strOffset)
    }

    constructor (schema: Schema)
      ensures this.schema == schema
      ensures strFieldStartOffset == StrStart(schema) && strFieldCnt == StrCount(schema)
      ensures offsetVec == Offsets(schema, |schema|)
      ensures fresh(buf) && buf.Length == 0
    {
      this.schema := schema;
      buf, cnt, size, strAddrLength, strOffset, vals := new byte[0], 0, 0, 0, 0, [];
      var start, strings, offsets := HEADER_LENGTH + BitMapSize(|schema|), 0, [];
      for idx := 0 to |schema|
        invariant start == FieldOffset(schema, idx) && strings == StrIndex(schema, idx)
        invariant offsets == Offsets(schema, idx)
      {
        if schema[idx] == Varchar {
          offsets := offsets + [strings];
          strings := strings + 1;
        } else if InSizeMap(schema[idx]) {
          offsets := offsets + [start];
          start := start + TypeSize(schema[idx]);
        }
      }
      strFieldStartOffset, strFieldCnt, offsetVec := start, strings, offsets;
    }

    /** Starts a row.  The size test only asks for one byte per slot; the row is usable when all slots fit. */
    method SetBuffer(buf: array<byte>, size: nat) returns (ok: bool)
      requires LaidOut() && size <= buf.Length && size < TWO32
      modifies this, buf
      ensures ok <==> size != 0 && size >= StrStart(schema) + StrCount(schema)
      ensures LaidOut() && this.buf == (if ok then buf else old(this.buf))
      ensures ok ==> this.size == size && vals == []
      ensures ok && size >= BodyStart(schema, AddrLength(size)) ==> Ready()
      ensures !ok ==> unchanged(this) && unchanged(buf)
    {
      if size == 0 || size < strFieldStartOffset + strFieldCnt {
        return false;
      }
      this.buf, this.size := buf, size;
      Marks(schema, 1, 0);
      ghost var before := buf[..];
      buf[0] := 1;
      buf[1] := 1;
      Store(buf, VERSION_LENGTH, ToLE(size, 4));
      Store(buf, HEADER_LENGTH, seq(BitMapSize(|schema|), _ => 0));
      assert buf[..] == PutHeader(before, schema, size) by {
        assert before[0 := 1][1 := 1] == [1, 1] + before[2..];
      }
      cnt, vals := 0, [];
      strAddrLength := AddrLength(size);
      strOffset := strFieldStartOffset + Slots(strAddrLength, strFieldCnt);
      if size >= BodyStart(schema, strAddrLength) {
        PutHeaderHolds(before, schema, strAddrLength, size);
      }
      ok := true;
    }

    method CalTotalLength(stringLength: nat) returns (total: nat)
      requires LaidOut()
      ensures total == RowLayout.CalTotalLength(schema, stringLength)
    {
      if schema == [] {
        return 0;
      }
      total := Wrap32(strFieldStartOffset + stringLength);
      if Wrap32(total + strFieldCnt) <= UINT8_MAX {
        return Wrap32(total + strFieldCnt);
      } else if Wrap32(total + Wrap32(strFieldCnt * 2)) <= UINT16_MAX {
        return Wrap32(total + Wrap32(strFieldCnt * 2));
      } else if Wrap32(total + Wrap32(strFieldCnt * 3)) <= UINT24_MAX {
        return Wrap32(total + Wrap32(strFieldCnt * 3));
      } else {
        return Wrap32(total + Wrap32(strFieldCnt * 4));
      }
    }

    /** `Check`: the next column exists, has this type, and the type is supported. */
    predicate Check(t: Type)
      reads this
    {
      cnt < |schema| && schema[cnt] == t && (t != Varchar ==> InSizeMap(t))
    }

    method AppendNULL()
      requires Ready() && cnt < |schema|
      modifies this, buf
      ensures Ready() && vals == old(vals) + [Null]
      ensures buf == old(buf) && size == old(size)
    {
      hide Filled;
      hide Offsets;
      hide StrIndex;
      hide FieldOffset;
      ghost var b := buf[..];
      FilledHasRoom(b, schema, strAddrLength, size, vals, strOffset);
      OffsetAt(schema, cnt);
      StoreNull(buf, cnt, schema[cnt] == Varchar, strFieldStartOffset, strAddrLength, offsetVec[cnt], strOffset);
      AppendedNull(b, buf[..], schema, strAddrLength, size, vals, strOffset);
      vals := vals + [Null];
      cnt := cnt + 1;
    }

    /** `AppendBool`, `AppendInt16`, ..., `AppendDate`: the type check, the date check, one typed store. */
    method AppendFixed(t: Type, v: Value) returns (ok: bool)
      requires Ready() && !v.Null? && !v.VString? && HasType(v, t)
      modifies this, buf
      ensures ok <==> old(Check(t)) && Encodable(v, t)
      ensures Ready() && vals == old(vals) + (if ok then [v] else [])
      ensures buf == old(buf) && size == old(size) && (!ok ==> buf[..] == old(buf[..]))
    {
      hide Filled;
      if v.VDate? && !ValidDate(v.year, v.month, v.day) {
        return false;
      }
      if !Check(t) {
        return false;
      }
      ghost var b := buf[..];
      OffsetAt(schema, cnt);
      AppendedFixed(b, schema, strAddrLength, size, vals, v, strOffset);
      Store(buf, offsetVec[cnt], FixedBytes(v));
      vals := vals + [v];
      cnt := cnt + 1;
      ok := true;
    }

    method AppendString(s: seq<byte>) returns (ok: bool)
      requires Ready()
      modifies this, buf
      ensures ok <==> old(Check(Varchar)) && old(strOffset) + |s| <= size
      ensures Ready() && vals == old(vals) + (if ok then [VString(s)] else [])
      ensures buf == old(buf) && size == old(size) && (!ok ==> buf[..] == old(buf[..]))
    {
      hide Filled;
      hide Offsets;
      hide StrIndex;
      hide FieldOffset;
      if !Check(Varchar) || strOffset + |s| > size {
        return false;
      }
      ghost var b := buf[..];
      OffsetAt(schema, cnt);
      FilledHasRoom(b, schema, strAddrLength, size, vals, strOffset);
      StoreString(buf, strFieldStartOffset, strAddrLength, offsetVec[cnt], strOffset, s);
      AppendedString(b, schema, strAddrLength, size, vals, s, strOffset);
      strOffset := strOffset + |s|;
      vals := vals + [VString(s)];
      cnt := cnt + 1;
      ok := true;
    }
  }

  // ----- a whole row -----

  /** The append call for one value of the next column. */
  method AppendValue(builder: RowBuilder, v: Value) returns (ok: bool)
    requires builder.Ready() && builder.cnt < |builder.schema|
    requires Encodable(v, builder.schema[builder.cnt])
    requires builder.strOffset + StrLen(v) <= builder.size
    modifies builder, builder.buf
    ensures ok && builder.Ready() && builder.vals == old(builder.vals) + [v]
    ensures builder.buf == old(builder.buf) && builder.size == old(builder.size)
  {
    if v.Null? {
      builder.AppendNULL();
      ok := true;
    } else if v.VString? {
      ok := builder.AppendString(v.s);
    } else {
      assert InSizeMap(builder.schema[builder.cnt]);
      ok := builder.AppendFixed(builder.schema[builder.cnt], v);
    }
  }

  /** The next append fits when the bodies of all values together end inside the buffer. */
  lemma {:induction false} PrefixFits(schema: Schema, w: nat, vals: seq<Value>, i: nat)
    requires i < |vals|
    ensures BodyOffset(schema, w, vals[..i], i) + StrLen(vals[i]) <= BodyOffset(schema, w, vals, |vals|)
  {
    assert vals == vals[..i] + vals[i..];
    StrBytesOfPrefix(vals[..i], vals[i..], i);
    StrBytesGrow(vals, i + 1, |vals|);
  }

  /** Sizes a buffer with `CalTotalLength`, then appends every value: every call succeeds and the row is complete. */
  method EncodeRow(builder: RowBuilder, vals: seq<Value>) returns (row: array<byte>)
    requires builder.LaidOut() && builder.schema != []
    requires Fitting(builder.schema, vals) && |vals| == |builder.schema|
    requires StrStart(builder.schema) + StrBytes(vals, |vals|) + 4 * StrCount(builder.schema) < TWO32
    modifies builder
    ensures builder.LaidOut() && fresh(row)
    ensures Encodes(row[..], builder.schema, vals)
  {
    var schema := builder.schema;
    var strings := 0;
    for i := 0 to |vals|
      invariant strings == StrBytes(vals, i)
    {
      strings := strings + StrLen(vals[i]);
    }
    var size := builder.CalTotalLength(strings);
    BuilderWidthIsRederived(schema, strings);
    SlotsGrowWithWidth(StrCount(schema), AddrLength(size));
    row := new byte[size];
    var ok := builder.SetBuffer(row, size);
    AppendAll(builder, vals, AddrLength(size));
  }

  method AppendAll(builder: RowBuilder, vals: seq<Value>, ghost w: nat)
    requires builder.Ready() && builder.vals == [] && builder.strAddrLength == w
    requires Fitting(builder.schema, vals) && |vals| == |builder.schema|
    requires BodyOffset(builder.schema, w, vals, |vals|) <= builder.size
    modifies builder, builder.buf
    ensures builder.Ready() && builder.vals == vals
    ensures builder.buf == old(builder.buf) && builder.size == old(builder.size)
  {
    for i := 0 to |vals|
      invariant builder.Ready() && builder.buf == old(builder.buf) && builder.size == old(builder.size)
      invariant builder.vals == vals[..i] && builder.strAddrLength == w
    {
      PrefixFits(builder.schema, w, vals, i);
      var ok := AppendValue(builder, vals[i]);
      assert vals[..i + 1] == vals[..i] + [vals[i]];
    }
    assert vals[..|vals|] == vals;
  }

  lemma {:induction false} SlotsGrowWithWidth(n: nat, w: nat)
    requires 1 <= w
    ensures n <= Slots(w, n)
  {
    if n > 0 { SlotsGrowWithWidth(n - 1, w); }
  }

  /** The null bit and, for a string, its slot. */
  method StoreNull(buf: array<byte>, i: nat, isString: bool, start: nat, w: nat, strIdx: nat, strOffset: nat)
    requires HEADER_LENGTH + i / 8 < buf.Length && 1 <= w <= 4
    requires isString ==> start + Slots(w, strIdx) + w <= buf.Length
    modifies buf
    ensures buf[..] == if isString
                       then WriteAt(MarkNull(old(buf[..]), i, true), start + Slots(w, strIdx), SlotBytes(w, strOffset))
                       else MarkNull(old(buf[..]), i, true)
  {
    buf[HEADER_LENGTH + i / 8] := MarkBit(buf[HEADER_LENGTH + i / 8], i % 8, true);
    assert buf[..] == MarkNull(old(buf[..]), i, true);
    if isString {
      FillNullStringOffset(buf, start, w, strIdx, strOffset);
    }
  }

  /** The stores of a string offset into slot `strIdx`. */
  method StoreSlot(buf: array<byte>, start: nat, w: nat, strIdx: nat, strOffset: nat)
    requires 1 <= w <= 4 && start + Slots(w, strIdx) + w <= buf.Length
    modifies buf
    ensures buf[..] == WriteAt(old(buf[..]), start + Slots(w, strIdx), SlotBytes(w, strOffset))
  {
    SlotsIsProduct(w, strIdx);
    var ptr := start + w * strIdx;
    if w == 1 {
      Store(buf, ptr, ToLE(strOffset, 1));
    } else if w == 2 {
      Store(buf, ptr, ToLE(strOffset, 2));
    } else if w == 3 {
      ThreeBytes(strOffset);
      StoreThree(buf, ptr, strOffset / 0x1_0000 % 256, strOffset % 0x1_0000 / 0x100, strOffset % 0x100);
    } else {
      Store(buf, ptr, ToLE(strOffset, 4));
    }
  }

  lemma {:induction false} ThreeBytes(off: nat)
    ensures SlotBytes(3, off) == [off / 0x1_0000 % 256, off % 0x1_0000 / 0x100, off % 0x100]
  {
    assert ToLE(off, 3) == [off % 256] + ToLE(off / 256, 2);
    assert ToLE(off / 256, 2) == [off / 256 % 256] + ToLE(off / 256 / 256, 1);
    assert ToLE(off / 256 / 256, 1) == [off / 256 / 256 % 256] + ToLE(off / 256 / 256 / 256, 0);
    assert off / 256 / 256 == off / 0x1_0000;
  }

  method StoreThree(buf: array<byte>, ptr: nat, x: byte, y: byte, z: byte)
    requires ptr + 3 <= buf.Length
    modifies buf
    ensures buf[..] == WriteAt(old(buf[..]), ptr, [x, y, z])
  {
    buf[ptr] := x;
    buf[ptr + 1] := y;
    buf[ptr + 2] := z;
  }

  method StoreString(buf: array<byte>, start: nat, w: nat, strIdx: nat, strOffset: nat, s: seq<byte>)
    requires 1 <= w <= 4 && start + Slots(w, strIdx) + w <= buf.Length && strOffset + |s| <= buf.Length
    modifies buf
    ensures buf[..] == WriteAt(WriteAt(old(buf[..]), start + Slots(w, strIdx), SlotBytes(w, strOffset)), strOffset, s)
  {
    StoreSlot(buf, start, w, strIdx, strOffset);
    Store(buf, strOffset, s);
  }

  method FillNullStringOffset(buf: array<byte>, start: nat, w: nat, strIdx: nat, strOffset: nat)
    requires 1 <= w <= 4 && start + Slots(w, strIdx) + w <= buf.Length
    modifies buf
    ensures buf[..] == WriteAt(old(buf[..]), start + Slots(w, strIdx), SlotBytes(w, strOffset))
  {
    StoreSlot(buf, start, w, strIdx, strOffset);
  }
}
