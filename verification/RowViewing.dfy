/**
 `RowView` and `RowFormat`: the two readers' own computation of the layout, and the getters.
 */
module RowViewing {
  import opened Bytes
  import opened RowLayout
  import opened RowImage
  import opened RowWrites
  import opened RowReading

  predicate SupportedUpTo(schema: Schema, n: nat)
    requires n <= |schema|
  {
    forall i :: 0 <= i < n ==> schema[i] == Varchar || InSizeMap(schema[i])
  }

  class RowView {
    const schema: Schema
    var strAddrLength: nat
    var isValid: bool
    var stringFieldCnt: nat
    var strFieldStartOffset: nat
    var size: nat
    /** The bytes at the row pointer; empty for a null pointer. */
    var row: seq<byte>
    var offsetVec: seq<nat>

    ghost predicate LaidOut()
      reads this
    {
      && Supported(schema)
      && strFieldStartOffset == StrStart(schema)
      && stringFieldCnt == StrCount(schema)
      && offsetVec == Offsets(schema, |schema|)
    }

    /** The row is long enough for its slots, so that no getter looks outside it. */
    ghost predicate Readable()
      reads this
    {
      LaidOut() && (row != [] && isValid ==> 1 <= strAddrLength <= 4 && |row| >= BodyStart(schema, strAddrLength))
    }

    /** `Init` gives up at the first unsupported type. */
    constructor (schema: Schema)
      ensures this.schema == schema && row == []
      ensures isValid <==> Supported(schema)
      ensures isValid ==> LaidOut()
    {
      this.schema := schema;
      var offsets: seq<nat> := [];
      var offset, strings, supported, idx := HEADER_LENGTH + BitMapSize(|schema|), 0, true, 0;
      while idx < |schema| && supported
        invariant 0 <= idx <= |schema|
        invariant supported ==> offset == FieldOffset(schema, idx) && strings == StrIndex(schema, idx)
        invariant supported ==> offsets == Offsets(schema, idx)
        invariant supported <==> SupportedUpTo(schema, idx)
      {
        if schema[idx] == Varchar {
          offsets := offsets + [strings];
          strings := strings + 1;
        } else if !InSizeMap(schema[idx]) {
          supported := false;
        } else {
          offsets := offsets + [offset];
          offset := offset + TypeSize(schema[idx]);
        }
        idx := idx + 1;
      }
      strAddrLength, size, row, isValid := 0, 0, [], supported;
      strFieldStartOffset, stringFieldCnt, offsetVec := if supported then offset else 0, strings, offsets;
    }

    method Reset(row: seq<byte>, size: nat) returns (ok: bool)
      requires size <= |row|
      modifies this`row, this`size, this`strAddrLength, this`isValid
      ensures ok <==> schema != [] && size > HEADER_LENGTH && FromLE(row[VERSION_LENGTH..HEADER_LENGTH]) == size
      ensures isValid == ok
      ensures ok ==> this.row == row && this.size == size && strAddrLength == AddrLength(size)
      ensures !ok ==> this.row == old(this.row) && this.size == old(this.size) && strAddrLength == old(strAddrLength)
    {
      if schema == [] || size <= HEADER_LENGTH || FromLE(row[VERSION_LENGTH..HEADER_LENGTH]) != size {
        isValid := false;
        return false;
      }
      this.row, this.size := row, size;
      strAddrLength := AddrLength(size);
      isValid := true;
      ok := true;
    }

    predicate CheckValid(idx: nat, t: Type)
      reads this
    {
      row != [] && isValid && idx < |schema| && schema[idx] == t
    }

    /** `GetBool`, `GetInt16`, ..., `GetDate`; a stored negative date leaves the caller's outputs unset (`Null`). */
    function GetFixed(idx: nat, t: Type): (r: Got)
      requires Readable() && InSizeMap(t)
      reads this
      ensures CheckValid(idx, t) ==> r == ReadColumn(row, schema, strAddrLength, idx)
      ensures r.GotError? <==> !CheckValid(idx, t)
    {
      if !CheckValid(idx, t) then GotError(-1)
      else
        Marks(schema, strAddrLength, idx);
        PlaceInside(schema, idx);
        OffsetAt(schema, idx);
        if NullBit(row, idx) then GotNull
        else Got(ReadFixed(t, row[offsetVec[idx]..offsetVec[idx] + TypeSize(t)]))
    }

    function GetString(idx: nat): (r: Got)
      requires Readable()
      reads this
      ensures !CheckValid(idx, Varchar) ==> r == GotError(-1)
      ensures CheckValid(idx, Varchar) ==>
                r == if FromLE(row[VERSION_LENGTH..HEADER_LENGTH]) > HEADER_LENGTH
                     then ReadColumn(row, schema, strAddrLength, idx) else GotError(-1)
    {
      if !CheckValid(idx, Varchar) then GotError(-1)
      else if FromLE(row[VERSION_LENGTH..HEADER_LENGTH]) <= HEADER_LENGTH then GotError(-1)
      else
        Marks(schema, strAddrLength, idx);
        PlaceInside(schema, idx);
        OffsetAt(schema, idx);
        if NullBit(row, idx) then GotNull
        else
          var field := offsetVec[idx];
          var next := if field < stringFieldCnt - 1 then field + 1 else 0;
          StringReadsInside(row, schema, strAddrLength, idx);
          FetchString(row, field, next, strFieldStartOffset, strAddrLength)
    }

    /** The getter for the column's own type. */
    function Get(idx: nat): (r: Got)
      requires Readable() && idx < |schema|
      reads this
    {
      if schema[idx] == Varchar then GetString(idx) else GetFixed(idx, schema[idx])
    }

    /** A view set on an encoded row reads every column back. */
    lemma {:induction false} ReadsEncodedRow(vals: seq<Value>, idx: nat)
      requires LaidOut() && isValid && idx < |schema| && Encodes(row, schema, vals)
      requires strAddrLength == AddrLength(|row|)
      ensures Readable() && Get(idx) == AsGot(vals[idx])
    {
      RowReadsBack(row, schema, vals, idx);
      Marks(schema, strAddrLength, idx);
    }
  }

  // ----- RowFormat -----

  datatype ColInfo = ColInfo(t: Type, idx: nat, offset: nat)

  class RowFormat {
    var infos: seq<ColInfo>
    var nextStrPos: map<nat, nat>
    var strFieldStartOffset: nat

    /** Both passes: offsets forwards, then each string's successor backwards. */
    constructor (schema: Schema)
      ensures infos == Infos(schema, |schema|)
      ensures strFieldStartOffset == StrStart(schema)
      ensures forall k :: k in nextStrPos <==> 0 <= k < StrCount(schema)
      ensures forall k :: k in nextStrPos ==> nextStrPos[k] == Successor(k, StrCount(schema))
    {
      var next: map<nat, nat> := map[];
      var offset, strings, cols := HEADER_LENGTH + BitMapSize(|schema|), 0, [];
      for i := 0 to |schema|
        invariant offset == FieldOffset(schema, i) && strings == StrIndex(schema, i)
        invariant cols == Infos(schema, i)
        invariant forall k :: k in next <==> 0 <= k < strings
        invariant forall k :: k in next ==> next[k] == k
      {
        if schema[i] == Varchar {
          cols := cols + [ColInfo(schema[i], i, strings)];
          next := next[strings := strings];
          strings := strings + 1;
        } else if InSizeMap(schema[i]) {
          cols := cols + [ColInfo(schema[i], i, offset)];
          offset := offset + TypeSize(schema[i]);
        }
      }
      var nextPos, k := 0, strings;
      while k > 0
        invariant 0 <= k <= strings
        invariant nextPos == if k < strings then k else 0
        invariant forall j :: j in next <==> 0 <= j < strings
        invariant forall j :: j in next ==> next[j] == if j < k then j else Successor(j, strings)
      {
        k := k - 1;
        var tmp := next[k];
        next := next[k := nextPos];
        nextPos := tmp;
      }
      infos, nextStrPos, strFieldStartOffset := cols, next, offset;
    }
  }

  function Infos(schema: Schema, i: nat): seq<ColInfo>
    requires i <= |schema|
  {
    if i == 0 then []
    else if schema[i - 1] == Varchar || InSizeMap(schema[i - 1])
    then Infos(schema, i - 1) + [ColInfo(schema[i - 1], i - 1, Place(schema, i - 1))]
    else Infos(schema, i - 1)
  }

  /** The format describes every column of a supported schema with the offset that the row view uses. */
  lemma {:induction false} FormatAgreesWithView(schema: Schema, i: nat)
    requires Supported(schema) && i <= |schema|
    ensures |Infos(schema, i)| == |Offsets(schema, i)| == i
    ensures forall j :: 0 <= j < i ==> Infos(schema, i)[j] == ColInfo(schema[j], j, Offsets(schema, i)[j])
  {
    if i > 0 {
      FormatAgreesWithView(schema, i - 1);
      OffsetsArePlaces(schema, i);
    }
  }
}
