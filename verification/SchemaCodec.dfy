/**
 `SchemaCodec`: a schema as bytes - a 16-bit column count, then for each column its constant flag,
 its type, its name's length and its name.
 */
module SchemaCodec {
  import opened Bytes

  const MAX_ROW_BYTE_SIZE := 1024 * 1024
  const FIELD_BYTE_SIZE := 3
  const HEADER_SIZE := 2

  /** `Type_IsValid`: the numbers that the type enumeration defines. */
  predicate TypeIsValid(t: int) {
    t in {0, 1, 3, 5, 7, 8, 9, 10, 11, 12, 101}
  }

  type TypeId = t: byte | TypeIsValid(t)

  datatype ColumnDef = ColumnDef(name: seq<byte>, colType: TypeId, isConstant: bool)

  // ----- the format -----

  function ColumnBytes(c: ColumnDef): (s: seq<byte>)
    ensures |s| == FIELD_BYTE_SIZE + |c.name|
  {
    [if c.isConstant then 1 else 0, c.colType, |c.name| % 256] + c.name
  }

  /** The columns from `i` on. */
  function Body(schema: seq<ColumnDef>, i: nat): seq<byte>
    requires i <= |schema|
    decreases |schema| - i
  {
    if i == |schema| then [] else ColumnBytes(schema[i]) + Body(schema, i + 1)
  }

  /** The encoding; the count wraps around at 2^16. */
  function Image(schema: seq<ColumnDef>): seq<byte> {
    ToLE(|schema| % 0x1_0000, 2) + Body(schema, 0)
  }

  predicate ShortNames(schema: seq<ColumnDef>) {
    forall i :: 0 <= i < |schema| ==> |schema[i].name| < 128
  }

  function Size(schema: seq<ColumnDef>, n: nat): nat
    requires n <= |schema|
  {
    if n == 0 then HEADER_SIZE else Size(schema, n - 1) + FIELD_BYTE_SIZE + |schema[n - 1].name|
  }

  method GetSize(schema: seq<ColumnDef>) returns (size: nat)
    ensures size == Size(schema, |schema|)
  {
    size := HEADER_SIZE;
    for i := 0 to |schema|
      invariant size == Size(schema, i)
    {
      size := size + (FIELD_BYTE_SIZE + |schema[i].name|);
    }
  }

  lemma {:induction false} BodySize(schema: seq<ColumnDef>, i: nat)
    requires i <= |schema|
    ensures Size(schema, i) + |Body(schema, i)| == Size(schema, |schema|)
    decreases |schema| - i
  {
    if i < |schema| { BodySize(schema, i + 1); }
  }

  /** `GetSize` is the exact length of the encoding. */
  lemma {:induction false} ImageSize(schema: seq<ColumnDef>)
    ensures |Image(schema)| == Size(schema, |schema|)
  {
    BodySize(schema, 0);
  }

  lemma {:induction false} SizeGrows(schema: seq<ColumnDef>, i: nat, j: nat)
    requires i <= j <= |schema|
    ensures Size(schema, i) <= Size(schema, j)
    decreases j
  {
    if i < j { SizeGrows(schema, i, j - 1); }
  }

  // ----- encoding -----

  /** The bytes written for the first `n` columns are followed by the encoding of the rest. */
  ghost predicate Written(buf: seq<byte>, schema: seq<ColumnDef>, n: nat)
    requires n <= |schema|
  {
    Size(schema, n) <= |buf| && buf[..Size(schema, n)] + Body(schema, n) == Image(schema)
  }

  lemma {:induction false} WriteColumn(buf: seq<byte>, schema: seq<ColumnDef>, n: nat)
    requires n < |schema| && Written(buf, schema, n) && |schema[n].name| < 128
    requires Size(schema, n + 1) <= |buf|
    ensures Written(WriteAt(buf, Size(schema, n), ColumnBytes(schema[n])), schema, n + 1)
  {
    var off, data := Size(schema, n), ColumnBytes(schema[n]);
    var after := WriteAt(buf, off, data);
    assert after[..off + |data|] == buf[..off] + data;
    assert (buf[..off] + data) + Body(schema, n + 1) == buf[..off] + (data + Body(schema, n + 1));
  }

  /** The first column from `i` on whose name is too long. */
  function FirstLong(schema: seq<ColumnDef>, i: nat): (k: nat)
    requires i <= |schema|
    ensures i <= k <= |schema| && (k < |schema| ==> |schema[k].name| >= 128)
    ensures forall j :: i <= j < k ==> |schema[j].name| < 128
    decreases |schema| - i
  {
    if i == |schema| || |schema[i].name| >= 128 then i else FirstLong(schema, i + 1)
  }

  /** A buffer cut or filled up with zeros to `size` bytes. */
  function Resized(buffer: seq<byte>, size: nat): (r: seq<byte>)
    ensures |r| == size
  {
    seq(size, i requires 0 <= i < size => if i < |buffer| then buffer[i] else 0)
  }

  /** The buffer is written up to the flag and the type of column `k`, and as it was from there on. */
  ghost predicate CutAt(buf: seq<byte>, was: seq<byte>, schema: seq<ColumnDef>, k: nat) {
    && k < |schema| && Size(schema, k) + 2 <= |Image(schema)| && Size(schema, k) + 2 <= |was|
    && buf == Image(schema)[..Size(schema, k) + 2] + was[Size(schema, k) + 2..]
  }

  /** The flag and the type of a column whose name is too long are written before the name is looked at. */
  lemma {:induction false} WriteHead(buf: seq<byte>, was: seq<byte>, schema: seq<ColumnDef>, n: nat, head: seq<byte>)
    requires n < |schema| && WrittenSoFar(buf, was, schema, n) && Size(schema, n + 1) <= |buf|
    requires head == ColumnBytes(schema[n])[..2]
    ensures CutAt(WriteAt(buf, Size(schema, n), head), was, schema, n)
  {
    var off := Size(schema, n);
    assert Image(schema) == buf[..off] + (ColumnBytes(schema[n]) + Body(schema, n + 1));
    assert Image(schema)[..off + 2] == buf[..off] + head;
    assert buf[off + 2..] == buf[off..][2..] && was[off + 2..] == was[off..][2..];
  }

  /**
   An empty schema leaves the buffer alone; a large schema is an error that does too; a long name is an
   error that leaves the buffer resized and written up to that column's flag and type.
   */
  method Encode(schema: seq<ColumnDef>, buffer: seq<byte>) returns (ok: bool, out: seq<byte>)
    ensures ok <==> schema == [] || (Size(schema, |schema|) <= 0x10_0000 && ShortNames(schema))
    ensures ok ==> out == if schema == [] then buffer else Image(schema)
    ensures !ok && Size(schema, |schema|) > 0x10_0000 ==> out == buffer
    ensures !ok && Size(schema, |schema|) <= 0x10_0000 ==>
              CutAt(out, Resized(buffer, Size(schema, |schema|)), schema, FirstLong(schema, 0))
  {
    if schema == [] {
      return true, buffer;
    }
    var size := GetSize(schema);
    if size > MAX_ROW_BYTE_SIZE {
      return false, buffer;
    }
    var buf := new byte[size](i requires 0 <= i => if i < |buffer| then buffer[i] else 0);
    assert buf[..] == Resized(buffer, size);
    ImageSize(schema);
    ok := WriteColumns(buf, schema);
    out := buf[..];
  }

  /** The stores into the resized buffer. */
  method WriteColumns(buf: array<byte>, schema: seq<ColumnDef>) returns (ok: bool)
    requires buf.Length == Size(schema, |schema|)
    modifies buf
    ensures ok <==> ShortNames(schema)
    ensures ok ==> buf[..] == Image(schema)
    ensures !ok ==> CutAt(buf[..], old(buf[..]), schema, FirstLong(schema, 0))
  {
    hide ColumnBytes;
    hide Image;
    hide FirstLong;
    hide ToLE;
    hide CutAt;
    ghost var was := buf[..];
    SizeGrows(schema, 0, |schema|);
    Store(buf, 0, ToLE(|schema| % 0x1_0000, 2));
    var pos := 2;
    HeaderWritten(buf[..], was, schema);
    hide WriteAt;
    hide WrittenSoFar;
    for i := 0 to |schema|
      invariant pos == Size(schema, i) && WrittenSoFar(buf[..], was, schema, i) && FirstLong(schema, 0) >= i
    {
      SizeGrows(schema, i + 1, |schema|);
      var c := schema[i];
      if |c.name| >= 128 {
        var head := [if c.isConstant then 1 else 0, c.colType];
        HeadOf(c, head);
        WriteHead(buf[..], was, schema, i, head);
        Store(buf, pos, head);
        return false;
      }
      WriteNext(buf[..], was, schema, i);
      Store(buf, pos, ColumnBytes(c));
      pos := pos + FIELD_BYTE_SIZE + |c.name|;
    }
    ok := true;
  }

  /** The first `n` columns are written, and what follows is as it was. */
  ghost predicate WrittenSoFar(buf: seq<byte>, was: seq<byte>, schema: seq<ColumnDef>, n: nat)
    requires n <= |schema|
  {
    Written(buf, schema, n) && |buf| == |was| && buf[Size(schema, n)..] == was[Size(schema, n)..]
  }

  lemma {:induction false} WriteNext(buf: seq<byte>, was: seq<byte>, schema: seq<ColumnDef>, n: nat)
    requires n < |schema| && WrittenSoFar(buf, was, schema, n) && |schema[n].name| < 128 && Size(schema, n + 1) <= |buf|
    ensures WrittenSoFar(WriteAt(buf, Size(schema, n), ColumnBytes(schema[n])), was, schema, n + 1)
  {
    WriteColumn(buf, schema, n);
  }

  lemma {:induction false} HeadOf(c: ColumnDef, head: seq<byte>)
    requires head == [if c.isConstant then 1 else 0, c.colType]
    ensures head == ColumnBytes(c)[..2]
  {
  }

  lemma {:induction false} HeaderWritten(buf: seq<byte>, was: seq<byte>, schema: seq<ColumnDef>)
    requires |was| >= 2 && buf == WriteAt(was, 0, ToLE(|schema| % 0x1_0000, 2))
    ensures WrittenSoFar(buf, was, schema, 0)
  {
    assert buf[..2] == ToLE(|schema| % 0x1_0000, 2);
  }

  // ----- decoding -----

  datatype Decoded = Decoded(ok: bool, schema: seq<ColumnDef>)

  /** The column loop, from position `pos`: trailing bytes too few for a column header are ignored. */
  function DecodeFrom(buf: seq<byte>, pos: nat, acc: seq<ColumnDef>): Decoded
    decreases |buf| - pos
  {
    if pos >= |buf| || |buf| - pos < FIELD_BYTE_SIZE then Decoded(true, acc)
    else if !TypeIsValid(buf[pos + 1]) then Decoded(false, acc)
    else
      var total := FIELD_BYTE_SIZE + buf[pos + 2];
      if |buf| - pos < total then Decoded(false, acc)
      else DecodeFrom(buf, pos + total, acc + [ColumnDef(buf[pos + 3..pos + total], buf[pos + 1], buf[pos] == 1)])
  }

  /** The columns are added to `schema`; the stored count only reserves space. */
  method Decode(buf: seq<byte>, schema: seq<ColumnDef>) returns (ok: bool, out: seq<ColumnDef>)
    ensures Decoded(ok, out) == if |buf| == 0 then Decoded(true, schema)
                                else if |buf| < HEADER_SIZE then Decoded(false, schema)
                                else DecodeFrom(buf, HEADER_SIZE, schema)
  {
    out := schema;
    if |buf| == 0 {
      return true, out;
    }
    if |buf| < HEADER_SIZE {
      return false, out;
    }
    var pos := HEADER_SIZE;
    while pos < |buf|
      invariant HEADER_SIZE <= pos <= |buf|
      invariant DecodeFrom(buf, pos, out) == DecodeFrom(buf, HEADER_SIZE, schema)
    {
      if |buf| - pos < FIELD_BYTE_SIZE {
        break;
      }
      if !TypeIsValid(buf[pos + 1]) {
        return false, out;
      }
      var total := FIELD_BYTE_SIZE + buf[pos + 2];
      if |buf| - pos < total {
        return false, out;
      }
      out := out + [ColumnDef(buf[pos + 3..pos + total], buf[pos + 1], buf[pos] == 1)];
      pos := pos + total;
    }
    ok := true;
  }

  // ----- what decoding accepts -----

  /** A column as stored: any flag, and a name of up to 255 bytes. */
  datatype Stored = Stored(flag: byte, colType: TypeId, name: seq<byte>)

  function StoredBytes(cols: seq<Stored>): seq<byte> {
    if cols == [] then []
    else [cols[0].flag, cols[0].colType, |cols[0].name| % 256] + cols[0].name + StoredBytes(cols[1..])
  }

  function Columns(cols: seq<Stored>): (defs: seq<ColumnDef>)
    ensures |defs| == |cols|
    ensures forall i :: 0 <= i < |cols| ==> defs[i] == ColumnDef(cols[i].name, cols[i].colType, cols[i].flag == 1)
  {
    seq(|cols|, i requires 0 <= i < |cols| => ColumnDef(cols[i].name, cols[i].colType, cols[i].flag == 1))
  }

  /** `s` is whole columns of valid types, followed by fewer than three bytes. */
  ghost predicate WholeColumns(s: seq<byte>, cols: seq<Stored>, rest: seq<byte>) {
    && (forall i :: 0 <= i < |cols| ==> |cols[i].name| < 256)
    && |rest| < 3 && s == StoredBytes(cols) + rest
  }

  lemma {:induction false} DecodesWhole(buf: seq<byte>, pos: nat, cols: seq<Stored>, rest: seq<byte>, acc: seq<ColumnDef>)
    requires pos <= |buf| && WholeColumns(buf[pos..], cols, rest)
    ensures DecodeFrom(buf, pos, acc) == Decoded(true, acc + Columns(cols))
    decreases |cols|
  {
    hide DecodeFrom;
    if cols == [] {
      assert StoredBytes(cols) + rest == rest && acc + Columns(cols) == acc;
      Leftover(buf, pos, acc);
    } else {
      var c, after := cols[0], StoredBytes(cols[1..]) + rest;
      WholeCons(buf[pos..], cols, rest);
      hide StoredBytes;
      hide WholeColumns;
      hide Columns;
      FirstStored(buf, pos, c, after, acc);
      DecodesWhole(buf, pos + 3 + |c.name|, cols[1..], rest, acc + [ColumnDef(c.name, c.colType, c.flag == 1)]);
      ColumnsCons(cols, acc);
    }
  }

  lemma {:induction false} Leftover(buf: seq<byte>, pos: nat, acc: seq<ColumnDef>)
    requires pos <= |buf| < pos + 3
    ensures DecodeFrom(buf, pos, acc) == Decoded(true, acc)
  {
  }

  lemma {:induction false} WholeCons(s: seq<byte>, cols: seq<Stored>, rest: seq<byte>)
    requires WholeColumns(s, cols, rest) && cols != []
    ensures var c, after := cols[0], StoredBytes(cols[1..]) + rest;
            && |c.name| < 256 && s == [c.flag, c.colType, |c.name| % 256] + c.name + after
            && WholeColumns(after, cols[1..], rest)
  {
    var c := cols[0];
    var head := [c.flag, c.colType, |c.name| % 256] + c.name;
    assert (head + StoredBytes(cols[1..])) + rest == head + (StoredBytes(cols[1..]) + rest);
  }

  lemma {:induction false} ColumnsCons(cols: seq<Stored>, acc: seq<ColumnDef>)
    requires cols != []
    ensures var c := cols[0];
            acc + Columns(cols) == (acc + [ColumnDef(c.name, c.colType, c.flag == 1)]) + Columns(cols[1..])
  {
  }

  lemma {:induction false} FirstStored(buf: seq<byte>, pos: nat, c: Stored, after: seq<byte>, acc: seq<ColumnDef>)
    requires pos <= |buf| && |c.name| < 256 && buf[pos..] == [c.flag, c.colType, |c.name| % 256] + c.name + after
    ensures pos + 3 + |c.name| <= |buf| && buf[pos + 3 + |c.name|..] == after
    ensures DecodeFrom(buf, pos, acc) ==
            DecodeFrom(buf, pos + 3 + |c.name|, acc + [ColumnDef(c.name, c.colType, c.flag == 1)])
  {
    var s, total := buf[pos..], 3 + |c.name|;
    assert buf[pos] == s[0] && buf[pos + 1] == s[1] && buf[pos + 2] == s[2];
    assert buf[pos + 3..pos + total] == s[3..total] == c.name;
    assert buf[pos + total..] == s[total..] == after;
  }

  lemma {:induction false} DecodedIsWhole(buf: seq<byte>, pos: nat, acc: seq<ColumnDef>) returns (cols: seq<Stored>, rest: seq<byte>)
    requires pos <= |buf| && DecodeFrom(buf, pos, acc).ok
    ensures WholeColumns(buf[pos..], cols, rest)
    decreases |buf| - pos
  {
    if |buf| - pos < 3 {
      cols, rest := [], buf[pos..];
    } else {
      var total := FIELD_BYTE_SIZE + buf[pos + 2];
      var c := Stored(buf[pos], buf[pos + 1], buf[pos + 3..pos + total]);
      var tail;
      tail, rest := DecodedIsWhole(buf, pos + total, acc + [ColumnDef(c.name, c.colType, c.flag == 1)]);
      cols := [c] + tail;
      assert cols[1..] == tail;
      assert buf[pos..] == [c.flag, c.colType, |c.name| % 256] + c.name + buf[pos + total..];
    }
  }

  /** Decoding succeeds if and only if that is what it finds, and delivers exactly those columns. */
  lemma {:induction false} DecodesIff(buf: seq<byte>, pos: nat, acc: seq<ColumnDef>)
    requires pos <= |buf|
    ensures DecodeFrom(buf, pos, acc).ok <==> exists cols, rest :: WholeColumns(buf[pos..], cols, rest)
    ensures forall cols, rest :: WholeColumns(buf[pos..], cols, rest) ==>
              DecodeFrom(buf, pos, acc) == Decoded(true, acc + Columns(cols))
  {
    forall cols, rest | WholeColumns(buf[pos..], cols, rest)
      ensures DecodeFrom(buf, pos, acc) == Decoded(true, acc + Columns(cols))
    {
      DecodesWhole(buf, pos, cols, rest, acc);
    }
    if DecodeFrom(buf, pos, acc).ok {
      var cols, rest := DecodedIsWhole(buf, pos, acc);
    }
  }

  // ----- round trip -----

  /** One column, byte by byte. */
  lemma {:induction false} ExampleImage()
    ensures Image([ColumnDef([97, 98], 3, true)]) == [1, 0, 1, 3, 2, 97, 98]
  {
    var c := ColumnDef([97, 98], 3, true);
    assert Body([c], 1) == [];
    assert Body([c], 0) == ColumnBytes(c);
    assert ToLE(1, 2) == [1] + ToLE(0, 1) && ToLE(0, 1) == [0] + ToLE(0, 0);
  }

  lemma {:induction false} DecodeColumn(before: seq<byte>, c: ColumnDef, after: seq<byte>, acc: seq<ColumnDef>)
    requires |c.name| < 128
    ensures DecodeFrom(before + (ColumnBytes(c) + after), |before|, acc) ==
            DecodeFrom(before + (ColumnBytes(c) + after), |before| + 3 + |c.name|, acc + [c])
  {
    var buf, pos := before + (ColumnBytes(c) + after), |before|;
    assert buf[pos] == ColumnBytes(c)[0] && buf[pos + 1] == ColumnBytes(c)[1] && buf[pos + 2] == ColumnBytes(c)[2];
    assert buf[pos + 3..pos + 3 + |c.name|] == c.name;
  }

  lemma {:induction false} DecodeEnd(buf: seq<byte>, acc: seq<ColumnDef>)
    ensures DecodeFrom(buf, |buf|, acc) == Decoded(true, acc)
  {
  }

  lemma {:induction false} DecodeBody(before: seq<byte>, schema: seq<ColumnDef>, i: nat)
    requires ShortNames(schema) && i <= |schema|
    ensures DecodeFrom(before + Body(schema, i), |before|, schema[..i]) == Decoded(true, schema)
    decreases |schema| - i
  {
    hide DecodeFrom;
    if i == |schema| {
      assert schema[..i] == schema && before + [] == before;
      DecodeEnd(before, schema);
    } else {
      var c := schema[i];
      assert |ColumnBytes(c)| == 3 + |c.name|;
      DecodeColumn(before, c, Body(schema, i + 1), schema[..i]);
      assert before + (ColumnBytes(c) + Body(schema, i + 1)) == (before + ColumnBytes(c)) + Body(schema, i + 1);
      assert schema[..i + 1] == schema[..i] + [c];
      DecodeBody(before + ColumnBytes(c), schema, i + 1);
    }
  }

  /** Decoding inverts encoding for every schema that can be encoded, however the count wrapped. */
  lemma {:induction false} SchemaRoundTrip(schema: seq<ColumnDef>)
    requires ShortNames(schema)
    ensures |Image(schema)| >= HEADER_SIZE && DecodeFrom(Image(schema), HEADER_SIZE, []) == Decoded(true, schema)
  {
    assert schema[..0] == [];
    DecodeBody(ToLE(|schema| % 0x1_0000, 2), schema, 0);
  }

  /** So two schemas with the same bytes are the same. */
  lemma {:induction false} ImageIsInjective(a: seq<ColumnDef>, b: seq<ColumnDef>)
    requires ShortNames(a) && ShortNames(b) && Image(a) == Image(b)
    ensures a == b
  {
    SchemaRoundTrip(a);
    SchemaRoundTrip(b);
  }
}
