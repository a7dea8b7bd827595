/**
 `RowSelector`: projects columns of a multi-slice row into a new row, through row views and one
 reused builder.
 */
module RowSelecting {
  import opened Bytes
  import opened RowLayout
  import opened RowImage
  import opened RowWrites
  import opened RowReading
  import opened RowBuilding
  import opened RowViewing

  datatype Index = Index(schemaIdx: nat, colIdx: nat)

  // ----- what a selection means -----

  predicate InSchemas(schemas: seq<Schema>, p: Index) {
    p.schemaIdx < |schemas| && p.colIdx < |schemas[p.schemaIdx]|
  }

  /** The types of the selected columns; indices that name no column are skipped. */
  function TargetSchema(schemas: seq<Schema>, indices: seq<Index>, n: nat): Schema
    requires n <= |indices|
  {
    if n == 0 then []
    else if InSchemas(schemas, indices[n - 1]) then
      TargetSchema(schemas, indices, n - 1) + [schemas[indices[n - 1].schemaIdx][indices[n - 1].colIdx]]
    else TargetSchema(schemas, indices, n - 1)
  }

  /** The values of the slices of one row. */
  ghost predicate SliceValues(schemas: seq<Schema>, vals: seq<seq<Value>>) {
    && |vals| == |schemas|
    && forall k :: 0 <= k < |schemas| ==> |vals[k]| == |schemas[k]| && Fitting(schemas[k], vals[k])
  }

  /** The selected values. */
  ghost function Selected(schemas: seq<Schema>, vals: seq<seq<Value>>, indices: seq<Index>, n: nat): seq<Value>
    requires SliceValues(schemas, vals) && n <= |indices|
  {
    if n == 0 then []
    else if InSchemas(schemas, indices[n - 1]) then
      Selected(schemas, vals, indices, n - 1) + [vals[indices[n - 1].schemaIdx][indices[n - 1].colIdx]]
    else Selected(schemas, vals, indices, n - 1)
  }

  lemma {:induction false} SelectedFits(schemas: seq<Schema>, vals: seq<seq<Value>>, indices: seq<Index>, n: nat)
    requires SliceValues(schemas, vals) && n <= |indices|
    ensures |Selected(schemas, vals, indices, n)| == |TargetSchema(schemas, indices, n)|
    ensures Fitting(TargetSchema(schemas, indices, n), Selected(schemas, vals, indices, n))
  {
    if n > 0 {
      SelectedFits(schemas, vals, indices, n - 1);
    }
  }

  /** When every index names a column, column `j` of the selection is the column that index `j` names. */
  lemma {:induction false} SelectedAt(schemas: seq<Schema>, vals: seq<seq<Value>>, indices: seq<Index>, n: nat)
    requires SliceValues(schemas, vals) && n <= |indices|
    requires forall j :: 0 <= j < n ==> InSchemas(schemas, indices[j])
    ensures |Selected(schemas, vals, indices, n)| == n
    ensures forall j :: 0 <= j < n ==>
              && InSchemas(schemas, indices[j])
              && Selected(schemas, vals, indices, n)[j] == vals[indices[j].schemaIdx][indices[j].colIdx]
  {
    if n > 0 {
      SelectedAt(schemas, vals, indices, n - 1);
    }
  }

  lemma {:induction false} SelectedGrows(schemas: seq<Schema>, vals: seq<seq<Value>>, indices: seq<Index>, n: nat, m: nat)
    requires SliceValues(schemas, vals) && n <= m <= |indices|
    ensures Selected(schemas, vals, indices, n) <= Selected(schemas, vals, indices, m)
    decreases m
  {
    if n < m { SelectedGrows(schemas, vals, indices, n, m - 1); }
  }

  lemma {:induction false} TargetSupported(schemas: seq<Schema>, indices: seq<Index>, n: nat)
    requires n <= |indices| && forall k :: 0 <= k < |schemas| ==> Supported(schemas[k])
    ensures Supported(TargetSchema(schemas, indices, n))
  {
    if n > 0 { TargetSupported(schemas, indices, n - 1); }
  }

  /** Slice `k` of the row is an encoded row of schema `k` with values `vals[k]`. */
  ghost predicate ValidRow(schemas: seq<Schema>, slices: seq<seq<byte>>, vals: seq<seq<Value>>) {
    && SliceValues(schemas, vals) && |slices| == |schemas|
    && forall k :: 0 <= k < |schemas| ==> Encodes(slices[k], schemas[k], vals[k])
  }

  ghost predicate NoOverflow(schemas: seq<Schema>, vals: seq<seq<Value>>, indices: seq<Index>)
    requires SliceValues(schemas, vals)
  {
    var target := TargetSchema(schemas, indices, |indices|);
    StrStart(target) + SelectedBytes(schemas, vals, indices, |indices|) + 4 * StrCount(target) < TWO32
  }

  lemma {:induction false} StrBytesAppend(vals: seq<Value>, v: Value)
    ensures StrBytes(vals + [v], |vals| + 1) == StrBytes(vals, |vals|) + StrLen(v)
  {
    StrBytesOfPrefix(vals, [v], |vals|);
  }

  ghost function SelectedBytes(schemas: seq<Schema>, vals: seq<seq<Value>>, indices: seq<Index>, n: nat): nat
    requires SliceValues(schemas, vals) && n <= |indices|
  {
    var sel := Selected(schemas, vals, indices, n);
    StrBytes(sel, |sel|)
  }

  lemma {:induction false} SelectedBytesStep(schemas: seq<Schema>, vals: seq<seq<Value>>, indices: seq<Index>, n: nat)
    requires SliceValues(schemas, vals) && n < |indices|
    ensures SelectedBytes(schemas, vals, indices, n + 1) == SelectedBytes(schemas, vals, indices, n) +
            if InSchemas(schemas, indices[n]) then StrLen(vals[indices[n].schemaIdx][indices[n].colIdx]) else 0
  {
    if InSchemas(schemas, indices[n]) {
      StrBytesAppend(Selected(schemas, vals, indices, n), vals[indices[n].schemaIdx][indices[n].colIdx]);
    }
  }

  /** The value that index `n` contributes comes next in the whole selection, under its column's type. */
  lemma {:induction false} NextSelected(schemas: seq<Schema>, vals: seq<seq<Value>>, indices: seq<Index>, n: nat)
    requires SliceValues(schemas, vals) && n < |indices| && InSchemas(schemas, indices[n])
    ensures var target, sel := TargetSchema(schemas, indices, |indices|), Selected(schemas, vals, indices, |indices|);
            var i, v := |Selected(schemas, vals, indices, n)|, vals[indices[n].schemaIdx][indices[n].colIdx];
            && i < |sel| == |target| && sel[i] == v && sel[..i] == Selected(schemas, vals, indices, n)
            && Encodable(v, target[i])
  {
    SelectedGrows(schemas, vals, indices, n + 1, |indices|);
    SelectedFits(schemas, vals, indices, n);
    SelectedFits(schemas, vals, indices, |indices|);
    assert Selected(schemas, vals, indices, n) <= Selected(schemas, vals, indices, n + 1);
  }

  predicate Within(indices: seq<Index>, limit: nat, n: nat)
    requires n <= |indices|
  {
    forall j :: 0 <= j < n ==> indices[j].schemaIdx < limit
  }

  /** Every index names one of the first `limit` slices. */
  predicate AllWithin(indices: seq<Index>, limit: nat) {
    Within(indices, limit, |indices|)
  }

  /** Slices that no index refers to do not matter. */
  lemma {:induction false} TargetOfFirst(schemas: seq<Schema>, indices: seq<Index>, limit: nat, n: nat)
    requires limit <= |schemas| && n <= |indices| && AllWithin(indices, limit)
    ensures TargetSchema(schemas[..limit], indices, n) == TargetSchema(schemas, indices, n)
  {
    if n > 0 {
      TargetOfFirst(schemas, indices, limit, n - 1);
      assert indices[n - 1].schemaIdx < limit;
    }
  }

  /** Reading column `j` of a selection is reading the source column that index `j` names, NULLs included. */
  lemma {:induction false} SelectionReadsSource(schemas: seq<Schema>, slices: seq<seq<byte>>, vals: seq<seq<Value>>,
                                                indices: seq<Index>, out: seq<byte>, j: nat)
    requires forall k :: 0 <= k < |schemas| ==> Supported(schemas[k])
    requires ValidRow(schemas, slices, vals) && j < |indices|
    requires forall i :: 0 <= i < |indices| ==> InSchemas(schemas, indices[i])
    requires Encodes(out, TargetSchema(schemas, indices, |indices|), Selected(schemas, vals, indices, |indices|))
    ensures InSchemas(schemas, indices[j])
    ensures var target, k, slice := TargetSchema(schemas, indices, |indices|), indices[j].schemaIdx, slices[indices[j].schemaIdx];
            && Supported(target) && j < |target|
            && |out| >= BodyStart(target, AddrLength(|out|)) && |slice| >= BodyStart(schemas[k], AddrLength(|slice|))
            && ReadColumn(out, target, AddrLength(|out|), j) ==
               ReadColumn(slice, schemas[k], AddrLength(|slice|), indices[j].colIdx)
  {
    hide Encodes;
    SelectedAt(schemas, vals, indices, |indices|);
    SelectedFits(schemas, vals, indices, |indices|);
    TargetSupported(schemas, indices, |indices|);
    var p := indices[j];
    RowReadsBack(out, TargetSchema(schemas, indices, |indices|), Selected(schemas, vals, indices, |indices|), j);
    RowReadsBack(slices[p.schemaIdx], schemas[p.schemaIdx], vals[p.schemaIdx], p.colIdx);
  }

  /** On rows of one slice both overloads of `Select` deliver rows that read alike. */
  lemma {:induction false} OverloadsAgree(schema: Schema, vals: seq<Value>, indices: seq<Index>, many: seq<byte>,
                                          one: seq<byte>, j: nat)
    requires Supported(schema) && SliceValues([schema], [vals])
    requires Encodes(many, TargetSchema([schema], indices, |indices|), Selected([schema], [vals], indices, |indices|))
    requires Encodes(one, TargetSchema([schema], indices, |indices|), Selected([schema][..1], [vals], indices, |indices|))
    requires j < |TargetSchema([schema], indices, |indices|)|
    ensures var target := TargetSchema([schema], indices, |indices|);
            && Supported(target) && |many| >= BodyStart(target, AddrLength(|many|)) && |one| >= BodyStart(target, AddrLength(|one|))
            && ReadColumn(many, target, AddrLength(|many|), j) == ReadColumn(one, target, AddrLength(|one|), j)
  {
    hide Encodes;
    assert [schema][..1] == [schema];
    TargetSupported([schema], indices, |indices|);
    SelectedFits([schema], [vals], indices, |indices|);
    RowReadsBack(many, TargetSchema([schema], indices, |indices|), Selected([schema], [vals], indices, |indices|), j);
    RowReadsBack(one, TargetSchema([schema], indices, |indices|), Selected([schema], [vals], indices, |indices|), j);
  }

  // ----- the selector -----

  /** The view is set on an encoded row with these values. */
  ghost predicate ViewHolds(view: RowView, schema: Schema, vals: seq<Value>)
    reads view
  {
    && view.schema == schema && view.LaidOut() && view.isValid
    && Encodes(view.row, schema, vals) && view.strAddrLength == AddrLength(|view.row|)
  }

  lemma {:induction false} EncodedHeader(b: seq<byte>, schema: Schema, vals: seq<Value>)
    requires Encodes(b, schema, vals)
    ensures schema != [] && |b| > HEADER_LENGTH && FromLE(b[VERSION_LENGTH..HEADER_LENGTH]) == |b|
  {
    Marks(schema, AddrLength(|b|), 0);
  }

  class RowSelector {
    const schemas: seq<Schema>
    const indices: seq<Index>
    const targetSchema: Schema
    const rowViews: seq<RowView>
    const builder: RowBuilder

    ghost predicate Valid()
      reads this, rowViews, builder
    {
      && |rowViews| == |schemas|
      && (forall k :: 0 <= k < |schemas| ==> rowViews[k].schema == schemas[k] && rowViews[k].LaidOut())
      && (forall j, k :: 0 <= j < k < |rowViews| ==> rowViews[j] != rowViews[k])
      && targetSchema == TargetSchema(schemas, indices, |indices|)
      && builder.schema == targetSchema && builder.LaidOut()
    }

    constructor (schemas: seq<Schema>, indices: seq<Index>)
      requires forall k :: 0 <= k < |schemas| ==> Supported(schemas[k])
      ensures Valid() && this.schemas == schemas && this.indices == indices
      ensures fresh(builder) && forall k :: 0 <= k < |rowViews| ==> fresh(rowViews[k])
    {
      this.schemas, this.indices := schemas, indices;
      var target := [];
      for n := 0 to |indices|
        invariant target == TargetSchema(schemas, indices, n)
      {
        var p := indices[n];
        if p.schemaIdx < |schemas| && p.colIdx < |schemas[p.schemaIdx]| {
          target := target + [schemas[p.schemaIdx][p.colIdx]];
        }
      }
      targetSchema := target;
      TargetSupported(schemas, indices, |indices|);
      var b := new RowBuilder(target);
      var views: seq<RowView> := [];
      for k := 0 to |schemas|
        invariant |views| == k && fresh(b) && b.LaidOut() && b.schema == target
        invariant forall j :: 0 <= j < k ==> fresh(views[j]) && views[j].schema == schemas[j] && views[j].LaidOut()
        invariant forall i, j :: 0 <= i < j < k ==> views[i] != views[j]
      {
        var view := new RowView(schemas[k]);
        views := views + [view];
      }
      rowViews, builder := views, b;
    }

    /** The first `|vals|` views are set on encoded rows with these values. */
    ghost predicate ViewsSet(vals: seq<seq<Value>>)
      reads this, rowViews
    {
      && |vals| <= |schemas| == |rowViews|
      && forall k :: 0 <= k < |vals| ==> ViewHolds(rowViews[k], schemas[k], vals[k])
    }

    /** Reads one selected column. */
    method Fetch(p: Index, ghost ss: seq<Schema>, ghost vals: seq<seq<Value>>) returns (got: Got)
      requires ViewsSet(vals) && ss == schemas[..|vals|] && SliceValues(ss, vals) && InSchemas(ss, p)
      ensures got == AsGot(vals[p.schemaIdx][p.colIdx])
    {
      var view := rowViews[p.schemaIdx];
      assert ViewHolds(view, schemas[p.schemaIdx], vals[p.schemaIdx]);
      view.ReadsEncodedRow(vals[p.schemaIdx], p.colIdx);
      got := view.Get(p.colIdx);
    }

    /** The length of the string that index `p` selects; zero for anything else. */
    method SelectedLength(p: Index, ghost ss: seq<Schema>, ghost vals: seq<seq<Value>>) returns (len: nat)
      requires ViewsSet(vals) && ss == schemas[..|vals|] && SliceValues(ss, vals) && p.schemaIdx < |ss|
      ensures len == if InSchemas(ss, p) then StrLen(vals[p.schemaIdx][p.colIdx]) else 0
    {
      len := 0;
      if p.colIdx < |schemas[p.schemaIdx]| {
        var got := Fetch(p, ss, vals);
        if got.Got? {
          len := StrLen(got.value);
        }
      }
    }

    /** The first pass: every index must name a slice; the lengths of the selected strings add up. */
    method StringSize(limit: nat, ghost ss: seq<Schema>, ghost vals: seq<seq<Value>>) returns (ok: bool, strSize: nat)
      requires limit == |vals| <= |schemas| && ss == schemas[..limit] && ViewsSet(vals) && SliceValues(ss, vals)
      ensures ok <==> AllWithin(indices, limit)
      ensures ok ==> strSize == SelectedBytes(ss, vals, indices, |indices|)
    {
      hide ViewHolds;
      strSize := 0;
      for n := 0 to |indices|
        invariant Within(indices, limit, n)
        invariant strSize == SelectedBytes(ss, vals, indices, n)
      {
        if indices[n].schemaIdx >= limit {
          return false, 0;
        }
        SelectedBytesStep(ss, vals, indices, n);
        var len := SelectedLength(indices[n], ss, vals);
        strSize := strSize + len;
      }
      ok := true;
    }

    /** One append of the second pass. */
    method AppendOne(n: nat, ghost ss: seq<Schema>, ghost vals: seq<seq<Value>>, ghost sel: seq<Value>)
      requires |vals| <= |schemas| && ss == schemas[..|vals|] && ViewsSet(vals) && SliceValues(ss, vals)
      requires n < |indices| && indices[n].schemaIdx < |vals|
      requires builder.Ready() && builder.vals == Selected(ss, vals, indices, n)
      requires builder.schema == TargetSchema(ss, indices, |indices|) && sel == Selected(ss, vals, indices, |indices|)
      requires BodyOffset(builder.schema, builder.strAddrLength, sel, |sel|) <= builder.size
      modifies builder, builder.buf
      ensures builder.Ready() && builder.vals == Selected(ss, vals, indices, n + 1)
      ensures builder.buf == old(builder.buf) && builder.size == old(builder.size)
    {
      var p := indices[n];
      if p.colIdx >= |schemas[p.schemaIdx]| {
        return;
      }
      NextSelected(ss, vals, indices, n);
      PrefixFits(builder.schema, builder.strAddrLength, sel, builder.cnt);
      var got := Fetch(p, ss, vals);
      var ok := AppendValue(builder, if got.Got? then got.value else Null);
    }

    /** The second pass: one append per selected column. */
    method AppendSelected(ghost ss: seq<Schema>, ghost vals: seq<seq<Value>>, ghost sel: seq<Value>)
      requires |vals| <= |schemas| && ss == schemas[..|vals|] && AllWithin(indices, |vals|)
      requires ViewsSet(vals) && SliceValues(ss, vals)
      requires builder.Ready() && builder.vals == []
      requires builder.schema == TargetSchema(ss, indices, |indices|) && sel == Selected(ss, vals, indices, |indices|)
      requires BodyOffset(builder.schema, builder.strAddrLength, sel, |sel|) <= builder.size
      modifies builder, builder.buf
      ensures builder.Ready() && builder.vals == sel
      ensures builder.buf == old(builder.buf) && builder.size == old(builder.size)
    {
      hide Filled;
      hide ViewHolds;
      for n := 0 to |indices|
        invariant builder.Ready() && builder.buf == old(builder.buf) && builder.size == old(builder.size)
        invariant builder.vals == Selected(ss, vals, indices, n)
        invariant ViewsSet(vals)
      {
        AppendOne(n, ss, vals, sel);
      }
    }

    /** Sizes and fills the target row. */
    method Emit(strSize: nat, ghost ss: seq<Schema>, ghost vals: seq<seq<Value>>, ghost sel: seq<Value>)
      returns (out: array<byte>)
      requires |vals| <= |schemas| && ss == schemas[..|vals|] && AllWithin(indices, |vals|)
      requires ViewsSet(vals) && SliceValues(ss, vals) && sel == Selected(ss, vals, indices, |indices|)
      requires builder.LaidOut() && builder.schema == TargetSchema(ss, indices, |indices|) != []
      requires strSize == StrBytes(sel, |sel|)
      requires StrStart(builder.schema) + strSize + 4 * StrCount(builder.schema) < TWO32
      modifies builder
      ensures builder.LaidOut() && fresh(out) && Encodes(out[..], builder.schema, sel)
    {
      hide ViewHolds;
      SelectedFits(ss, vals, indices, |indices|);
      BuilderWidthIsRederived(builder.schema, strSize);
      var size := builder.CalTotalLength(strSize);
      SlotsGrowWithWidth(StrCount(builder.schema), AddrLength(size));
      out := new byte[size];
      var accepted := builder.SetBuffer(out, size);
      AppendSelected(ss, vals, sel);
    }

    /** Both passes over views that are already set. */
    method Project(limit: nat, ghost ss: seq<Schema>, ghost vals: seq<seq<Value>>) returns (ok: bool, out: array<byte>)
      requires Valid() && limit == |vals| <= |schemas| && ss == schemas[..limit]
      requires ViewsSet(vals) && SliceValues(ss, vals) && NoOverflow(ss, vals, indices)
      modifies builder
      ensures Valid() && fresh(out)
      ensures ok <==> AllWithin(indices, limit)
      ensures ok && targetSchema == [] ==> out.Length == 0
      ensures ok && targetSchema != [] ==> Encodes(out[..], targetSchema, Selected(ss, vals, indices, |indices|))
    {
      hide ViewHolds;
      var strSize;
      ok, strSize := StringSize(limit, ss, vals);
      if !ok {
        out := new byte[0];
        return;
      }
      TargetOfFirst(schemas, indices, limit, |indices|);
      if targetSchema == [] {
        // CalTotalLength is zero, and SetBuffer refuses the empty buffer.
        out := new byte[0];
        var accepted := builder.SetBuffer(out, 0);
      } else {
        out := Emit(strSize, ss, vals, Selected(ss, vals, indices, |indices|));
      }
    }

    method SetViews(slices: seq<seq<byte>>, ghost vals: seq<seq<Value>>)
      requires Valid() && |slices| == |vals| <= |schemas|
      requires forall k :: 0 <= k < |slices| ==> Encodes(slices[k], schemas[k], vals[k])
      modifies rowViews
      ensures Valid() && ViewsSet(vals)
    {
      hide Supported;
      hide Encodes;
      for i := 0 to |slices|
        invariant Valid()
        invariant forall k :: 0 <= k < i ==> ViewHolds(rowViews[k], schemas[k], vals[k])
      {
        EncodedHeader(slices[i], schemas[i], vals[i]);
        var reset := rowViews[i].Reset(slices[i], |slices[i]|);
      }
    }

    /** `Select` on a row of several slices. */
    method Select(slices: seq<seq<byte>>, ghost vals: seq<seq<Value>>) returns (ok: bool, out: array<byte>)
      requires Valid()
      requires |slices| == |schemas| ==> ValidRow(schemas, slices, vals) && NoOverflow(schemas, vals, indices)
      modifies rowViews, builder
      ensures Valid() && fresh(out)
      ensures ok <==> |slices| == |schemas| && AllWithin(indices, |schemas|)
      ensures ok && targetSchema == [] ==> out.Length == 0
      ensures ok && targetSchema != [] ==> Encodes(out[..], targetSchema, Selected(schemas, vals, indices, |indices|))
    {
      hide ViewHolds;
      if |slices| != |rowViews| {
        out := new byte[0];
        return false, out;
      }
      SetViews(slices, vals);
      assert schemas[..|schemas|] == schemas;
      ok, out := Project(|schemas|, schemas, vals);
    }

    /** `Select` on a single slice: only the first view is used, however many there are. */
    method SelectSlice(slice: seq<byte>, ghost vals: seq<Value>) returns (ok: bool, out: array<byte>)
      requires Valid()
      requires |schemas| >= 1 ==> ValidRow(schemas[..1], [slice], [vals]) && NoOverflow(schemas[..1], [vals], indices)
      modifies rowViews, builder
      ensures Valid() && fresh(out)
      ensures ok <==> |schemas| >= 1 && AllWithin(indices, 1)
      ensures ok && targetSchema == [] ==> out.Length == 0
      ensures ok && targetSchema != [] ==> Encodes(out[..], targetSchema, Selected(schemas[..1], [vals], indices, |indices|))
    {
      if |rowViews| < 1 {
        out := new byte[0];
        return false, out;
      }
      SetViews([slice], [vals]);
      ok, out := Project(1, schemas[..1], [vals]);
    }
  }
}
