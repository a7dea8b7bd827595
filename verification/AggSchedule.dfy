/**
 `ScheduleAggGenerators`: cuts the aggregated columns, sorted by offset, into runs of up to four
 adjacent columns of one type, and hands every requested aggregate to its column's generator.
 */
module AggSchedule {
  import RowLayout

  datatype NumType = KNull | KInt16 | KInt32 | KInt64 | KFloat | KDouble

  function TypeBytes(t: NumType): nat {
    match t
    case KNull => 0
    case KInt16 => 2
    case KInt32 => 4
    case KInt64 => 8
    case KFloat => 4
    case KDouble => 8
  }

  datatype Func = Sum | Avg | Count | MinOf | MaxOf | UnknownFunc

  /** One request: the aggregate function and the output column it fills. */
  datatype Request = Request(func: Func, out: nat)

  datatype Column = Column(key: string, colType: NumType, offset: nat, requests: seq<Request>)

  /** Output indices per function, for one column of a generator. */
  datatype Outputs = Outputs(sum: seq<nat>, avg: seq<nat>, count: seq<nat>, min: seq<nat>, max: seq<nat>)

  datatype Generator = Generator(colType: NumType, cols: seq<Column>, outs: seq<Outputs>)

  ghost predicate Sorted(cols: seq<Column>) {
    forall i, j :: 0 <= i < j < |cols| ==> cols[i].offset <= cols[j].offset
  }

  /** The output indices that a column requests for `f`, in order. */
  function Requested(rs: seq<Request>, f: Func): seq<nat> {
    if rs == [] then []
    else Requested(rs[..|rs| - 1], f) + if rs[|rs| - 1].func == f then [rs[|rs| - 1].out] else []
  }

  /** Every request of the list appears under its function, and only there. */
  function OutputsOf(rs: seq<Request>): Outputs {
    Outputs(Requested(rs, Sum), Requested(rs, Avg), Requested(rs, Count), Requested(rs, MinOf), Requested(rs, MaxOf))
  }

  predicate AllKnown(rs: seq<Request>) {
    forall i :: 0 <= i < |rs| ==> rs[i].func != UnknownFunc
  }

  /** `next` can follow `last` in one generator. */
  predicate Adjacent(last: Column, next: Column) {
    last.colType == next.colType && next.offset - last.offset == TypeBytes(last.colType)
  }

  ghost predicate GoodRun(cols: seq<Column>) {
    && 1 <= |cols| <= 4
    && forall i :: 0 < i < |cols| ==> Adjacent(cols[i - 1], cols[i])
  }

  ghost predicate GoodGenerator(g: Generator) {
    && GoodRun(g.cols)
    && g.colType == g.cols[0].colType
    && |g.outs| == |g.cols|
    && forall i :: 0 <= i < |g.cols| ==> g.outs[i] == OutputsOf(g.cols[i].requests)
  }

  function Flatten(gens: seq<Generator>): seq<Column> {
    if gens == [] then [] else Flatten(gens[..|gens| - 1]) + gens[|gens| - 1].cols
  }

  /** A run stops only when it is full or the next column does not fit it. */
  ghost predicate Greedy(gens: seq<Generator>) {
    forall k :: 0 < k < |gens| ==> gens[k].cols != [] && Closed(gens[k - 1].cols, gens[k].cols[0])
  }

  predicate Closed(run: seq<Column>, next: Column) {
    run != [] && (|run| == 4 || !Adjacent(run[|run| - 1], next))
  }

  // ----- adjacency in a row -----

  /** The numeric column type of a row column; other types are not aggregated here. */
  function NumTypeOf(t: RowLayout.Type): NumType {
    match t
    case Int16 => KInt16
    case Int32 => KInt32
    case Int64 => KInt64
    case Float => KFloat
    case Double => KDouble
    case _ => KNull
  }

  function ColumnOf(schema: RowLayout.Schema, i: nat, key: string, requests: seq<Request>): Column
    requires i < |schema|
  {
    Column(key, NumTypeOf(schema[i]), RowLayout.FieldOffset(schema, i), requests)
  }

  lemma {:induction false} OnlyStringsBetween(schema: RowLayout.Schema, i: nat, j: nat)
    requires i <= j <= |schema|
    ensures RowLayout.FieldOffset(schema, i) == RowLayout.FieldOffset(schema, j)
       <==> forall k :: i <= k < j ==> !RowLayout.InSizeMap(schema[k])
    decreases j
  {
    if i < j {
      OnlyStringsBetween(schema, i, j - 1);
      RowLayout.FieldsGrow(schema, i, j - 1);
    }
  }

  /** Two numeric columns of a row can share a generator if and only if they have one type and no fixed field lies between them. */
  lemma {:induction false} AdjacentIffNeighbours(schema: RowLayout.Schema, i: nat, j: nat, a: Column, b: Column)
    requires i < j < |schema| && NumTypeOf(schema[i]) != KNull
    requires a == ColumnOf(schema, i, a.key, a.requests) && b == ColumnOf(schema, j, b.key, b.requests)
    ensures Adjacent(a, b) <==> schema[i] == schema[j] && forall k :: i < k < j ==> !RowLayout.InSizeMap(schema[k])
  {
    OnlyStringsBetween(schema, i + 1, j);
  }

  // ----- building one generator -----

  method Register(rs: seq<Request>) returns (ok: bool, outs: Outputs)
    ensures ok <==> AllKnown(rs)
    ensures ok ==> outs == OutputsOf(rs)
  {
    outs := Outputs([], [], [], [], []);
    for j := 0 to |rs|
      invariant AllKnown(rs[..j])
      invariant outs == OutputsOf(rs[..j])
    {
      var f, out := rs[j].func, rs[j].out;
      assert rs[..j + 1][..j] == rs[..j];
      match f {
        case Sum => outs := outs.(sum := outs.sum + [out]);
        case MinOf => outs := outs.(min := outs.min + [out]);
        case MaxOf => outs := outs.(max := outs.max + [out]);
        case Count => outs := outs.(count := outs.count + [out]);
        case Avg => outs := outs.(avg := outs.avg + [out]);
        case UnknownFunc => return false, outs;
      }
    }
    assert rs[..|rs|] == rs;
    ok := true;
  }

  ghost predicate KnownColumns(cols: seq<Column>) {
    forall i :: 0 <= i < |cols| ==> AllKnown(cols[i].requests)
  }

  method MakeGenerator(colType: NumType, cols: seq<Column>) returns (ok: bool, g: Generator)
    ensures ok <==> KnownColumns(cols)
    ensures g.colType == colType && g.cols == cols
    ensures ok ==> |g.outs| == |cols| && forall i :: 0 <= i < |cols| ==> g.outs[i] == OutputsOf(cols[i].requests)
  {
    var outs: seq<Outputs> := [];
    for i := 0 to |cols|
      invariant |outs| == i && KnownColumns(cols[..i])
      invariant forall k :: 0 <= k < i ==> outs[k] == OutputsOf(cols[k].requests)
    {
      var registered, o := Register(cols[i].requests);
      if !registered {
        return false, Generator(colType, cols, outs);
      }
      outs := outs + [o];
    }
    assert cols[..|cols|] == cols;
    return true, Generator(colType, cols, outs);
  }

  // ----- the schedule -----

  /** What the loop keeps: the columns so far are in the finished generators and the open run. */
  ghost predicate Scheduled(gens: seq<Generator>, open: seq<Column>, done: seq<Column>) {
    && Flatten(gens) + open == done
    && (forall k :: 0 <= k < |gens| ==> GoodGenerator(gens[k]) && KnownColumns(gens[k].cols))
    && Greedy(gens)
    && (open != [] ==> GoodRun(open) && (gens != [] ==> Closed(gens[|gens| - 1].cols, open[0])))
  }

  lemma {:induction false} CloseRun(gens: seq<Generator>, open: seq<Column>, done: seq<Column>, g: Generator)
    requires Scheduled(gens, open, done) && open != []
    requires g.cols == open && |g.outs| == |open| && g.colType == open[|open| - 1].colType && KnownColumns(open)
    requires forall i :: 0 <= i < |open| ==> g.outs[i] == OutputsOf(open[i].requests)
    ensures Scheduled(gens + [g], [], done)
  {
    RunHasOneType(open);
    assert (gens + [g])[..|gens|] == gens;
    assert Flatten(gens + [g]) + [] == Flatten(gens) + open;
  }

  lemma {:induction false} ExtendRun(gens: seq<Generator>, open: seq<Column>, done: seq<Column>, c: Column)
    requires Scheduled(gens, open, done) && |open| < 4
    requires open != [] ==> Adjacent(open[|open| - 1], c)
    requires open == [] && gens != [] ==> Closed(gens[|gens| - 1].cols, c)
    ensures Scheduled(gens, open + [c], done + [c])
  {
    assert Flatten(gens) + (open + [c]) == (Flatten(gens) + open) + [c];
  }

  lemma {:induction false} EndSchedule(gens: seq<Generator>, cols: seq<Column>)
    requires Scheduled(gens, [], cols)
    ensures KnownColumns(cols) && Flatten(gens) == cols && Greedy(gens)
    ensures forall k :: 0 <= k < |gens| ==> GoodGenerator(gens[k])
  {
    assert Flatten(gens) + [] == Flatten(gens);
    FlattenKnown(gens);
  }

  /**
   Every column goes to exactly one generator, in offset order; each generator holds one to four
   adjacent columns of one type and no run is cut short; every request is registered once, under its
   function.  Scheduling fails only on an unknown function name.
   */
  method Schedule(cols: seq<Column>) returns (ok: bool, gens: seq<Generator>)
    requires Sorted(cols)
    ensures ok <==> KnownColumns(cols)
    ensures ok ==> Flatten(gens) == cols && Greedy(gens)
    ensures ok ==> forall k :: 0 <= k < |gens| ==> GoodGenerator(gens[k])
  {
    hide Scheduled;
    hide KnownColumns;
    gens := [];
    var idx, curType, open := 0, KNull, [];
    var curOffset: int := -1;
    NothingScheduled(cols);
    while open != [] || idx < |cols|
      invariant 0 <= idx <= |cols| + 1 && (idx > |cols| ==> open == [])
      invariant Scheduled(gens, open, cols[..if idx <= |cols| then idx else |cols|])
      invariant idx <= |cols| ==> (open == [] <==> idx == 0) && (idx == 0 ==> gens == [] && curOffset == -1)
      invariant open != [] ==> |open| <= 4 && curOffset == open[|open| - 1].offset && curType == open[|open| - 1].colType
      decreases |cols| + 1 - idx
    {
      var finish := idx >= |cols|;
      if idx < |cols| {
        if |open| >= 4 {
          finish := true;
        } else if curOffset >= 0 {
          finish := cols[idx].colType != curType || cols[idx].offset - curOffset != TypeBytes(curType);
        }
      }
      ghost var done := cols[..if idx <= |cols| then idx else |cols|];
      if finish {
        var made, g := MakeGenerator(curType, open);
        if !made {
          OpenIsPart(gens, open, cols, |done|);
          return false, gens;
        }
        CloseRun(gens, open, done, g);
        gens := gens + [g];
        open := [];
      }
      if idx < |cols| {
        ExtendRun(gens, open, done, cols[idx]);
        assert cols[..idx + 1] == done + [cols[idx]];
        open := open + [cols[idx]];
        curOffset := cols[idx].offset;
        curType := cols[idx].colType;
      }
      idx := idx + 1;
    }
    assert cols[..|cols|] == cols;
    EndSchedule(gens, cols);
    ok := true;
  }

  lemma {:induction false} NothingScheduled(cols: seq<Column>)
    ensures Scheduled([], [], cols[..0])
  {
  }

  lemma {:induction false} FlattenKnown(gens: seq<Generator>)
    requires forall k :: 0 <= k < |gens| ==> KnownColumns(gens[k].cols)
    ensures KnownColumns(Flatten(gens))
  {
    if gens != [] {
      FlattenKnown(gens[..|gens| - 1]);
    }
  }

  lemma {:induction false} OpenIsPart(gens: seq<Generator>, open: seq<Column>, cols: seq<Column>, n: nat)
    requires n <= |cols| && Scheduled(gens, open, cols[..n]) && !KnownColumns(open)
    ensures !KnownColumns(cols)
  {
    var i :| 0 <= i < |open| && !AllKnown(open[i].requests);
    assert open[i] == (Flatten(gens) + open)[|Flatten(gens)| + i] == cols[|Flatten(gens)| + i];
  }

  lemma {:induction false} RunHasOneType(run: seq<Column>)
    requires GoodRun(run)
    ensures forall i :: 0 <= i < |run| ==> run[i].colType == run[0].colType
  {
    if |run| > 1 { RunHasOneType(run[..|run| - 1]); assert Adjacent(run[|run| - 2], run[|run| - 1]); }
  }

  /** The columns of a generator lie back to back: column `i` starts `i` fields after the first. */
  lemma {:induction false} RunIsContiguous(run: seq<Column>, i: nat)
    requires GoodRun(run) && i < |run|
    ensures run[i].colType == run[0].colType
    ensures run[i].offset == run[0].offset + i * TypeBytes(run[0].colType)
  {
    if i > 0 {
      RunIsContiguous(run, i - 1);
      assert Adjacent(run[i - 1], run[i]);
    }
  }

  /** A request is registered under its function exactly as often as it was made. */
  lemma {:induction false} RegisteredOnce(rs: seq<Request>, f: Func, out: nat)
    ensures multiset(Requested(rs, f))[out] == multiset(rs)[Request(f, out)]
  {
    if rs != [] {
      var n := |rs| - 1;
      RegisteredOnce(rs[..n], f, out);
      RequestedStep(rs, f);
      hide Requested;
      assert rs == rs[..n] + [rs[n]];
    }
  }

  lemma {:induction false} RequestedStep(rs: seq<Request>, f: Func)
    requires rs != []
    ensures var last := rs[|rs| - 1];
            multiset(Requested(rs, f)) ==
            multiset(Requested(rs[..|rs| - 1], f)) + if last.func == f then multiset{last.out} else multiset{}
  {
  }

  // ----- from the unordered map -----

  /** Sorting the keys by offset. */
  method SortByOffset(cols: seq<Column>) returns (sorted: seq<Column>)
    ensures Sorted(sorted) && multiset(sorted) == multiset(cols)
  {
    sorted := [];
    for i := 0 to |cols|
      invariant Sorted(sorted) && multiset(sorted) == multiset(cols[..i])
    {
      var k := |sorted|;
      while k > 0 && sorted[k - 1].offset > cols[i].offset
        invariant 0 <= k <= |sorted|
        invariant forall j :: k <= j < |sorted| ==> sorted[j].offset > cols[i].offset
      {
        k := k - 1;
      }
      InsertKeepsOrder(sorted, k, cols[i]);
      sorted := sorted[..k] + [cols[i]] + sorted[k..];
      assert cols[..i + 1] == cols[..i] + [cols[i]];
    }
    assert cols[..|cols|] == cols;
  }

  lemma {:induction false} InsertKeepsOrder(s: seq<Column>, k: nat, c: Column)
    requires Sorted(s) && k <= |s|
    requires k > 0 ==> s[k - 1].offset <= c.offset
    requires forall j :: k <= j < |s| ==> s[j].offset > c.offset
    ensures Sorted(s[..k] + [c] + s[k..])
    ensures multiset(s[..k] + [c] + s[k..]) == multiset(s) + multiset{c}
  {
    SortedSlices(s, k);
    assert multiset(s) == multiset(s[..k]) + multiset(s[k..]) by { assert s == s[..k] + s[k..]; }
  }

  lemma {:induction false} SortedSlices(s: seq<Column>, k: nat)
    requires Sorted(s) && k <= |s|
    ensures Sorted(s[..k]) && Sorted(s[k..])
    ensures k > 0 ==> forall i :: 0 <= i < k ==> s[..k][i].offset <= s[k - 1].offset
  {
  }

  /** Whatever order the map's columns come in, they end up in the generators, sorted, each exactly once. */
  method ScheduleAggGenerators(infos: seq<Column>) returns (ok: bool, gens: seq<Generator>)
    ensures ok <==> KnownColumns(infos)
    ensures ok ==> Sorted(Flatten(gens)) && multiset(Flatten(gens)) == multiset(infos) && Greedy(gens)
    ensures ok ==> forall k :: 0 <= k < |gens| ==> GoodGenerator(gens[k])
  {
    var cols := SortByOffset(infos);
    KnownIsUnordered(infos, cols);
    ok, gens := Schedule(cols);
  }

  lemma {:induction false} KnownIsUnordered(a: seq<Column>, b: seq<Column>)
    requires multiset(a) == multiset(b)
    ensures KnownColumns(a) == KnownColumns(b)
  {
    assert forall c :: c in a <==> c in multiset(a);
    assert forall c :: c in b <==> c in multiset(b);
    assert KnownColumns(a) <==> forall c :: c in a ==> AllKnown(c.requests);
    assert KnownColumns(b) <==> forall c :: c in b ==> AllKnown(c.requests);
  }
}
