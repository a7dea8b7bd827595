/**
 `StatisticalAggGenerator`: the program that one generator emits - initial states, the update for
 one row, the outputs - run over the rows of a window.
 */
module AggProgram {
  import opened AggSchedule
  import opened Common
  import Bytes

  /** One input cell; numbers are exact, so rounding of floating-point columns is not modelled. */
  datatype Cell = NullCell | Num(n: int)

  // ----- numbers of a column type -----

  const FLOAT_MAX := 0xFFFFFF00000000000000000000000000
  const DOUBLE_MAX := 0xFFFFFFFFFFFFF800000000000000000000000000000000000000000000000000000000000000000000000000000000000000000000000000000000000000000000000000000000000000000000000000000000000000000000000000000000000000000000000000000000000000000000000000000000000000000000000000

  /** The largest number of the type: the initial value of a minimum. */
  function High(t: NumType): int {
    match t
    case KInt16 => 0x7FFF
    case KInt32 => 0x7FFF_FFFF
    case KInt64 => 0x7FFF_FFFF_FFFF_FFFF
    case KFloat => FLOAT_MAX
    case _ => DOUBLE_MAX
  }

  /** The lowest number of the type: the initial value of a maximum. */
  function Low(t: NumType): int {
    match t
    case KInt16 => -0x8000
    case KInt32 => -0x8000_0000
    case KInt64 => -0x8000_0000_0000_0000
    case KFloat => -FLOAT_MAX
    case _ => -DOUBLE_MAX
  }

  /** An integer sum is kept in the column's own type and wraps around there. */
  function Wrap(t: NumType, n: int): int {
    match t
    case KInt16 => (n + 0x8000) % 0x1_0000 - 0x8000
    case KInt32 => (n + 0x8000_0000) % 0x1_0000_0000 - 0x8000_0000
    case KInt64 => (n + 0x8000_0000_0000_0000) % 0x1_0000_0000_0000_0000 - 0x8000_0000_0000_0000
    case _ => n
  }

  predicate IsInteger(t: NumType) {
    t == KInt16 || t == KInt32 || t == KInt64
  }

  /** The limits are those of two's complement numbers of the type's width. */
  lemma {:induction false} IntegerLimits(t: NumType)
    requires IsInteger(t)
    ensures High(t) - Low(t) + 1 == Bytes.Pow256(TypeBytes(t)) && Low(t) == -High(t) - 1
  {
    Bytes.Pow256Values();
  }

  /** And of the largest finite floating-point numbers: 24 or 53 one bits below the largest exponent. */
  lemma {:induction false} FloatLimits()
    ensures High(KFloat) == 0xFF_FFFF * Bytes.Pow256(13) && Low(KFloat) == -High(KFloat)
    ensures High(KDouble) == 0x1F_FFFF_FFFF_FFFF * 8 * Bytes.Pow256(121) && Low(KDouble) == -High(KDouble)
  {
    Bytes.Pow256Values();
    Bytes.Pow256Sum(8, 4);
    Bytes.Pow256Sum(12, 1);
    LargePower();
  }

  lemma {:induction false} LargePower()
    ensures Bytes.Pow256(121) == 0x100000000000000000000000000000000000000000000000000000000000000000000000000000000000000000000000000000000000000000000000000000000000000000000000000000000000000000000000000000000000000000000000000000000000000000000000000000000000000000000000000
  {
    Bytes.Pow256Values();
    hide Bytes.Pow256;
    assert Bytes.Pow256(16) == 0x100000000000000000000000000000000 by { Bytes.Pow256Sum(8, 8); }
    assert Bytes.Pow256(32) == 0x10000000000000000000000000000000000000000000000000000000000000000 by { Bytes.Pow256Sum(16, 16); }
    assert Bytes.Pow256(40) == 0x100000000000000000000000000000000000000000000000000000000000000000000000000000000 by { Bytes.Pow256Sum(32, 8); }
    assert Bytes.Pow256(80) == 0x10000000000000000000000000000000000000000000000000000000000000000000000000000000000000000000000000000000000000000000000000000000000000000000000000000000000000000 by { Bytes.Pow256Sum(40, 40); }
    assert Bytes.Pow256(120) == 0x1000000000000000000000000000000000000000000000000000000000000000000000000000000000000000000000000000000000000000000000000000000000000000000000000000000000000000000000000000000000000000000000000000000000000000000000000000000000000000000000000 by { Bytes.Pow256Sum(80, 40); }
    Bytes.Pow256Sum(120, 1);
  }

  /** A sum that fits the type is kept as it is; any other is moved into its range by a multiple of its size. */
  lemma {:induction false} WrapIsTwosComplement(t: NumType, n: int)
    ensures Low(t) <= n <= High(t) ==> Wrap(t, n) == n
    ensures !IsInteger(t) ==> Wrap(t, n) == n
    ensures IsInteger(t) ==> Low(t) <= Wrap(t, n) <= High(t) && (n - Wrap(t, n)) % Bytes.Pow256(TypeBytes(t)) == 0
  {
    Bytes.Pow256Values();
    match t
    case KInt16 => ModUnique(n - Wrap(t, n), (n + 0x8000) / 0x1_0000, 0, 0x1_0000);
    case KInt32 => ModUnique(n - Wrap(t, n), (n + 0x8000_0000) / 0x1_0000_0000, 0, 0x1_0000_0000);
    case KInt64 =>
      ModUnique(n - Wrap(t, n), (n + 0x8000_0000_0000_0000) / 0x1_0000_0000_0000_0000, 0, 0x1_0000_0000_0000_0000);
    case _ =>
  }

  lemma {:induction false} ModAbsorbs(x: int, b: int, m: nat)
    requires m > 0
    ensures (x % m + b) % m == (x + b) % m
  {
    var p, q := x / m, (x % m + b) / m;
    assert x + b == m * (p + q) + (x % m + b) % m;
    ModUnique(x + b, p + q, (x % m + b) % m, m);
  }

  lemma {:induction false} WrapAbsorbs(t: NumType, a: int, b: int)
    ensures Wrap(t, Wrap(t, a) + b) == Wrap(t, a + b)
    ensures Wrap(t, 0) == 0
  {
    match t
    case KInt16 => ModAbsorbs(a + 0x8000, b, 0x1_0000);
    case KInt32 => ModAbsorbs(a + 0x8000_0000, b, 0x1_0000_0000);
    case KInt64 => ModAbsorbs(a + 0x8000_0000_0000_0000, b, 0x1_0000_0000_0000_0000);
    case _ =>
  }

  // ----- states -----

  /** The accumulators of one column; an aggregate that nobody asked for has none. */
  datatype ColState = ColState(sum: Option<int>, avg: Option<int>, min: Option<int>, max: Option<int>)

  /** Whether the column makes the generator count rows. */
  predicate NeedsCount(o: Outputs) {
    o.avg != [] || o.count != [] || o.min != [] || o.max != []
  }

  function InitColumn(t: NumType, o: Outputs): ColState {
    ColState(
      if o.sum != [] || (o.avg != [] && t == KDouble) then Some(0) else None,
      if o.avg != [] && t != KDouble then Some(0) else None,
      if o.min != [] then Some(High(t)) else None,
      if o.max != [] then Some(Low(t)) else None)
  }

  function UpdateColumn(t: NumType, st: ColState, c: Cell): ColState {
    match c
    case NullCell => st
    case Num(n) =>
      ColState(
        if st.sum.Some? then Some(Wrap(t, st.sum.value + n)) else None,
        if st.avg.Some? then Some(st.avg.value + n) else None,
        if st.min.Some? then Some(if st.min.value < n then st.min.value else n) else None,
        if st.max.Some? then Some(if st.max.value < n then n else st.max.value) else None)
  }

  /** The first column that counts: its NULLs decide for the whole generator. */
  function Leader(outs: seq<Outputs>, from: nat): (k: nat)
    requires from <= |outs|
    ensures from <= k <= |outs| && (k < |outs| ==> NeedsCount(outs[k]))
    ensures forall j :: from <= j < k ==> !NeedsCount(outs[j])
    decreases |outs| - from
  {
    if from == |outs| || NeedsCount(outs[from]) then from else Leader(outs, from + 1)
  }

  datatype OutVal = Plain(n: int) | Ratio(sum: int, count: int) | Flagged(m: int, isEmpty: bool)

  datatype Output = Output(idx: nat, val: OutVal)

  function Each(idxs: seq<nat>, v: OutVal): (r: seq<Output>)
    ensures |r| == |idxs| && forall i :: 0 <= i < |r| ==> r[i] == Output(idxs[i], v)
  {
    seq(|idxs|, i requires 0 <= i < |idxs| => Output(idxs[i], v))
  }

  /** What a column's outputs are, given its accumulators and the shared count. */
  function ColumnOutputs(t: NumType, o: Outputs, st: ColState, count: int): seq<Output>
    requires SameShape(st, InitColumn(t, o))
  {
    (if o.sum != [] then Each(o.sum, Plain(st.sum.value)) else [])
    + (if o.avg != [] then Each(o.avg, Ratio(if st.avg.Some? then st.avg.value else st.sum.value, count)) else [])
    + Each(o.count, Plain(count))
    + (if o.min != [] then Each(o.min, Flagged(st.min.value, count == 0)) else [])
    + (if o.max != [] then Each(o.max, Flagged(st.max.value, count == 0)) else [])
  }

  /** The emitted updates of one column: each selects the old accumulator when the cell is NULL. */
  method UpdateStates(t: NumType, o: Outputs, before: ColState, c: Cell) returns (st: ColState)
    requires SameShape(before, InitColumn(t, o))
    ensures st == UpdateColumn(t, before, c) && SameShape(st, InitColumn(t, o))
  {
    st := before;
    if (o.sum != [] || (o.avg != [] && st.avg == None)) && c.Num? {
      st := st.(sum := Some(Wrap(t, st.sum.value + c.n)));
    }
    if o.avg != [] && st.avg != None && c.Num? {
      st := st.(avg := Some(st.avg.value + c.n));
    }
    if o.min != [] && c.Num? {
      st := st.(min := Some(if st.min.value < c.n then st.min.value else c.n));
    }
    if o.max != [] && c.Num? {
      st := st.(max := Some(if st.max.value < c.n then c.n else st.max.value));
    }
  }

  class StatisticalAggGenerator {
    const colType: NumType
    const outs: seq<Outputs>
    var cols: seq<ColState>
    var count: Option<int>

    constructor (colType: NumType, outs: seq<Outputs>)
      ensures this.colType == colType && this.outs == outs
    {
      this.colType, this.outs := colType, outs;
      cols, count := [], None;
    }

    /** The accumulators that the requests call for exist. */
    ghost predicate Running()
      reads this
    {
      && |cols| == |outs|
      && (count.Some? <==> Leader(outs, 0) < |outs|)
      && forall i :: 0 <= i < |outs| ==> SameShape(cols[i], InitColumn(colType, outs[i]))
    }

    method GenInitState()
      modifies this
      ensures Running()
      ensures forall i :: 0 <= i < |outs| ==> cols[i] == InitColumn(colType, outs[i])
      ensures count == if Leader(outs, 0) < |outs| then Some(0) else None
    {
      cols, count := [], None;
      for i := 0 to |outs|
        invariant |cols| == i
        invariant forall j :: 0 <= j < i ==> cols[j] == InitColumn(colType, outs[j])
        invariant count == if Leader(outs, 0) < i then Some(0) else None
      {
        var o, st := outs[i], ColState(None, None, None, None);
        if o.sum != [] { st := st.(sum := Some(0)); }
        if o.avg != [] {
          if colType == KDouble { st := st.(sum := Some(0)); } else { st := st.(avg := Some(0)); }
          if count == None { count := Some(0); }
        }
        if o.count != [] && count == None { count := Some(0); }
        if o.min != [] {
          if count == None { count := Some(0); }
          st := st.(min := Some(High(colType)));
        }
        if o.max != [] {
          if count == None { count := Some(0); }
          st := st.(max := Some(Low(colType)));
        }
        cols := cols + [st];
      }
    }

    /** One row: every column updates its own accumulators; the leader alone updates the count. */
    method GenUpdate(cells: seq<Cell>)
      requires Running() && |cells| == |outs|
      modifies this
      ensures Running()
      ensures forall i :: 0 <= i < |outs| ==> cols[i] == UpdateColumn(colType, old(cols[i]), cells[i])
      ensures count == UpdateCount(outs, old(count), cells)
    {
      var countUpdated := false;
      for i := 0 to |outs|
        invariant |cols| == |outs|
        invariant forall j :: 0 <= j < |outs| ==>
                    cols[j] == if j < i then UpdateColumn(colType, old(cols[j]), cells[j]) else old(cols[j])
        invariant countUpdated <==> Leader(outs, 0) < i
        invariant count == if countUpdated then UpdateCount(outs, old(count), cells) else old(count)
      {
        if NeedsCount(outs[i]) && !countUpdated {
          if cells[i].Num? { count := Some(count.value + 1); }
          countUpdated := true;
        }
        var st := UpdateStates(colType, outs[i], cols[i], cells[i]);
        cols := cols[i := st];
      }
    }

    method GenOutputs() returns (outputs: seq<Output>)
      requires Running()
      ensures outputs == AllOutputs(colType, outs, cols, count, |outs|)
    {
      outputs := [];
      for i := 0 to |outs|
        invariant outputs == AllOutputs(colType, outs, cols, count, i)
      {
        var o, st := outs[i], cols[i];
        var cnt := if count == None then 0 else count.value;
        outputs := outputs + ColumnOutputs(colType, o, st, cnt);
      }
    }
  }

  predicate SameShape(a: ColState, b: ColState) {
    && (a.sum.Some? <==> b.sum.Some?) && (a.avg.Some? <==> b.avg.Some?)
    && (a.min.Some? <==> b.min.Some?) && (a.max.Some? <==> b.max.Some?)
  }

  function UpdateCount(outs: seq<Outputs>, count: Option<int>, cells: seq<Cell>): Option<int>
    requires |cells| == |outs| && (Leader(outs, 0) < |outs| ==> count.Some?)
  {
    var k := Leader(outs, 0);
    if k < |outs| && cells[k].Num? then Some(count.value + 1) else count
  }

  function AllOutputs(t: NumType, outs: seq<Outputs>, cols: seq<ColState>, count: Option<int>, n: nat): seq<Output>
    requires n <= |outs| == |cols|
    requires forall i :: 0 <= i < |outs| ==> SameShape(cols[i], InitColumn(t, outs[i]))
  {
    if n == 0 then []
    else AllOutputs(t, outs, cols, count, n - 1) + ColumnOutputs(t, outs[n - 1], cols[n - 1], if count == None then 0 else count.value)
  }

  // ----- whole windows -----

  /** The accumulators of a column after the cells of a window. */
  function RunColumn(t: NumType, o: Outputs, cells: seq<Cell>): ColState {
    if cells == [] then InitColumn(t, o)
    else UpdateColumn(t, RunColumn(t, o, cells[..|cells| - 1]), cells[|cells| - 1])
  }

  /** The column `i` of the rows of a window. */
  function ColumnCells(rows: seq<seq<Cell>>, i: nat): (cells: seq<Cell>)
    requires forall r :: 0 <= r < |rows| ==> i < |rows[r]|
    ensures |cells| == |rows| && forall r :: 0 <= r < |rows| ==> cells[r] == rows[r][i]
  {
    seq(|rows|, r requires 0 <= r < |rows| => rows[r][i])
  }

  ghost predicate WidthOf(rows: seq<seq<Cell>>, n: nat) {
    forall r :: 0 <= r < |rows| ==> |rows[r]| == n
  }

  /** The accumulators and the count are those of these rows. */
  ghost predicate After(t: NumType, outs: seq<Outputs>, cols: seq<ColState>, count: Option<int>, rows: seq<seq<Cell>>) {
    && WidthOf(rows, |outs|) && |cols| == |outs|
    && (forall i :: 0 <= i < |outs| ==> cols[i] == RunColumn(t, outs[i], ColumnCells(rows, i)))
    && var k := Leader(outs, 0); count == if k < |outs| then Some(CountOf(ColumnCells(rows, k))) else None
  }

  lemma {:induction false} AfterRow(t: NumType, outs: seq<Outputs>, cols: seq<ColState>, count: Option<int>,
                                    rows: seq<seq<Cell>>, row: seq<Cell>, cols': seq<ColState>, count': Option<int>)
    requires After(t, outs, cols, count, rows) && |row| == |outs| == |cols'|
    requires forall i :: 0 <= i < |outs| ==> cols'[i] == UpdateColumn(t, cols[i], row[i])
    requires (Leader(outs, 0) < |outs| ==> count.Some?) && count' == UpdateCount(outs, count, row)
    ensures After(t, outs, cols', count', rows + [row])
  {
    hide UpdateColumn;
    hide InitColumn;
    hide Leader;
    forall i | 0 <= i < |outs| ensures cols'[i] == RunColumn(t, outs[i], ColumnCells(rows + [row], i)) {
      CellsAfterRow(rows, row, i);
    }
    var k := Leader(outs, 0);
    if k < |outs| {
      CellsAfterRow(rows, row, k);
    }
  }

  lemma {:induction false} CellsAfterRow(rows: seq<seq<Cell>>, row: seq<Cell>, i: nat)
    requires i < |row| && forall r :: 0 <= r < |rows| ==> i < |rows[r]|
    ensures var cells := ColumnCells(rows + [row], i);
            |cells| == |rows| + 1 && cells[..|rows|] == ColumnCells(rows, i) && cells[|rows|] == row[i]
  {
  }

  /** The emitted loop: initialise, update once per row, output. */
  method RunWindow(gen: StatisticalAggGenerator, rows: seq<seq<Cell>>) returns (outputs: seq<Output>)
    requires WidthOf(rows, |gen.outs|)
    modifies gen
    ensures gen.Running() && After(gen.colType, gen.outs, gen.cols, gen.count, rows)
    ensures outputs == AllOutputs(gen.colType, gen.outs, gen.cols, gen.count, |gen.outs|)
  {
    gen.GenInitState();
    for r := 0 to |rows|
      invariant gen.Running() && After(gen.colType, gen.outs, gen.cols, gen.count, rows[..r])
    {
      ghost var cols, count := gen.cols, gen.count;
      gen.GenUpdate(rows[r]);
      AfterRow(gen.colType, gen.outs, cols, count, rows[..r], rows[r], gen.cols, gen.count);
      assert rows[..r + 1] == rows[..r] + [rows[r]];
    }
    assert rows[..|rows|] == rows;
    outputs := gen.GenOutputs();
  }

  // ----- the folds that SQL promises -----

  function SumOf(cells: seq<Cell>): int {
    if cells == [] then 0
    else SumOf(cells[..|cells| - 1]) + if cells[|cells| - 1].Num? then cells[|cells| - 1].n else 0
  }

  function CountOf(cells: seq<Cell>): nat {
    if cells == [] then 0
    else CountOf(cells[..|cells| - 1]) + if cells[|cells| - 1].Num? then 1 else 0
  }

  lemma {:induction false} SumIsAdditive(a: seq<Cell>, b: seq<Cell>)
    ensures SumOf(a + b) == SumOf(a) + SumOf(b)
  {
    if b == [] {
      assert a + b == a;
    } else {
      SumIsAdditive(a, b[..|b| - 1]);
      assert (a + b)[..|a + b| - 1] == a + b[..|b| - 1];
    }
  }

  lemma {:induction false} SumOfOne(n: int)
    ensures SumOf([Num(n)]) == n && SumOf([NullCell]) == 0
  {
    assert [Num(n)][..0] == [] && [NullCell][..0] == [];
  }

  lemma {:induction false} CountIsNumberOfNumbers(cells: seq<Cell>)
    ensures CountOf(cells) == |set i | 0 <= i < |cells| && cells[i].Num?|
  {
    if cells != [] {
      var n := |cells| - 1;
      CountIsNumberOfNumbers(cells[..n]);
      var before, all := set i | 0 <= i < n && cells[..n][i].Num?, set i | 0 <= i < |cells| && cells[i].Num?;
      assert all == before + if cells[n].Num? then {n} else {};
    }
  }

  ghost predicate InRange(t: NumType, cells: seq<Cell>) {
    forall i :: 0 <= i < |cells| && cells[i].Num? ==> Low(t) <= cells[i].n <= High(t)
  }

  ghost predicate IsLeast(cells: seq<Cell>, m: int) {
    Num(m) in cells && forall i :: 0 <= i < |cells| && cells[i].Num? ==> m <= cells[i].n
  }

  ghost predicate IsGreatest(cells: seq<Cell>, m: int) {
    Num(m) in cells && forall i :: 0 <= i < |cells| && cells[i].Num? ==> cells[i].n <= m
  }

  /** Sums: the fold over the non-NULL cells, in the column type's own arithmetic; averages sum exactly. */
  lemma {:induction false} SumIsFold(t: NumType, o: Outputs, cells: seq<Cell>)
    ensures var st := RunColumn(t, o, cells);
            && SameShape(st, InitColumn(t, o))
            && (st.sum.Some? ==> st.sum.value == Wrap(t, SumOf(cells)))
            && (st.avg.Some? ==> st.avg.value == SumOf(cells))
  {
    WrapAbsorbs(t, 0, 0);
    if cells != [] {
      var rest, c := cells[..|cells| - 1], cells[|cells| - 1];
      SumIsFold(t, o, rest);
      if c.Num? { WrapAbsorbs(t, SumOf(rest), c.n); }
    }
  }

  function Least(t: NumType, cells: seq<Cell>): int {
    if cells == [] then High(t)
    else
      var rest, c := Least(t, cells[..|cells| - 1]), cells[|cells| - 1];
      if c.Num? && c.n <= rest then c.n else rest
  }

  function Greatest(t: NumType, cells: seq<Cell>): int {
    if cells == [] then Low(t)
    else
      var rest, c := Greatest(t, cells[..|cells| - 1]), cells[|cells| - 1];
      if c.Num? && c.n >= rest then c.n else rest
  }

  /** The accumulators of `min` and `max` are those folds. */
  lemma {:induction false} ExtremesAreFolds(t: NumType, o: Outputs, cells: seq<Cell>)
    ensures var st := RunColumn(t, o, cells);
            && (st.min.Some? ==> st.min.value == Least(t, cells))
            && (st.max.Some? ==> st.max.value == Greatest(t, cells))
  {
    if cells != [] {
      ExtremesAreFolds(t, o, cells[..|cells| - 1]);
    }
  }

  lemma {:induction false} NothingCounted(cells: seq<Cell>)
    ensures CountOf(cells) == 0 <==> forall i :: 0 <= i < |cells| ==> cells[i].NullCell?
  {
    if cells != [] {
      NothingCounted(cells[..|cells| - 1]);
    }
  }

  /** And the folds are extremes: of the non-NULL cells, or the type's limit when there is none. */
  lemma {:induction false} LeastIsLeast(t: NumType, cells: seq<Cell>)
    requires InRange(t, cells)
    ensures if CountOf(cells) == 0 then Least(t, cells) == High(t) else IsLeast(cells, Least(t, cells))
  {
    if cells != [] {
      var n := |cells| - 1;
      NothingCounted(cells[..n]);
      LeastIsLeast(t, cells[..n]);
      assert cells == cells[..n] + [cells[n]] && cells[n] in cells;
    }
  }

  lemma {:induction false} GreatestIsGreatest(t: NumType, cells: seq<Cell>)
    requires InRange(t, cells)
    ensures if CountOf(cells) == 0 then Greatest(t, cells) == Low(t) else IsGreatest(cells, Greatest(t, cells))
  {
    if cells != [] {
      var n := |cells| - 1;
      NothingCounted(cells[..n]);
      GreatestIsGreatest(t, cells[..n]);
      assert cells == cells[..n] + [cells[n]] && cells[n] in cells;
    }
  }

  // ----- every requested output -----

  /** What SQL promises for one column: the folds over its cells, at the requested output indices and nowhere else. */
  function Answers(t: NumType, o: Outputs, cells: seq<Cell>, count: int): seq<Output> {
    Each(o.sum, Plain(Wrap(t, SumOf(cells))))
    + Each(o.avg, Ratio(SumOf(cells), count))
    + Each(o.count, Plain(count))
    + Each(o.min, Flagged(Least(t, cells), count == 0))
    + Each(o.max, Flagged(Greatest(t, cells), count == 0))
  }

  /** What an output means to the one who asked for it. */
  ghost predicate TrueAnswer(t: NumType, o: Outputs, cells: seq<Cell>, x: Output) {
    match x.val
    case Plain(n) => (x.idx in o.sum && n == Wrap(t, SumOf(cells))) || (x.idx in o.count && n == CountOf(cells))
    case Ratio(sum, count) => x.idx in o.avg && sum == SumOf(cells) && count == CountOf(cells)
    case Flagged(m, isEmpty) =>
      && (isEmpty <==> forall i :: 0 <= i < |cells| ==> cells[i].NullCell?)
      && (isEmpty || (x.idx in o.min && IsLeast(cells, m)) || (x.idx in o.max && IsGreatest(cells, m)))
  }

  /** With the column's own count, every answer is true: minima and maxima are such, and flagged when there is none. */
  lemma {:induction false} AnswersAreTrue(t: NumType, o: Outputs, cells: seq<Cell>, x: Output)
    requires InRange(t, cells) && x in Answers(t, o, cells, CountOf(cells))
    ensures TrueAnswer(t, o, cells, x)
  {
    NothingCounted(cells);
    LeastIsLeast(t, cells);
    GreatestIsGreatest(t, cells);
    hide Least;
    hide Greatest;
    hide SumOf;
    hide CountOf;
    hide IsLeast;
    hide IsGreatest;
    var c := CountOf(cells);
    assert x in Each(o.sum, Plain(Wrap(t, SumOf(cells)))) || x in Each(o.avg, Ratio(SumOf(cells), c)) || x in Each(o.count, Plain(c))
        || x in Each(o.min, Flagged(Least(t, cells), c == 0)) || x in Each(o.max, Flagged(Greatest(t, cells), c == 0));
  }

  /** The same for the first `n` columns, each with its count. */
  function AllAnswers(t: NumType, outs: seq<Outputs>, rows: seq<seq<Cell>>, counts: seq<int>, n: nat): seq<Output>
    requires n <= |outs| == |counts| && forall r :: 0 <= r < |rows| ==> |rows[r]| == |outs|
  {
    if n == 0 then []
    else AllAnswers(t, outs, rows, counts, n - 1) + Answers(t, outs[n - 1], ColumnCells(rows, n - 1), counts[n - 1])
  }

  lemma {:induction false} ColumnAnswers(t: NumType, o: Outputs, cells: seq<Cell>, c: int)
    ensures var st := RunColumn(t, o, cells);
            SameShape(st, InitColumn(t, o)) && ColumnOutputs(t, o, st, c) == Answers(t, o, cells, c)
  {
    SumIsFold(t, o, cells);
    ExtremesAreFolds(t, o, cells);
    var st := RunColumn(t, o, cells);
    hide RunColumn;
    assert o.sum == [] ==> Each(o.sum, Plain(Wrap(t, SumOf(cells)))) == [];
    assert o.avg == [] ==> Each(o.avg, Ratio(SumOf(cells), c)) == [];
    assert o.min == [] ==> Each(o.min, Flagged(Least(t, cells), c == 0)) == [];
    assert o.max == [] ==> Each(o.max, Flagged(Greatest(t, cells), c == 0)) == [];
  }

  /** The count of the leading column, for everyone. */
  function SharedCounts(outs: seq<Outputs>, rows: seq<seq<Cell>>): (counts: seq<int>)
    requires forall r :: 0 <= r < |rows| ==> |rows[r]| == |outs|
    ensures |counts| == |outs|
  {
    var k := Leader(outs, 0);
    seq(|outs|, _ => if k < |outs| then CountOf(ColumnCells(rows, k)) else 0)
  }

  lemma {:induction false} FirstAnswers(t: NumType, outs: seq<Outputs>, cols: seq<ColState>, count: Option<int>,
                                        rows: seq<seq<Cell>>, n: nat)
    requires After(t, outs, cols, count, rows) && n <= |outs|
    requires forall j :: 0 <= j < |outs| ==> SameShape(cols[j], InitColumn(t, outs[j]))
    ensures AllOutputs(t, outs, cols, count, n) == AllAnswers(t, outs, rows, SharedCounts(outs, rows), n)
  {
    if n > 0 {
      FirstAnswers(t, outs, cols, count, rows, n - 1);
      hide ColumnOutputs;
      hide Answers;
      hide InitColumn;
      ColumnAnswers(t, outs[n - 1], ColumnCells(rows, n - 1), if count == None then 0 else count.value);
    }
  }

  lemma {:induction false} KeepsShape(t: NumType, outs: seq<Outputs>, cols: seq<ColState>, count: Option<int>,
                                      rows: seq<seq<Cell>>)
    requires After(t, outs, cols, count, rows)
    ensures forall j :: 0 <= j < |outs| ==> SameShape(cols[j], InitColumn(t, outs[j]))
  {
    forall j | 0 <= j < |outs| ensures SameShape(cols[j], InitColumn(t, outs[j])) {
      SumIsFold(t, outs[j], ColumnCells(rows, j));
    }
  }

  /**
   For every window, the outputs of a generator are exactly the folds over its columns, each request
   answered in its place and nothing else emitted, with the count of the leading column.
   */
  lemma {:induction false} AggregatesAreFolds(t: NumType, outs: seq<Outputs>, cols: seq<ColState>, count: Option<int>,
                                              rows: seq<seq<Cell>>)
    requires After(t, outs, cols, count, rows)
    ensures forall j :: 0 <= j < |outs| ==> SameShape(cols[j], InitColumn(t, outs[j]))
    ensures AllOutputs(t, outs, cols, count, |outs|) == AllAnswers(t, outs, rows, SharedCounts(outs, rows), |outs|)
  {
    KeepsShape(t, outs, cols, count, rows);
    FirstAnswers(t, outs, cols, count, rows, |outs|);
  }

  // ----- every request once -----

  function Indices(outputs: seq<Output>): (idxs: seq<nat>)
    ensures |idxs| == |outputs| && forall i :: 0 <= i < |outputs| ==> idxs[i] == outputs[i].idx
  {
    seq(|outputs|, i requires 0 <= i < |outputs| => outputs[i].idx)
  }

  lemma {:induction false} IndicesConcat(a: seq<Output>, b: seq<Output>)
    ensures Indices(a + b) == Indices(a) + Indices(b)
  {
  }

  lemma {:induction false} IndicesOfAnswers(t: NumType, o: Outputs, cells: seq<Cell>, c: int)
    ensures Indices(Answers(t, o, cells, c)) == o.sum + o.avg + o.count + o.min + o.max
  {
    var sum, avg := Each(o.sum, Plain(Wrap(t, SumOf(cells)))), Each(o.avg, Ratio(SumOf(cells), c));
    var cnt, min, max := Each(o.count, Plain(c)), Each(o.min, Flagged(Least(t, cells), c == 0)), Each(o.max, Flagged(Greatest(t, cells), c == 0));
    IndicesConcat(sum, avg);
    IndicesConcat(sum + avg, cnt);
    IndicesConcat(sum + avg + cnt, min);
    IndicesConcat(sum + avg + cnt + min, max);
  }

  /** The output indices that the requests of the first `n` columns name. */
  function RequestedOuts(cols: seq<Column>, n: nat): seq<nat>
    requires n <= |cols|
  {
    if n == 0 then [] else RequestedOuts(cols, n - 1) + OutsOf(cols[n - 1].requests)
  }

  function OutsOf(rs: seq<Request>): seq<nat> {
    if rs == [] then [] else OutsOf(rs[..|rs| - 1]) + [rs[|rs| - 1].out]
  }

  /** Registering loses no request and invents none. */
  lemma {:induction false} RegisteredAll(rs: seq<Request>)
    requires AllKnown(rs)
    ensures var o := OutputsOf(rs);
            multiset(OutsOf(rs)) == multiset(o.sum) + multiset(o.avg) + multiset(o.count) + multiset(o.min) + multiset(o.max)
  {
    if rs != [] {
      RegisteredAll(rs[..|rs| - 1]);
      RequestedStep(rs, Sum);
      RequestedStep(rs, Avg);
      RequestedStep(rs, Count);
      RequestedStep(rs, MinOf);
      RequestedStep(rs, MaxOf);
      hide Requested;
      assert rs[|rs| - 1].func != UnknownFunc;
    }
  }

  lemma {:induction false} FirstIndices(t: NumType, g: Generator, rows: seq<seq<Cell>>, counts: seq<int>, n: nat)
    requires GoodGenerator(g) && KnownColumns(g.cols) && n <= |g.outs| == |counts| && WidthOf(rows, |g.outs|)
    ensures multiset(Indices(AllAnswers(t, g.outs, rows, counts, n))) == multiset(RequestedOuts(g.cols, n))
  {
    if n > 0 {
      FirstIndices(t, g, rows, counts, n - 1);
      var o, cells := g.outs[n - 1], ColumnCells(rows, n - 1);
      hide Answers;
      IndicesConcat(AllAnswers(t, g.outs, rows, counts, n - 1), Answers(t, o, cells, counts[n - 1]));
      IndicesOfAnswers(t, o, cells, counts[n - 1]);
      RegisteredAll(g.cols[n - 1].requests);
    }
  }

  /** A scheduled generator answers every request of its columns exactly once, and emits nothing else. */
  lemma {:induction false} EveryRequestOnce(g: Generator, cols: seq<ColState>, count: Option<int>, rows: seq<seq<Cell>>)
    requires GoodGenerator(g) && KnownColumns(g.cols) && After(g.colType, g.outs, cols, count, rows)
    ensures forall j :: 0 <= j < |g.outs| ==> SameShape(cols[j], InitColumn(g.colType, g.outs[j]))
    ensures multiset(Indices(AllOutputs(g.colType, g.outs, cols, count, |g.outs|))) ==
            multiset(RequestedOuts(g.cols, |g.cols|))
  {
    AggregatesAreFolds(g.colType, g.outs, cols, count, rows);
    FirstIndices(g.colType, g, rows, SharedCounts(g.outs, rows), |g.outs|);
  }

  // ----- the shared count -----

  /** Columns `i` and `k` are NULL in the same rows. */
  predicate NullTogether(rows: seq<seq<Cell>>, i: nat, k: nat)
    requires forall r :: 0 <= r < |rows| ==> i < |rows[r]| && k < |rows[r]|
  {
    forall r :: 0 <= r < |rows| ==> (rows[r][i].Num? <==> rows[r][k].Num?)
  }

  ghost function CountAfter(rows: seq<seq<Cell>>, i: nat, r: nat): nat
    requires r <= |rows| && forall r :: 0 <= r < |rows| ==> i < |rows[r]|
  {
    CountOf(ColumnCells(rows[..r], i))
  }

  lemma {:induction false} CountStep(rows: seq<seq<Cell>>, i: nat, r: nat)
    requires r < |rows| && forall r :: 0 <= r < |rows| ==> i < |rows[r]|
    ensures CountAfter(rows, i, r + 1) == CountAfter(rows, i, r) + if rows[r][i].Num? then 1 else 0
  {
    assert ColumnCells(rows[..r + 1], i)[..r] == ColumnCells(rows[..r], i);
  }

  lemma {:induction false} TogetherCountsAgree(rows: seq<seq<Cell>>, i: nat, k: nat, r: nat)
    requires r <= |rows| && forall r :: 0 <= r < |rows| ==> i < |rows[r]| && k < |rows[r]|
    requires NullTogether(rows, i, k)
    ensures CountAfter(rows, i, r) == CountAfter(rows, k, r)
  {
    if r > 0 {
      TogetherCountsAgree(rows, i, k, r - 1);
      CountStep(rows, i, r - 1);
      CountStep(rows, k, r - 1);
    } else {
      assert rows[..0] == [];
    }
  }

  /**
   The count that column `i` reports, which divides its average and flags its minimum as empty, is
   that of the leader `k`.  It is right after every row of a window exactly when the two columns are
   NULL in the same rows.
   */
  lemma {:induction false} SharedCountIsRight(rows: seq<seq<Cell>>, i: nat, k: nat)
    requires forall r :: 0 <= r < |rows| ==> i < |rows[r]| && k < |rows[r]|
    ensures (forall r :: 0 <= r <= |rows| ==> CountAfter(rows, i, r) == CountAfter(rows, k, r)) <==> NullTogether(rows, i, k)
  {
    if NullTogether(rows, i, k) {
      forall r | 0 <= r <= |rows| ensures CountAfter(rows, i, r) == CountAfter(rows, k, r) {
        TogetherCountsAgree(rows, i, k, r);
      }
    } else {
      var r :| 0 <= r < |rows| && !(rows[r][i].Num? <==> rows[r][k].Num?);
      CountStep(rows, i, r);
      CountStep(rows, k, r);
    }
  }

  /** The count of each column, of its own cells. */
  function OwnCounts(outs: seq<Outputs>, rows: seq<seq<Cell>>): (counts: seq<int>)
    requires forall r :: 0 <= r < |rows| ==> |rows[r]| == |outs|
    ensures |counts| == |outs| && forall i :: 0 <= i < |outs| ==> counts[i] == CountOf(ColumnCells(rows, i))
  {
    seq(|outs|, i requires 0 <= i < |outs| => CountOf(ColumnCells(rows, i)))
  }

  /** The count `c` answers a column's requests as `d` would: a count or a divisor must be equal, an empty flag needs only the zero. */
  predicate CountServes(o: Outputs, c: int, d: int) {
    && (o.avg != [] || o.count != [] ==> c == d)
    && (o.min != [] || o.max != [] ==> (c == 0 <==> d == 0))
  }

  lemma {:induction false} SameParts<T>(a: seq<T>, b: seq<T>, c: seq<T>, d: seq<T>)
    requires |a| == |c|
    ensures a + b == c + d <==> a == c && b == d
  {
    assert (a + b)[..|a|] == a && (a + b)[|a|..] == b;
    assert (c + d)[..|c|] == c && (c + d)[|c|..] == d;
  }

  lemma {:induction false} SameEach(idxs: seq<nat>, v: OutVal, w: OutVal)
    ensures Each(idxs, v) == Each(idxs, w) <==> idxs == [] || v == w
  {
    if idxs != [] {
      assert Each(idxs, v)[0] == Output(idxs[0], v) && Each(idxs, w)[0] == Output(idxs[0], w);
    } else {
      assert Each(idxs, v) == [] == Each(idxs, w);
    }
  }

  lemma {:induction false} AnswersServed(t: NumType, o: Outputs, cells: seq<Cell>, c: int, d: int)
    ensures |Answers(t, o, cells, c)| == |Answers(t, o, cells, d)|
    ensures Answers(t, o, cells, c) == Answers(t, o, cells, d) <==> CountServes(o, c, d)
  {
    var sum, total, min, max := Each(o.sum, Plain(Wrap(t, SumOf(cells)))), SumOf(cells), Least(t, cells), Greatest(t, cells);
    var a1, a2 := Each(o.avg, Ratio(total, c)), Each(o.avg, Ratio(total, d));
    var c1, c2 := Each(o.count, Plain(c)), Each(o.count, Plain(d));
    var m1, m2 := Each(o.min, Flagged(min, c == 0)), Each(o.min, Flagged(min, d == 0));
    var x1, x2 := Each(o.max, Flagged(max, c == 0)), Each(o.max, Flagged(max, d == 0));
    SameEach(o.avg, Ratio(total, c), Ratio(total, d));
    SameEach(o.count, Plain(c), Plain(d));
    SameEach(o.min, Flagged(min, c == 0), Flagged(min, d == 0));
    SameEach(o.max, Flagged(max, c == 0), Flagged(max, d == 0));
    hide Each;
    SameParts(sum, a1, sum, a2);
    SameParts(sum + a1, c1, sum + a2, c2);
    SameParts(sum + a1 + c1, m1, sum + a2 + c2, m2);
    SameParts(sum + a1 + c1 + m1, x1, sum + a2 + c2 + m2, x2);
  }

  lemma {:induction false} AllServed(t: NumType, outs: seq<Outputs>, rows: seq<seq<Cell>>, c: seq<int>, d: seq<int>, n: nat)
    requires WidthOf(rows, |outs|) && n <= |outs| == |c| == |d|
    ensures |AllAnswers(t, outs, rows, c, n)| == |AllAnswers(t, outs, rows, d, n)|
    ensures AllAnswers(t, outs, rows, c, n) == AllAnswers(t, outs, rows, d, n)
       <==> forall i :: 0 <= i < n ==> CountServes(outs[i], c[i], d[i])
  {
    if n > 0 {
      AllServed(t, outs, rows, c, d, n - 1);
      var o, cells := outs[n - 1], ColumnCells(rows, n - 1);
      hide Answers;
      hide CountServes;
      AnswersServed(t, o, cells, c[n - 1], d[n - 1]);
      SameParts(AllAnswers(t, outs, rows, c, n - 1), Answers(t, o, cells, c[n - 1]),
                AllAnswers(t, outs, rows, d, n - 1), Answers(t, o, cells, d[n - 1]));
    }
  }

  /**
   The outputs of a generator are right, with each column's own count as count, divisor and empty flag,
   if and only if the leader's count serves every column that needs one.
   */
  lemma {:induction false} OutputsAreRightIff(t: NumType, outs: seq<Outputs>, cols: seq<ColState>, count: Option<int>,
                                              rows: seq<seq<Cell>>)
    requires After(t, outs, cols, count, rows)
    ensures forall j :: 0 <= j < |outs| ==> SameShape(cols[j], InitColumn(t, outs[j]))
    ensures AllOutputs(t, outs, cols, count, |outs|) == AllAnswers(t, outs, rows, OwnCounts(outs, rows), |outs|)
       <==> forall i :: 0 <= i < |outs| && NeedsCount(outs[i]) ==>
              CountServes(outs[i], CountOf(ColumnCells(rows, Leader(outs, 0))), CountOf(ColumnCells(rows, i)))
  {
    AggregatesAreFolds(t, outs, cols, count, rows);
    AllServed(t, outs, rows, SharedCounts(outs, rows), OwnCounts(outs, rows), |outs|);
    hide AllOutputs;
    hide AllAnswers;
    hide ColumnCells;
    hide CountOf;
  }

  /** So all outputs are right if the columns that need a count are NULL in the same rows as the leader. */
  lemma {:induction false} AggregatesAreRight(t: NumType, outs: seq<Outputs>, cols: seq<ColState>, count: Option<int>,
                                              rows: seq<seq<Cell>>)
    requires After(t, outs, cols, count, rows)
    requires forall i :: 0 <= i < |outs| && NeedsCount(outs[i]) ==> NullTogether(rows, i, Leader(outs, 0))
    ensures forall j :: 0 <= j < |outs| ==> SameShape(cols[j], InitColumn(t, outs[j]))
    ensures AllOutputs(t, outs, cols, count, |outs|) == AllAnswers(t, outs, rows, OwnCounts(outs, rows), |outs|)
  {
    OutputsAreRightIff(t, outs, cols, count, rows);
    assert rows[..|rows|] == rows;
    forall i | 0 <= i < |outs| && NeedsCount(outs[i])
      ensures CountOf(ColumnCells(rows, Leader(outs, 0))) == CountOf(ColumnCells(rows, i))
    {
      TogetherCountsAgree(rows, i, Leader(outs, 0), |rows|);
    }
  }

  /** That is more than it takes: these two columns are never NULL together, but they have as many numbers. */
  lemma {:induction false} RightWithOtherNulls(cols: seq<ColState>, count: Option<int>)
    requires var outs, rows := [Outputs([], [], [0], [], []), Outputs([], [], [1], [], [])], [[NullCell, Num(7)], [Num(3), NullCell]];
             After(KInt32, outs, cols, count, rows)
    ensures var outs, rows := [Outputs([], [], [0], [], []), Outputs([], [], [1], [], [])], [[NullCell, Num(7)], [Num(3), NullCell]];
            && !NullTogether(rows, 1, 0)
            && (forall j :: 0 <= j < |outs| ==> SameShape(cols[j], InitColumn(KInt32, outs[j])))
            && AllOutputs(KInt32, outs, cols, count, 2) == AllAnswers(KInt32, outs, rows, OwnCounts(outs, rows), 2)
  {
    var outs, rows := [Outputs([], [], [0], [], []), Outputs([], [], [1], [], [])], [[NullCell, Num(7)], [Num(3), NullCell]];
    OutputsAreRightIff(KInt32, outs, cols, count, rows);
    hide AllOutputs;
    hide AllAnswers;
    assert rows[0][1].Num? && !rows[0][0].Num?;
    assert ColumnCells(rows, 0) == [NullCell, Num(3)] && ColumnCells(rows, 1) == [Num(7), NullCell];
    assert [NullCell, Num(3)][..1] == [NullCell] && [Num(7), NullCell][..1] == [Num(7)];
    assert [NullCell][..0] == [] && [Num(7)][..0] == [];
    assert CountOf([NullCell]) == 0 && CountOf([Num(7)]) == 1;
  }

  /** With different NULLs it goes wrong: here the second column has one number, and its emitted count is zero. */
  lemma {:induction false} SharedCountGoesWrong(cols: seq<ColState>, count: Option<int>)
    requires After(KInt32, [Outputs([], [], [0], [], []), Outputs([], [], [1], [], [])], cols, count, [[NullCell, Num(7)]])
    ensures var outs, rows := [Outputs([], [], [0], [], []), Outputs([], [], [1], [], [])], [[NullCell, Num(7)]];
            && (forall j :: 0 <= j < |outs| ==> SameShape(cols[j], InitColumn(KInt32, outs[j])))
            && AllOutputs(KInt32, outs, cols, count, 2) == [Output(0, Plain(0)), Output(1, Plain(0))]
            && CountOf(ColumnCells(rows, 1)) == 1
  {
    var outs, rows := [Outputs([], [], [0], [], []), Outputs([], [], [1], [], [])], [[NullCell, Num(7)]];
    KeepsShape(KInt32, outs, cols, count, rows);
    assert Leader(outs, 0) == 0;
    assert ColumnCells(rows, 0) == [NullCell] && ColumnCells(rows, 1) == [Num(7)];
    assert [NullCell][..0] == [] && [Num(7)][..0] == [];
    assert count == Some(0);
    assert ColumnOutputs(KInt32, outs[0], cols[0], 0) == [Output(0, Plain(0))];
    assert ColumnOutputs(KInt32, outs[1], cols[1], 0) == [Output(1, Plain(0))];
    assert AllOutputs(KInt32, outs, cols, count, 1) == [Output(0, Plain(0))];
  }
}
