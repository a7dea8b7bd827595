/**
 The batch side as a whole: `RunWindowAggOnKey` feeds a window from an instance segment and union
 segments.  What each instance row's window holds, against what a request for the same row finds.
 */
module BatchRunner {
  import opened Common
  import opened WindowFrames
  import opened Windows
  import opened WindowRuns
  import opened HistoryRuns
  import opened RequestUnion
  import opened BatchOrder

  // ----- the order of pushes -----

  /** The union iterators once the first `k` instance rows are done. */
  function RestTo<R>(instances: seq<Entry<R>>, unions: seq<seq<Entry<R>>>, k: nat): seq<seq<Entry<R>>>
    requires k <= |instances|
  {
    if k == 0 then unions else FedRest(RestTo(instances, unions, k - 1), instances[k - 1].key)
  }

  /** What the window has gone through once the first `k` instance rows are done; instance rows may be taken out again. */
  function TurnsTo<R>(instances: seq<Entry<R>>, unions: seq<seq<Entry<R>>>, pop: bool, k: nat): seq<Turn<R>>
    requires k <= |instances|
    decreases k, 0
  {
    if k == 0 then []
    else TurnsBefore(instances, unions, pop, k - 1) + [Turn(instances[k - 1], pop)]
  }

  /** And right before instance row `k` is pushed: the union rows before it have been fed. */
  function TurnsBefore<R>(instances: seq<Entry<R>>, unions: seq<seq<Entry<R>>>, pop: bool, k: nat): seq<Turn<R>>
    requires k < |instances|
    decreases k, 1
  {
    TurnsTo(instances, unions, pop, k) + Pushes(FedRows(RestTo(instances, unions, k), instances[k].key))
  }

  lemma {:induction false} TurnsStart<R>(r: WindowRange, exclude: bool, instances: seq<Entry<R>>,
                                         unions: seq<seq<Entry<R>>>, pop: bool)
    ensures RestTo(instances, unions, 0) == unions
    ensures RunHistory(r, exclude, TurnsTo(instances, unions, pop, 0)) == Deques([], [])
  {
  }

  lemma {:induction false} TurnsStep<R>(instances: seq<Entry<R>>, unions: seq<seq<Entry<R>>>, pop: bool, k: nat)
    requires k < |instances|
    ensures var iters, e := RestTo(instances, unions, k), instances[k];
            && TurnsBefore(instances, unions, pop, k) ==
               TurnsTo(instances, unions, pop, k) + Pushes(FedRows(iters, e.key))
            && TurnsTo(instances, unions, pop, k + 1) == TurnsBefore(instances, unions, pop, k) + [Turn(e, pop)]
            && RestTo(instances, unions, k + 1) == FedRest(iters, e.key)
  {
  }

  /** The window that instance row `k` is evaluated on, or nothing if the row is refused. */
  function WindowOf<R>(r: WindowRange, exclude: bool, turns: seq<Turn<R>>, e: Entry<R>): Option<seq<Entry<R>>> {
    var before := RunHistory(r, exclude, turns);
    if Refused(before, e) then None else Some(BufferStep(r, exclude, before, e).table)
  }

  lemma {:induction false} RunSteps<R>(r: WindowRange, exclude: bool, turns: seq<Turn<R>>, last: Turn<R>)
    ensures var before, all := RunHistory(r, exclude, turns), turns + [last];
            var after := BufferStep(r, exclude, before, last.entry);
            RunHistory(r, exclude, all) == if last.pop && !Refused(before, last.entry) then PopFront(after) else after
  {
    var all := turns + [last];
    assert all[..|all| - 1] == turns;
  }

  lemma {:induction false} PushesStep<R>(turns: seq<Turn<R>>, e: Entry<R>, rows: seq<Entry<R>>)
    ensures turns + Pushes([e] + rows) == (turns + [Turn(e, false)]) + Pushes(rows)
  {
  }

  /** `WindowProject`: the row is pushed; an instance row is evaluated on the window and may be taken out again. */
  method WindowProject<R>(window: HistoryWindow<R>, e: Entry<R>, isInstance: bool, instanceNotInWindow: bool,
                          ghost turns: seq<Turn<R>>) returns (output: Option<seq<Entry<R>>>)
    requires window.State() == RunHistory(window.range, window.excludeCurrentTime, turns)
    modifies window
    ensures window.State() == RunHistory(window.range, window.excludeCurrentTime,
                                         turns + [Turn(e, isInstance && instanceNotInWindow)])
    ensures output == if isInstance then WindowOf(window.range, window.excludeCurrentTime, turns, e) else None
    ensures output.None? <==> !isInstance || Refused(old(window.State()), e)
  {
    RunSteps(window.range, window.excludeCurrentTime, turns, Turn(e, isInstance && instanceNotInWindow));
    var ok := window.BufferData(e);
    if !ok || !isInstance {
      return None;
    }
    output := Some(window.table);
    if instanceNotInWindow {
      window.PopFrontData();
    }
  }

  /** The inner loop: union rows before the instance row go into the window. */
  method FeedBefore<R>(window: HistoryWindow<R>, unions: seq<seq<Entry<R>>>, instanceOrder: Key,
                       ghost turns: seq<Turn<R>>) returns (iters: seq<seq<Entry<R>>>)
    requires window.State() == RunHistory(window.range, window.excludeCurrentTime, turns)
    modifies window
    ensures iters == FedRest(unions, instanceOrder)
    ensures window.State() ==
            RunHistory(window.range, window.excludeCurrentTime, turns + Pushes(FedRows(unions, instanceOrder)))
  {
    hide RunHistory;
    iters := unions;
    ghost var done := turns;
    var pos := PickIteratorMin(iters);
    while pos >= 0 && iters[pos][0].key < instanceOrder
      invariant pos == PickMin(iters, |iters|)
      invariant FedRest(iters, instanceOrder) == FedRest(unions, instanceOrder)
      invariant done + Pushes(FedRows(iters, instanceOrder)) == turns + Pushes(FedRows(unions, instanceOrder))
      invariant window.State() == RunHistory(window.range, window.excludeCurrentTime, done)
      decreases Total(iters)
    {
      var row := iters[pos][0];
      TotalDrops(iters, pos);
      PushesStep(done, row, FedRows(iters[pos := iters[pos][1..]], instanceOrder));
      var output := WindowProject(window, row, false, false, done);
      done := done + [Turn(row, false)];
      iters := iters[pos := iters[pos][1..]];
      pos := PickIteratorMin(iters);
    }
    assert done + Pushes(FedRows(iters, instanceOrder)) == done;
  }

  /** The windows that the instance rows of one key are evaluated on. */
  function KeyOutputs<R>(r: WindowRange, exclude: bool, pop: bool, instances: seq<Entry<R>>,
                         unions: seq<seq<Entry<R>>>): (outputs: seq<Option<seq<Entry<R>>>>)
    ensures |outputs| == |instances|
    ensures forall k :: 0 <= k < |instances| ==>
              outputs[k] == WindowOf(r, exclude, TurnsBefore(instances, unions, pop, k), instances[k])
  {
    seq(|instances|, k requires 0 <= k < |instances| =>
      WindowOf(r, exclude, TurnsBefore(instances, unions, pop, k), instances[k]))
  }

  /**
   `RunWindowAggOnKey`: each instance row is evaluated on the window right after its own push, until
   the output table, which holds `count` rows of earlier keys, is full.
   */
  method RunWindowAggOnKey<R>(r: WindowRange, exclude: bool, instanceNotInWindow: bool, instances: seq<Entry<R>>,
                              unions: seq<seq<Entry<R>>>, limit: nat, count: nat)
    returns (outputs: seq<Option<seq<Entry<R>>>>)
    ensures outputs <= KeyOutputs(r, exclude, instanceNotInWindow, instances, unions)
    ensures limit == 0 ==> |outputs| == |instances|
    ensures limit > 0 && count >= limit ==> outputs == []
    ensures limit > 0 && count <= limit ==> count + |outputs| == Min(count + |instances|, limit)
  {
    ghost var all := KeyOutputs(r, exclude, instanceNotInWindow, instances, unions);
    TurnsStart(r, exclude, instances, unions, instanceNotInWindow);
    hide TurnsTo;
    hide TurnsBefore;
    hide RestTo;
    hide RunHistory;
    hide WindowOf;
    var window := new HistoryWindow<R>(r, exclude);
    var iters := unions;
    outputs := [];
    var k := 0;
    while k < |instances|
      invariant fresh(window) && window.range == r && window.excludeCurrentTime == exclude
      invariant 0 <= k <= |instances| && outputs == all[..k] && (limit > 0 && k > 0 ==> count + k <= limit)
      invariant iters == RestTo(instances, unions, k)
      invariant window.State() == RunHistory(r, exclude, TurnsTo(instances, unions, instanceNotInWindow, k))
    {
      if limit > 0 && count + k >= limit {
        break;
      }
      var e := instances[k];
      TurnsStep(instances, unions, instanceNotInWindow, k);
      iters := FeedBefore(window, iters, e.key, TurnsTo(instances, unions, instanceNotInWindow, k));
      var output := WindowProject(window, e, true, instanceNotInWindow,
                                  TurnsBefore(instances, unions, instanceNotInWindow, k));
      outputs := outputs + [output];
      k := k + 1;
    }
  }

  // ----- all keys -----

  /** The instance segment and the union segments of one key. */
  datatype Partition<R> = Partition(instances: seq<Entry<R>>, unions: seq<seq<Entry<R>>>)

  /** What the first `n` keys deliver when nothing limits them. */
  function AllKeyOutputs<R>(r: WindowRange, exclude: bool, pop: bool, keys: seq<Partition<R>>,
                            n: nat): seq<Option<seq<Entry<R>>>>
    requires n <= |keys|
  {
    if n == 0 then []
    else AllKeyOutputs(r, exclude, pop, keys, n - 1)
         + KeyOutputs(r, exclude, pop, keys[n - 1].instances, keys[n - 1].unions)
  }

  /** `WindowAggRunner::Run`: all keys share one output table, which ends up with the first rows of the unlimited run. */
  method RunWindowAgg<R>(r: WindowRange, exclude: bool, instanceNotInWindow: bool, keys: seq<Partition<R>>, limit: nat)
    returns (table: seq<Option<seq<Entry<R>>>>)
    ensures var all := AllKeyOutputs(r, exclude, instanceNotInWindow, keys, |keys|);
            table == if limit > 0 then all[..Min(|all|, limit)] else all
  {
    hide KeyOutputs;
    table := [];
    for n := 0 to |keys|
      invariant var all := AllKeyOutputs(r, exclude, instanceNotInWindow, keys, n);
                table == if limit > 0 then all[..Min(|all|, limit)] else all
    {
      var outputs := RunWindowAggOnKey(r, exclude, instanceNotInWindow, keys[n].instances, keys[n].unions, limit, |table|);
      FilledFurther(AllKeyOutputs(r, exclude, instanceNotInWindow, keys, n), table, limit, outputs,
                    KeyOutputs(r, exclude, instanceNotInWindow, keys[n].instances, keys[n].unions));
      table := table + outputs;
    }
  }

  lemma {:induction false} FilledFurther<T>(all: seq<T>, table: seq<T>, limit: nat, outputs: seq<T>, more: seq<T>)
    requires table == if limit > 0 then all[..Min(|all|, limit)] else all
    requires outputs <= more && (limit == 0 ==> |outputs| == |more|) && (limit > 0 && |table| >= limit ==> outputs == [])
    requires limit > 0 && |table| <= limit ==> |table| + |outputs| == Min(|table| + |more|, limit)
    ensures var grown := all + more; table + outputs == if limit > 0 then grown[..Min(|grown|, limit)] else grown
  {
    assert outputs == more[..|outputs|];
  }

  // ----- which rows were pushed, and which survive -----

  function RowsOf<R>(turns: seq<Turn<R>>): (rows: seq<Entry<R>>)
    ensures |rows| == |turns| && forall i :: 0 <= i < |turns| ==> rows[i] == turns[i].entry
  {
    seq(|turns|, i requires 0 <= i < |turns| => turns[i].entry)
  }

  /** The rows that were not popped again, oldest first. */
  function Kept<R>(turns: seq<Turn<R>>): seq<Entry<R>> {
    if turns == [] then []
    else
      var n := |turns| - 1;
      Kept(turns[..n]) + (if turns[n].pop then [] else [turns[n].entry])
  }

  lemma {:induction false} KeptStep<R>(turns: seq<Turn<R>>, last: Turn<R>)
    ensures Kept(turns + [last]) == Kept(turns) + (if last.pop then [] else [last.entry])
  {
    assert (turns + [last])[..|turns|] == turns;
  }

  lemma {:induction false} KeptPushes<R>(turns: seq<Turn<R>>, rows: seq<Entry<R>>)
    ensures Kept(turns + Pushes(rows)) == Kept(turns) + rows
  {
    if rows == [] {
      assert turns + Pushes(rows) == turns;
    } else {
      var init, last := rows[..|rows| - 1], rows[|rows| - 1];
      KeptPushes(turns, init);
      assert turns + Pushes(rows) == (turns + Pushes(init)) + [Turn(last, false)];
      KeptStep(turns + Pushes(init), Turn(last, false));
      assert init + [last] == rows;
    }
  }

  lemma {:induction false} KeptSurvives<R>(turns: seq<Turn<R>>)
    requires Nondecreasing(turns)
    ensures Surviving(turns) == Reversed(Kept(turns))
  {
    if turns != [] {
      var prior, last := turns[..|turns| - 1], turns[|turns| - 1];
      SurvivingSteps(turns);
      KeptSurvives(prior);
      ReversedSnoc(Kept(prior), last.entry);
      assert Kept(prior) + [] == Kept(prior);
    }
  }

  lemma {:induction false} RestOrdered<R>(instances: seq<Entry<R>>, unions: seq<seq<Entry<R>>>, k: nat)
    requires k <= |instances| && AllOldestFirst(unions)
    ensures AllOldestFirst(RestTo(instances, unions, k))
  {
    if k > 0 {
      RestOrdered(instances, unions, k - 1);
      FeedSplits(RestTo(instances, unions, k - 1), instances[k - 1].key);
    }
  }

  /** All pushes up to instance row `k`, popped again or not, begin the merge of the instance segment and the unions. */
  lemma {:induction false} PushesAreMerge<R>(instances: seq<Entry<R>>, unions: seq<seq<Entry<R>>>, pop: bool, k: nat, n: nat)
    requires k <= n <= |instances|
    ensures RowsOf(TurnsTo(instances, unions, pop, k)) + MergeAscending([instances[k..n]] + RestTo(instances, unions, k))
         == MergeAscending([instances[..n]] + unions)
  {
    hide MergeAscending;
    if k == 0 {
      assert instances[0..n] == instances[..n];
      assert RowsOf<R>([]) == [];
    } else {
      PushesAreMerge(instances, unions, pop, k - 1, n);
      var x, iters := instances[k - 1..n], RestTo(instances, unions, k - 1);
      MergeWithInstance(x, iters);
      assert x[1..] == instances[k..n];
      hide FedRows;
      hide FedRest;
      RowsStep(TurnsTo(instances, unions, pop, k - 1), FedRows(iters, x[0].key), x[0], pop,
               MergeAscending([instances[k..n]] + RestTo(instances, unions, k)));
    }
  }

  lemma {:induction false} RowsStep<R>(turns: seq<Turn<R>>, fed: seq<Entry<R>>, e: Entry<R>, pop: bool, rest: seq<Entry<R>>)
    ensures RowsOf((turns + Pushes(fed)) + [Turn(e, pop)]) + rest == RowsOf(turns) + (fed + ([e] + rest))
  {
  }

  /** The segments in which a request finds the history of instance row `k`: its own table too, unless instance rows are left out. */
  function Stored<R>(instances: seq<Entry<R>>, unions: seq<seq<Entry<R>>>, pop: bool, k: nat): seq<seq<Entry<R>>>
    requires k <= |instances|
  {
    if pop then unions else [instances[..k]] + unions
  }

  /** What was kept begins the merge of the stored segments, and goes on with what is still to be fed. */
  lemma {:induction false} KeptIsMerge<R>(instances: seq<Entry<R>>, unions: seq<seq<Entry<R>>>, pop: bool, k: nat)
    requires k <= |instances| && AllOldestFirst(unions)
    ensures Kept(TurnsTo(instances, unions, pop, k)) + MergeAscending(RestTo(instances, unions, k))
         == MergeAscending(Stored(instances, unions, pop, k))
  {
    if pop {
      KeptIsUnions(instances, unions, k);
    } else {
      hide MergeAscending;
      hide RestTo;
      hide TurnsTo;
      hide Kept;
      PushesAreMerge(instances, unions, pop, k, k);
      assert instances[k..k] == [];
      EmptySegment(RestTo(instances, unions, k));
      KeptAll(TurnsTo(instances, unions, pop, k));
      NothingPopped(instances, unions, k);
    }
  }

  lemma {:induction false} KeptIsUnions<R>(instances: seq<Entry<R>>, unions: seq<seq<Entry<R>>>, k: nat)
    requires k <= |instances| && AllOldestFirst(unions)
    ensures Kept(TurnsTo(instances, unions, true, k)) + MergeAscending(RestTo(instances, unions, k)) == MergeAscending(unions)
  {
    hide MergeAscending;
    hide AllOldestFirst;
    hide TurnsBefore;
    hide FedRows;
    hide FedRest;
    if k > 0 {
      KeptIsUnions(instances, unions, k - 1);
      KeptBefore(instances, unions, true, k - 1);
      KeptStep(TurnsBefore(instances, unions, true, k - 1), Turn(instances[k - 1], true));
      hide Kept;
      hide RestTo;
    }
  }

  lemma {:induction false} KeptAll<R>(turns: seq<Turn<R>>)
    ensures NeverPops(turns) ==> Kept(turns) == RowsOf(turns)
  {
    if turns != [] {
      KeptAll(turns[..|turns| - 1]);
    }
  }

  lemma {:induction false} NothingPopped<R>(instances: seq<Entry<R>>, unions: seq<seq<Entry<R>>>, k: nat)
    requires k <= |instances|
    ensures NeverPops(TurnsTo(instances, unions, false, k))
  {
    if k > 0 {
      NothingPopped(instances, unions, k - 1);
    }
  }

  /** The rows fed before instance row `k` move from the front of what is to be fed to the end of what was kept. */
  lemma {:induction false} KeptBefore<R>(instances: seq<Entry<R>>, unions: seq<seq<Entry<R>>>, pop: bool, k: nat)
    requires k < |instances| && AllOldestFirst(unions)
    ensures Kept(TurnsBefore(instances, unions, pop, k)) + MergeAscending(RestTo(instances, unions, k + 1))
         == Kept(TurnsTo(instances, unions, pop, k)) + MergeAscending(RestTo(instances, unions, k))
    ensures HeadsFrom(RestTo(instances, unions, k + 1), instances[k].key)
    ensures Kept(TurnsBefore(instances, unions, pop, k)) ==
            Kept(TurnsTo(instances, unions, pop, k)) + FedRows(RestTo(instances, unions, k), instances[k].key)
    ensures AtMost(FedRows(RestTo(instances, unions, k), instances[k].key), instances[k].key - 1)
  {
    hide MergeAscending;
    hide FedRows;
    hide FedRest;
    var iters, key := RestTo(instances, unions, k), instances[k].key;
    RestOrdered(instances, unions, k);
    FeedSplits(iters, key);
    KeptPushes(TurnsTo(instances, unions, pop, k), FedRows(iters, key));
  }

  lemma {:induction false} TurnsOrdered<R>(instances: seq<Entry<R>>, unions: seq<seq<Entry<R>>>, pop: bool, k: nat)
    requires k <= |instances| && OldestFirst(instances) && AllOldestFirst(unions)
    ensures Nondecreasing(TurnsTo(instances, unions, pop, k))
  {
    hide MergeAscending;
    PushesAreMerge(instances, unions, pop, k, k);
    var turns, segs := TurnsTo(instances, unions, pop, k), [instances[..k]] + unions;
    ReversedOrder(segs, TWO63);
    forall i | 0 <= i < |turns| ensures turns[i].entry == MergeAscending(segs)[i] {
      assert turns[i].entry == RowsOf(turns)[i];
    }
  }

  // ----- the rows at the instance's own key -----

  /** The union rows at key `k`, in the order in which a request visits them. */
  function Late<R>(unions: seq<seq<Entry<R>>>, k: nat): seq<Entry<R>> {
    InFrame(Merge(ReversedAll(unions)), k, k)
  }

  lemma {:induction false} InFrameAt<R>(s: seq<Entry<R>>, k: nat)
    ensures AllAt(InFrame(s, k, k), k)
  {
    if s != [] {
      InFrameAt(s[1..], k);
    }
  }

  ghost predicate AtLeast<R>(s: seq<Entry<R>>, k: int) {
    forall i :: 0 <= i < |s| ==> s[i].key >= k
  }

  lemma {:induction false} InFrameOfSplit<R>(a: seq<Entry<R>>, b: seq<Entry<R>>, k: nat)
    requires AtLeast(a, k) && AtMost(b, k - 1)
    ensures InFrame(a + b, k, k) == Older(a, k)
  {
    if a != [] {
      assert (a + b)[0] == a[0] && (a + b)[1..] == a[1..] + b;
      InFrameOfSplit(a[1..], b, k);
    } else if b != [] {
      assert a + b == b && b[1..] == a + b[1..];
      InFrameOfSplit(a, b[1..], k);
    }
  }

  lemma {:induction false} OlderOfSplit<R>(a: seq<Entry<R>>, b: seq<Entry<R>>, k: nat)
    requires AtMost(b, k)
    ensures Older(a + b, k) == Older(a, k) + b
  {
    if a == [] {
      assert a + b == b;
      OlderAll(b, k);
    } else {
      assert (a + b)[0] == a[0] && (a + b)[1..] == a[1..] + b;
      var head := if a[0].key <= k then [a[0]] else [];
      assert Older(a, k) == head + Older(a[1..], k) && Older(a + b, k) == head + Older(a[1..] + b, k);
      hide Older;
      OlderOfSplit(a[1..], b, k);
    }
  }

  lemma {:induction false} MergeFrom<R>(iters: seq<seq<Entry<R>>>, key: nat)
    requires AllOldestFirst(iters) && HeadsFrom(iters, key)
    ensures AtLeast(MergeAscending(iters), key)
  {
    ReversedOrder(iters, TWO63);
    assert MergeAscending(iters) != [] ==> MergeAscending(iters)[0].key >= key;
  }

  lemma {:induction false} ReversedConcat<T>(a: seq<T>, b: seq<T>)
    ensures Reversed(a + b) == Reversed(b) + Reversed(a)
  {
  }

  /** Instance row `k` is the first at its key, as far as the window can tell. */
  predicate FirstAtKey<R>(instances: seq<Entry<R>>, pop: bool, k: nat)
    requires k < |instances|
  {
    pop || k == 0 || instances[k - 1].key < instances[k].key
  }

  lemma {:induction false} KeptUpTo<R>(instances: seq<Entry<R>>, unions: seq<seq<Entry<R>>>, pop: bool, k: nat)
    requires 0 < k <= |instances| && OldestFirst(instances) && AllOldestFirst(unions)
    ensures AtMost(Kept(TurnsTo(instances, unions, pop, k)), instances[k - 1].key - (if pop then 1 else 0))
  {
    assert k == 1 ==> Kept(TurnsTo(instances, unions, pop, k - 1)) == [];
    hide Kept;
    hide RestTo;
    hide FedRows;
    hide TurnsBefore;
    hide MergeAscending;
    KeptBefore(instances, unions, pop, k - 1);
    KeptStep(TurnsBefore(instances, unions, pop, k - 1), Turn(instances[k - 1], pop));
    if k > 1 {
      KeptUpTo(instances, unions, pop, k - 1);
    }
  }

  /** Only rows below an instance's key are fed, so the union rows at the key are all still to come. */
  lemma {:induction false} FedBelow<R>(instances: seq<Entry<R>>, unions: seq<seq<Entry<R>>>, pop: bool, k: nat)
    requires k < |instances| && OldestFirst(instances) && AllOldestFirst(unions) && FirstAtKey(instances, pop, k)
    ensures AtMost(Kept(TurnsBefore(instances, unions, pop, k)), instances[k].key - 1)
  {
    hide FedRows;
    KeptBefore(instances, unions, pop, k);
    if k > 0 {
      KeptUpTo(instances, unions, pop, k);
    }
  }

  lemma {:induction false} LateIsToCome<R>(instances: seq<Entry<R>>, unions: seq<seq<Entry<R>>>, k: nat)
    requires k < |instances| && OldestFirst(instances) && AllOldestFirst(unions)
    ensures Late(unions, instances[k].key) ==
            Older(Reversed(MergeAscending(RestTo(instances, unions, k + 1))), instances[k].key)
  {
    hide MergeAscending;
    hide Merge;
    hide Kept;
    hide InFrame;
    hide Older;
    var key, fed := instances[k].key, Kept(TurnsBefore(instances, unions, true, k));
    var rest := MergeAscending(RestTo(instances, unions, k + 1));
    KeptIsMerge(instances, unions, true, k);
    KeptBefore(instances, unions, true, k);
    FedBelow(instances, unions, true, k);
    OrdersAgree(unions);
    RestOrdered(instances, unions, k + 1);
    MergeFrom(RestTo(instances, unions, k + 1), key);
    ReversedConcat(fed, rest);
    Flips(fed, key as int - 1);
    InFrameOfSplit(Reversed(rest), Reversed(fed), key);
  }

  /**
   A request for instance row `k` finds in the stored segments the rows that the batch window kept,
   in the same order, and in front of them the union rows at the instance's own key.
   */
  lemma {:induction false} RequestFindsKept<R>(instances: seq<Entry<R>>, unions: seq<seq<Entry<R>>>, pop: bool, k: nat)
    requires k < |instances| && OldestFirst(instances) && AllOldestFirst(unions)
    ensures var e, turns := instances[k], TurnsBefore(instances, unions, pop, k);
            var segs, late := ReversedAll(Stored(instances, unions, pop, k)), Late(unions, e.key);
            && Nondecreasing(turns + [Turn(e, false)]) && AllNewestFirst(segs)
            && Older(Merge(segs), e.key) == late + Surviving(turns) && AllAt(late, e.key)
  {
    hide MergeAscending;
    hide Merge;
    hide Kept;
    hide Older;
    hide InFrame;
    hide Surviving;
    var e, turns := instances[k], TurnsBefore(instances, unions, pop, k);
    var stored, rest := Stored(instances, unions, pop, k), MergeAscending(RestTo(instances, unions, k + 1));
    TurnsOrdered(instances, unions, pop, k + 1);
    TurnsStep(instances, unions, pop, k);
    SamePopOrNot(turns, e, pop);
    KeptSurvives(turns);
    KeptIsMerge(instances, unions, pop, k);
    KeptBefore(instances, unions, pop, k);
    ReversedOrder(stored, TWO63);
    OrdersAgree(stored);
    ReversedConcat(Kept(turns), rest);
    OlderOfSplit(Reversed(rest), Surviving(turns), e.key);
    LateIsToCome(instances, unions, k);
    InFrameAt(Merge(ReversedAll(unions)), e.key);
  }

  lemma {:induction false} SamePopOrNot<R>(turns: seq<Turn<R>>, e: Entry<R>, pop: bool)
    requires Nondecreasing(turns + [Turn(e, pop)])
    ensures Nondecreasing(turns) && Nondecreasing(turns + [Turn(e, false)]) && AtMost(Surviving(turns), e.key)
  {
    var all, plain := turns + [Turn(e, pop)], turns + [Turn(e, false)];
    assert forall i :: 0 <= i < |all| ==> all[i].entry == plain[i].entry;
    assert forall i :: 0 <= i < |turns| ==> turns[i] == all[i];
    assert plain[..|turns|] == turns;
    SurvivingSteps(plain);
    OrderedCons(e, Surviving(turns));
  }

  // ----- online and offline -----

  /**
   The batch side against the online side, for a frame that ends at the current row.  Every instance row
   is evaluated, and its window is the request's window if and only if no union row stands at the
   instance's own key, or those that do are not seen.
   */
  lemma {:induction false} BatchIsOnlineIff<R>(r: WindowRange, pop: bool, instances: seq<Entry<R>>,
                                               unions: seq<seq<Entry<R>>>, k: nat)
    requires r.endOffset == 0 && k < |instances| && OldestFirst(instances) && AllOldestFirst(unions)
    ensures var e, turns := instances[k], TurnsBefore(instances, unions, pop, k);
            var segs, late := ReversedAll(Stored(instances, unions, pop, k)), Late(unions, e.key);
            && WindowOf(r, false, turns, e).Some?
            && (WindowOf(r, false, turns, e).value == [e] + RequestRows(r, e.key, false, segs)
                <==> Unseen(r, [e], late, Surviving(turns), Shift(e.key, r.startOffset)))
  {
    hide RequestRows;
    hide Unseen;
    hide TurnsBefore;
    hide Stored;
    hide Late;
    hide Merge;
    hide Older;
    var e, turns := instances[k], TurnsBefore(instances, unions, pop, k);
    RequestFindsKept(instances, unions, pop, k);
    WindowsAgree(r, false, turns);
    WindowWithoutInstanceIsRescan(r, turns, e);
    OnlineIsOffline(r, turns, e, ReversedAll(Stored(instances, unions, pop, k)), Late(unions, e.key));
  }

  /**
   When no row is taken out again, and whatever the order of the rows, an instance row is left without an
   output exactly when it is older than the newest row accepted before, and otherwise it gets the rescan.
   */
  lemma {:induction false} EvaluatedUnlessOlder<R>(r: WindowRange, turns: seq<Turn<R>>, e: Entry<R>)
    requires r.endOffset == 0 && NeverPops(turns)
    ensures WindowOf(r, false, turns, e) ==
            if Accepts(Latest(turns), e) then Some(Rescan(r, [e] + Surviving(turns), Shift(e.key, r.startOffset))) else None
  {
    hide Rescan;
    hide Surviving;
    hide Latest;
    WindowsAgree(r, false, turns);
    CurrentWindowIsRescan(r, turns, e);
  }

  lemma {:induction false} UnseenIsAlone<R>(r: WindowRange, e: Entry<R>, late: seq<Entry<R>>, s: seq<Entry<R>>)
    requires AllAt(late, e.key) && (s != [] ==> s[0].key < e.key)
    ensures var ts := Shift(e.key, r.startOffset);
            Unseen(r, [e], late, s, ts) <==> late == [] || Visible(r, [e] + (late + s), ts) == 1
  {
    var ts := Shift(e.key, r.startOffset);
    CountCons(e, late + s, ts);
    var n := Visible(r, [e] + (late + s), ts);
    assert n >= 1;
    assert late != [] ==> 0 % |late| == 0;
    assert late != [] && s != [] ==> s[0] != late[0];
  }

  /**
   For the first instance row at its key, and for every one when instance rows are left out of the
   window, that means: there is no union row at the key, or the frame shows the instance row only.
   */
  lemma {:induction false} FirstAtKeyIsOnlineIff<R>(r: WindowRange, pop: bool, instances: seq<Entry<R>>,
                                                    unions: seq<seq<Entry<R>>>, k: nat)
    requires r.endOffset == 0 && k < |instances| && OldestFirst(instances) && AllOldestFirst(unions)
    requires FirstAtKey(instances, pop, k)
    ensures var e, turns := instances[k], TurnsBefore(instances, unions, pop, k);
            var segs, late := ReversedAll(Stored(instances, unions, pop, k)), Late(unions, e.key);
            WindowOf(r, false, turns, e) == Some([e] + RequestRows(r, e.key, false, segs))
            <==> late == [] || Visible(r, [e] + (late + Surviving(turns)), Shift(e.key, r.startOffset)) == 1
  {
    hide RequestRows;
    hide Unseen;
    hide TurnsBefore;
    hide Stored;
    hide Late;
    hide Merge;
    hide Older;
    hide WindowOf;
    hide Visible;
    hide Surviving;
    hide Kept;
    var e, turns := instances[k], TurnsBefore(instances, unions, pop, k);
    BatchIsOnlineIff(r, pop, instances, unions, k);
    RequestFindsKept(instances, unions, pop, k);
    FedBelow(instances, unions, pop, k);
    SamePopOrNot(turns, e, false);
    KeptSurvives(turns);
    UnseenIsAlone(r, e, Late(unions, e.key), Surviving(turns));
  }

  /** With the current time excluded: the two sides agree at every positive key; at key zero the batch side has the row twice. */
  lemma {:induction false} ExcludingBatchIsOnlineIff<R>(r: WindowRange, pop: bool, instances: seq<Entry<R>>,
                                                        unions: seq<seq<Entry<R>>>, k: nat)
    requires r.endOffset == 0 && k < |instances| && OldestFirst(instances) && AllOldestFirst(unions)
    requires pop && k > 0 ==> instances[0].key >= 1
    ensures var e, turns := instances[k], TurnsBefore(instances, unions, pop, k);
            var segs, late := ReversedAll(Stored(instances, unions, pop, k)), Late(unions, e.key);
            && WindowOf(r, true, turns, e).Some?
            && (WindowOf(r, true, turns, e).value == [e] + RequestRows(r, e.key, true, segs)
                <==> e.key >= 1 || SameAtZero(r, e, [e], late, Surviving(turns)))
  {
    hide RequestRows;
    hide SameAtZero;
    hide TurnsBefore;
    hide Stored;
    hide Late;
    hide Merge;
    hide Older;
    hide Surviving;
    var e, turns := instances[k], TurnsBefore(instances, unions, pop, k);
    RequestFindsKept(instances, unions, pop, k);
    PopsPositiveBefore(instances, unions, pop, k);
    WindowsAgree(r, true, turns);
    ExcludingWindowIsRescan(r, turns);
    LatestBelow(turns, e);
    OnlineIsOfflineExcluding(r, turns, e, ReversedAll(Stored(instances, unions, pop, k)), Late(unions, e.key));
  }

  lemma {:induction false} LatestBelow<R>(turns: seq<Turn<R>>, e: Entry<R>)
    requires Nondecreasing(turns + [Turn(e, false)])
    ensures Accepts(Latest(turns), e)
  {
    var all := turns + [Turn(e, false)];
    assert all[..|turns|] == turns;
    SurvivingSteps(all);
  }

  lemma {:induction false} PopsPositiveBefore<R>(instances: seq<Entry<R>>, unions: seq<seq<Entry<R>>>, pop: bool, k: nat)
    requires k < |instances| && OldestFirst(instances) && (pop && k > 0 ==> instances[0].key >= 1)
    ensures PopsPositive(TurnsBefore(instances, unions, pop, k))
  {
    hide FedRows;
    if k > 0 {
      PopsPositiveBefore(instances, unions, pop, k - 1);
      assert instances[0].key <= instances[k - 1].key;
    }
  }

  /** For a range frame that ends before the current row, the union rows at the instance's key play no part at a positive key. */
  lemma {:induction false} RangeBatchIsOnlineUnlessStale<R>(r: WindowRange, exclude: bool, pop: bool,
                                                            instances: seq<Entry<R>>, unions: seq<seq<Entry<R>>>, k: nat)
    requires r.frame == RowsRange && r.startRow == 0 && r.endOffset < 0
    requires k < |instances| && OldestFirst(instances) && AllOldestFirst(unions)
    requires pop && k > 0 ==> instances[0].key >= 1
    ensures var e, turns := instances[k], TurnsBefore(instances, unions, pop, k);
            var segs, late := ReversedAll(Stored(instances, unions, pop, k)), Late(unions, e.key);
            && WindowOf(r, exclude, turns, e).Some?
            && (WindowOf(r, exclude, turns, e).value == RequestRows(r, e.key, exclude, segs)
                <==> if e.key >= 1 then !HasStaleRow(r, turns + [Turn(e, false)])
                     else SameAtZero(r, e, [], late, Surviving(turns)))
  {
    hide RequestRows;
    hide SameAtZero;
    hide TurnsBefore;
    hide Stored;
    hide Late;
    hide Merge;
    hide Older;
    hide Surviving;
    hide HasStaleRow;
    hide BufferStep;
    var e, turns := instances[k], TurnsBefore(instances, unions, pop, k);
    RequestFindsKept(instances, unions, pop, k);
    PopsPositiveBefore(instances, unions, pop, k);
    HistoryAccepts(r, exclude, turns, e);
    RunSteps(r, exclude, turns, Turn(e, false));
    hide RunHistory;
    OnlineIsOfflineUnlessStale(r, exclude, turns, e, ReversedAll(Stored(instances, unions, pop, k)), Late(unions, e.key));
  }

  lemma {:induction false} HistoryAccepts<R>(r: WindowRange, exclude: bool, turns: seq<Turn<R>>, e: Entry<R>)
    requires r.startRow == 0 && r.endOffset < 0 && Nondecreasing(turns + [Turn(e, false)]) && PopsPositive(turns)
    ensures !Refused(RunHistory(r, exclude, turns), e)
  {
    var all := turns + [Turn(e, false)];
    assert all[..|turns|] == turns;
    SurvivingSteps(all);
    HistoryWindowIsRescan(r, exclude, turns);
    NothingRefused(r, RunHistory(r, exclude, turns), Surviving(turns), e, LastMove(r, turns), EndTs(r, turns));
  }

  /** One union row at the instance's key and a frame of two rows: the batch window misses the row that the request finds. */
  lemma {:induction false} LateRowShown()
    ensures var r, e, u := WindowRange(Rows, 0, 0, 1, 0), Entry(5, 'e'), Entry(5, 'u');
            && WindowOf(r, false, TurnsBefore([e], [[u]], true, 0), e) == Some([e])
            && RequestRows(r, 5, false, ReversedAll(Stored([e], [[u]], true, 0))) == [u]
  {
    var r, e, u := WindowRange(Rows, 0, 0, 1, 0), Entry(5, 'e'), Entry(5, 'u');
    assert FedRows([[u]], 5) == [];
    assert TurnsBefore([e], [[u]], true, 0) == [];
    assert [e] + [] == [e];
    TrimIsRescan(r, [e], 5);
    assert [e][..1] == [e];
    assert ReversedAll([[u]]) == [[u]] by {
      assert Reversed([u]) == [u];
    }
    assert SeekAll([[u]], 5) == [[u]];
    assert Merge([[u]]) == [u] by {
      assert [[u]][0 := []] == [[]];
      assert Merge([[u]])[0] == u;
    }
  }
}
