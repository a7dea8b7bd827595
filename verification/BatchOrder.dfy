/**
 The batch side feeds its window by merging the same segments oldest first.  Its order, ties included,
 is the online order read backwards.
 */
module BatchOrder {
  import opened WindowFrames
  import opened Windows
  import opened WindowRuns
  import opened RequestUnion

  // ----- merging oldest first -----

  /** The first of the first `n` segments whose head key is least, or -1. */
  function PickMin<R>(segs: seq<seq<Entry<R>>>, n: nat): (p: int)
    requires n <= |segs|
    ensures -1 <= p < n && (p >= 0 ==> segs[p] != [])
    ensures forall i :: 0 <= i < n && segs[i] != [] ==> p >= 0 && segs[p][0].key <= segs[i][0].key
    ensures forall i :: 0 <= i < p && segs[i] != [] ==> segs[p][0].key < segs[i][0].key
  {
    if n == 0 then -1
    else
      var p := PickMin(segs, n - 1);
      if segs[n - 1] != [] && (p == -1 || segs[n - 1][0].key < segs[p][0].key) then n - 1 else p
  }

  /** `PickIteratorWithMininumKey`: the running minimum starts at the greatest 64-bit number, above every key. */
  method PickIteratorMin<R>(segs: seq<seq<Entry<R>>>) returns (pos: int)
    ensures pos == PickMin(segs, |segs|)
  {
    pos := -1;
    var order := TWO64 - 1;
    for i := 0 to |segs|
      invariant pos == PickMin(segs, i) && order == if pos == -1 then TWO64 - 1 else segs[pos][0].key
    {
      if segs[i] != [] && segs[i][0].key < order {
        order := segs[i][0].key;
        pos := i;
      }
    }
  }

  /** The order in which the batch side feeds the rows of oldest-first segments to its window. */
  function MergeAscending<R>(segs: seq<seq<Entry<R>>>): seq<Entry<R>>
    decreases Total(segs)
  {
    var p := PickMin(segs, |segs|);
    if p == -1 then []
    else
      TotalDrops(segs, p);
      [segs[p][0]] + MergeAscending(segs[p := segs[p][1..]])
  }

  /** The rows that are fed before an instance row at `key`, in order. */
  function FedRows<R>(iters: seq<seq<Entry<R>>>, key: nat): seq<Entry<R>>
    decreases Total(iters)
  {
    var p := PickMin(iters, |iters|);
    if p == -1 || iters[p][0].key >= key then []
    else
      TotalDrops(iters, p);
      [iters[p][0]] + FedRows(iters[p := iters[p][1..]], key)
  }

  /** The iterators after that. */
  function FedRest<R>(iters: seq<seq<Entry<R>>>, key: nat): (rest: seq<seq<Entry<R>>>)
    ensures |rest| == |iters|
    decreases Total(iters)
  {
    var p := PickMin(iters, |iters|);
    if p == -1 || iters[p][0].key >= key then iters
    else
      TotalDrops(iters, p);
      FedRest(iters[p := iters[p][1..]], key)
  }

  /** The merge goes on where feeding stops: everything before the instance is fed, and nothing else. */
  lemma {:induction false} FeedSplits<R>(iters: seq<seq<Entry<R>>>, key: nat)
    requires AllOldestFirst(iters)
    ensures FedRows(iters, key) + MergeAscending(FedRest(iters, key)) == MergeAscending(iters)
    ensures AtMost(FedRows(iters, key), key - 1) && AllOldestFirst(FedRest(iters, key))
    ensures HeadsFrom(FedRest(iters, key), key)
    decreases Total(iters)
  {
    var p := PickMin(iters, |iters|);
    if p != -1 && iters[p][0].key < key {
      TotalDrops(iters, p);
      FeedSplits(iters[p := iters[p][1..]], key);
    }
  }

  ghost predicate HeadsFrom<R>(iters: seq<seq<Entry<R>>>, key: int) {
    forall i :: 0 <= i < |iters| && iters[i] != [] ==> iters[i][0].key >= key
  }

  // ----- reading backwards -----

  function Reversed<T>(s: seq<T>): (t: seq<T>)
    ensures |t| == |s| && forall i :: 0 <= i < |s| ==> t[i] == s[|s| - 1 - i]
  {
    seq(|s|, i requires 0 <= i < |s| => s[|s| - 1 - i])
  }

  function ReversedAll<R>(segs: seq<seq<Entry<R>>>): (t: seq<seq<Entry<R>>>)
    ensures |t| == |segs| && forall i :: 0 <= i < |segs| ==> t[i] == Reversed(segs[i])
  {
    seq(|segs|, i requires 0 <= i < |segs| => Reversed(segs[i]))
  }

  ghost predicate OldestFirst<R>(s: seq<Entry<R>>) {
    forall i, j :: 0 <= i < j < |s| ==> s[i].key <= s[j].key
  }

  ghost predicate AllOldestFirst<R>(segs: seq<seq<Entry<R>>>) {
    forall i :: 0 <= i < |segs| ==> OldestFirst(segs[i])
  }

  function LastOf<T>(s: seq<T>): T
    requires s != []
  {
    s[|s| - 1]
  }

  /** The segment whose last row is the very last: its key is greatest, and greater than that of any later segment. */
  ghost predicate EndsLast<R>(segs: seq<seq<Entry<R>>>, p: nat) {
    && p < |segs| && segs[p] != []
    && forall i :: 0 <= i < |segs| && segs[i] != [] ==>
         LastOf(segs[i]).key <= LastOf(segs[p]).key && (i > p ==> LastOf(segs[i]).key < LastOf(segs[p]).key)
  }

  ghost predicate StartsFirst<R>(segs: seq<seq<Entry<R>>>, q: nat) {
    && q < |segs| && segs[q] != []
    && forall i :: 0 <= i < |segs| && segs[i] != [] ==>
         segs[q][0].key <= segs[i][0].key && (i < q ==> segs[q][0].key < segs[i][0].key)
  }

  /** Taking the very first row off leaves the very last one in place. */
  lemma {:induction false} StillEndsLast<R>(segs: seq<seq<Entry<R>>>, p: nat, q: nat)
    requires EndsLast(segs, p) && q < |segs| && segs[q] != [] && (p == q ==> |segs[p]| > 1)
    ensures EndsLast(segs[q := segs[q][1..]], p) && LastOf(segs[q := segs[q][1..]][p]) == LastOf(segs[p])
  {
  }

  /** Taking the very last row off leaves the very first one in place, unless it was the only one. */
  lemma {:induction false} StillStartsFirst<R>(segs: seq<seq<Entry<R>>>, p: nat, q: nat, k: nat)
    requires AllOldestFirst(segs) && EndsLast(segs, p) && StartsFirst(segs, q)
    requires var rest := segs[p := segs[p][..|segs[p]| - 1]]; k < |rest| && rest[k] != []
    ensures (p == q ==> |segs[p]| > 1) && StartsFirst(segs[p := segs[p][..|segs[p]| - 1]], q)
  {
    var rest := segs[p := segs[p][..|segs[p]| - 1]];
    if |segs[p]| == 1 {
      assert segs[k] != [] && k != p;
      assert segs[k][0].key <= LastOf(segs[k]).key;
    }
    forall i | 0 <= i < |rest| && rest[i] != [] ensures segs[i] != [] && rest[i][0] == segs[i][0] {
    }
  }

  lemma {:induction false} TrimmedTwice<R>(segs: seq<seq<Entry<R>>>, p: nat, q: nat)
    requires p < |segs| && q < |segs| && segs[p] != [] && segs[q] != [] && (p == q ==> |segs[p]| > 1)
    ensures var first, last := segs[q := segs[q][1..]], segs[p := segs[p][..|segs[p]| - 1]];
            && first[p] != [] && last[q] != [] && last[q][0] == segs[q][0]
            && first[p := first[p][..|first[p]| - 1]] == last[q := last[q][1..]]
  {
    var first, last := segs[q := segs[q][1..]], segs[p := segs[p][..|segs[p]| - 1]];
    if p == q {
      assert segs[p][1..][..|segs[p]| - 2] == segs[p][..|segs[p]| - 1][1..];
    }
  }

  lemma {:induction false} FeedStep<R>(segs: seq<seq<Entry<R>>>, q: nat)
    requires StartsFirst(segs, q)
    ensures MergeAscending(segs) == [segs[q][0]] + MergeAscending(segs[q := segs[q][1..]])
  {
  }

  /** Beside an instance segment, the merge feeds what comes before its first row, and then that row; it wins ties. */
  lemma {:induction false} MergeWithInstance<R>(x: seq<Entry<R>>, iters: seq<seq<Entry<R>>>)
    requires x != []
    ensures MergeAscending([x] + iters) ==
            FedRows(iters, x[0].key) + ([x[0]] + MergeAscending([x[1..]] + FedRest(iters, x[0].key)))
    decreases Total(iters)
  {
    hide MergeAscending;
    var segs, p := [x] + iters, PickMin(iters, |iters|);
    if p != -1 && iters[p][0].key < x[0].key {
      var rest := iters[p := iters[p][1..]];
      assert StartsFirst(segs, p + 1);
      FeedStep(segs, p + 1);
      assert segs[p + 1 := segs[p + 1][1..]] == [x] + rest;
      TotalDrops(iters, p);
      MergeWithInstance(x, rest);
    } else {
      assert StartsFirst(segs, 0);
      FeedStep(segs, 0);
      assert segs[0 := segs[0][1..]] == [x[1..]] + iters;
    }
  }

  lemma {:induction false} EmptySegment<R>(iters: seq<seq<Entry<R>>>)
    ensures MergeAscending([[]] + iters) == MergeAscending(iters)
    decreases Total(iters)
  {
    var segs, p := [[]] + iters, PickMin(iters, |iters|);
    if p == -1 {
      assert PickMin(segs, |segs|) == -1;
    } else {
      var rest := iters[p := iters[p][1..]];
      assert StartsFirst(segs, p + 1);
      FeedStep(segs, p + 1);
      assert segs[p + 1 := segs[p + 1][1..]] == [[]] + rest;
      TotalDrops(iters, p);
      EmptySegment(rest);
    }
  }

  /** The row that ends last is fed last. */
  lemma {:induction false} FedLast<R>(segs: seq<seq<Entry<R>>>, p: nat)
    requires AllOldestFirst(segs) && EndsLast(segs, p)
    ensures MergeAscending(segs) == MergeAscending(segs[p := segs[p][..|segs[p]| - 1]]) + [LastOf(segs[p])]
    decreases Total(segs)
  {
    hide MergeAscending;
    var last := segs[p := segs[p][..|segs[p]| - 1]];
    var q, k := PickMin(segs, |segs|), PickMin(last, |last|);
    assert StartsFirst(segs, q);
    FeedStep(segs, q);
    if k == -1 {
      OnlyRow(segs, p, q);
    } else {
      StillStartsFirst(segs, p, q, k);
      StillEndsLast(segs, p, q);
      TotalDrops(segs, q);
      FedLast(segs[q := segs[q][1..]], p);
      hide EndsLast;
      hide AllOldestFirst;
      FeedStep(last, q);
      TrimmedTwice(segs, p, q);
    }
  }

  lemma {:induction false} OnlyRow<R>(segs: seq<seq<Entry<R>>>, p: nat, q: nat)
    requires p < |segs| && q < |segs| && segs[p] != [] && segs[q] != []
    requires var last := segs[p := segs[p][..|segs[p]| - 1]]; forall i :: 0 <= i < |last| ==> last[i] == []
    ensures q == p && segs[p] == [LastOf(segs[p])] && segs[p := segs[p][1..]] == segs[p := segs[p][..|segs[p]| - 1]]
    ensures MergeAscending(segs[p := segs[p][1..]]) == []
  {
    var last := segs[p := segs[p][..|segs[p]| - 1]];
    assert last[p] == [] && last[q] == [];
    assert segs[p][1..] == [] == segs[p][..|segs[p]| - 1];
    assert PickMin(last, |last|) == -1;
  }

  /** The batch order of oldest-first segments, read backwards, is the online order of the segments read backwards. */
  lemma {:induction false} OrdersAgree<R>(segs: seq<seq<Entry<R>>>)
    requires AllOldestFirst(segs)
    ensures Reversed(MergeAscending(segs)) == Merge(ReversedAll(segs))
    decreases Total(segs)
  {
    hide MergeAscending;
    hide Merge;
    var p := Pick(ReversedAll(segs), |segs|);
    if p == -1 {
      NothingToFeed(segs);
    } else {
      FedLast(segs, p);
      var rest := segs[p := segs[p][..|segs[p]| - 1]];
      InitTotal(segs, p);
      OrdersAgree(rest);
      hide AllOldestFirst;
      hide EndsLast;
      BackStep(segs, p);
      ReversedSnoc(MergeAscending(rest), LastOf(segs[p]));
    }
  }

  lemma {:induction false} ReversedSnoc<T>(s: seq<T>, x: T)
    ensures Reversed(s + [x]) == [x] + Reversed(s)
  {
  }

  lemma {:induction false} NothingToFeed<R>(segs: seq<seq<Entry<R>>>)
    requires Pick(ReversedAll(segs), |segs|) == -1
    ensures MergeAscending(segs) == [] && Merge(ReversedAll(segs)) == []
  {
    forall i | 0 <= i < |segs| ensures segs[i] == [] {
      assert ReversedAll(segs)[i] == [];
    }
    assert PickMin(segs, |segs|) == -1;
  }

  lemma {:induction false} BackStep<R>(segs: seq<seq<Entry<R>>>, p: nat)
    requires p == Pick(ReversedAll(segs), |segs|) && segs[p] != []
    ensures Merge(ReversedAll(segs)) == [LastOf(segs[p])] + Merge(ReversedAll(segs[p := segs[p][..|segs[p]| - 1]]))
  {
    var back, rest := ReversedAll(segs), segs[p := segs[p][..|segs[p]| - 1]];
    assert back[p][1..] == Reversed(rest[p]);
    assert ReversedAll(rest) == back[p := back[p][1..]];
    assert back[p][0] == LastOf(segs[p]);
  }

  lemma {:induction false} InitTotal<R>(segs: seq<seq<Entry<R>>>, p: nat)
    requires p < |segs| && segs[p] != []
    ensures Total(segs[p := segs[p][..|segs[p]| - 1]]) == Total(segs) - 1
  {
    var after := segs[p := segs[p][..|segs[p]| - 1]];
    if p == 0 {
      assert after[1..] == segs[1..];
    } else {
      InitTotal(segs[1..], p - 1);
      assert after[1..] == segs[1..][p - 1 := segs[1..][p - 1][..|segs[1..][p - 1]| - 1]];
    }
  }

  // ----- one history -----

  /** A run that pushes the rows and pops none. */
  function Pushes<R>(rows: seq<Entry<R>>): (turns: seq<Turn<R>>)
    ensures |turns| == |rows| && forall i :: 0 <= i < |rows| ==> turns[i] == Turn(rows[i], false)
  {
    seq(|rows|, i requires 0 <= i < |rows| => Turn(rows[i], false))
  }

  lemma {:induction false} ReversedOrder<R>(segs: seq<seq<Entry<R>>>, k: int)
    requires AllOldestFirst(segs) && forall i :: 0 <= i < |segs| && segs[i] != [] ==> LastOf(segs[i]).key <= k
    ensures AllNewestFirst(ReversedAll(segs)) && HeadsAtMost(ReversedAll(segs), k)
    ensures OldestFirst(MergeAscending(segs)) && AtMost(MergeAscending(segs), k)
  {
    hide MergeAscending;
    hide Merge;
    forall i | 0 <= i < |segs| ensures NewestFirst(ReversedAll(segs)[i]) {
      Flips(segs[i], k);
    }
    OrdersAgree(segs);
    MergeOrdered(ReversedAll(segs), k);
    Flips(MergeAscending(segs), k);
  }

  lemma {:induction false} Flips<R>(s: seq<Entry<R>>, k: int)
    ensures NewestFirst(Reversed(s)) <==> OldestFirst(s)
    ensures AtMost(Reversed(s), k) <==> AtMost(s, k)
  {
    var back := Reversed(s);
    forall i | 0 <= i < |s| ensures s[i] == back[|s| - 1 - i] {
    }
  }
}
