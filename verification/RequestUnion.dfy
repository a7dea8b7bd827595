/**
 The online side: for one request row, `RequestUnionWindow` scans the stored segments from newest to
 oldest and collects the request's window.  The same frame must select the same rows as the sliding
 window of the batch side, which saw the rows one by one.
 */
module RequestUnion {
  import opened Common
  import opened WindowFrames
  import opened Windows
  import opened WindowRuns
  import opened HistoryRuns

  datatype Status = InWindow | ExceedWindow | BeforeWindow

  /** `GetWindowPositionStatus`. */
  function PositionStatus(frame: Frame, outOfRows: bool, before: bool, exceed: bool): Status {
    match frame
    case Rows => if outOfRows then ExceedWindow else InWindow
    case RowsMergeRowsRange =>
      if outOfRows then (if before then BeforeWindow else if exceed then ExceedWindow else InWindow) else InWindow
    case RowsRange => if exceed then ExceedWindow else if before then BeforeWindow else InWindow
  }

  // ----- merging segments -----

  /** The last of the first `n` segments whose head key is greatest, or -1. */
  function Pick<R>(segs: seq<seq<Entry<R>>>, n: nat): (p: int)
    requires n <= |segs|
    ensures -1 <= p < n && (p >= 0 ==> segs[p] != [])
    ensures forall i :: 0 <= i < n && segs[i] != [] ==> p >= 0 && segs[i][0].key <= segs[p][0].key
    ensures forall i :: p < i < n && segs[i] != [] ==> p >= 0 && segs[i][0].key < segs[p][0].key
  {
    if n == 0 then -1
    else
      var p := Pick(segs, n - 1);
      if segs[n - 1] != [] && (p == -1 || segs[n - 1][0].key >= segs[p][0].key) then n - 1 else p
  }

  /** `PickIteratorWithMaximizeKey`: the running maximum starts at zero, so the test is never against a missing key. */
  method PickIterator<R>(segs: seq<seq<Entry<R>>>) returns (pos: int)
    ensures pos == Pick(segs, |segs|)
  {
    pos := -1;
    var order := 0;
    for i := 0 to |segs|
      invariant pos == Pick(segs, i) && order == if pos == -1 then 0 else segs[pos][0].key
    {
      if segs[i] != [] && segs[i][0].key >= order {
        order := segs[i][0].key;
        pos := i;
      }
    }
  }

  function Total<R>(segs: seq<seq<Entry<R>>>): nat {
    if segs == [] then 0 else |segs[0]| + Total(segs[1..])
  }

  lemma {:induction false} TotalDrops<R>(segs: seq<seq<Entry<R>>>, p: nat)
    requires p < |segs| && segs[p] != []
    ensures Total(segs[p := segs[p][1..]]) == Total(segs) - 1
  {
    var after := segs[p := segs[p][1..]];
    if p == 0 {
      assert after[1..] == segs[1..];
    } else {
      TotalDrops(segs[1..], p - 1);
      assert after[1..] == segs[1..][p - 1 := segs[1..][p - 1][1..]];
    }
  }

  /** The order in which the rows of all segments are visited. */
  function Merge<R>(segs: seq<seq<Entry<R>>>): seq<Entry<R>>
    decreases Total(segs)
  {
    var p := Pick(segs, |segs|);
    if p == -1 then []
    else
      TotalDrops(segs, p);
      [segs[p][0]] + Merge(segs[p := segs[p][1..]])
  }

  ghost predicate AllNewestFirst<R>(segs: seq<seq<Entry<R>>>) {
    forall i :: 0 <= i < |segs| ==> NewestFirst(segs[i])
  }

  ghost predicate HeadsAtMost<R>(segs: seq<seq<Entry<R>>>, k: int) {
    forall i :: 0 <= i < |segs| && segs[i] != [] ==> segs[i][0].key <= k
  }

  lemma {:induction false} TailNewestFirst<R>(segs: seq<seq<Entry<R>>>, p: nat)
    requires AllNewestFirst(segs) && p < |segs| && segs[p] != []
    ensures AllNewestFirst(segs[p := segs[p][1..]])
    ensures forall k :: HeadsAtMost(segs, k) ==> HeadsAtMost(segs[p := segs[p][1..]], k)
  {
  }

  /** Merging newest-first segments visits the rows newest first. */
  lemma {:induction false} MergeOrdered<R>(segs: seq<seq<Entry<R>>>, k: int)
    requires AllNewestFirst(segs) && HeadsAtMost(segs, k)
    ensures NewestFirst(Merge(segs)) && AtMost(Merge(segs), k)
    decreases Total(segs)
  {
    var p := Pick(segs, |segs|);
    if p != -1 {
      var rest := segs[p := segs[p][1..]];
      TotalDrops(segs, p);
      TailNewestFirst(segs, p);
      MergeOrdered(rest, segs[p][0].key);
      OrderedCons(segs[p][0], Merge(rest));
    }
  }

  /** An iterator's `Seek`: the first row at or before `ts`. */
  function Seek<R>(s: seq<Entry<R>>, ts: nat): seq<Entry<R>> {
    if s == [] || s[0].key <= ts then s else Seek(s[1..], ts)
  }

  function SeekAll<R>(segs: seq<seq<Entry<R>>>, ts: nat): (r: seq<seq<Entry<R>>>)
    ensures |r| == |segs| && forall i :: 0 <= i < |segs| ==> r[i] == Seek(segs[i], ts)
  {
    seq(|segs|, i requires 0 <= i < |segs| => Seek(segs[i], ts))
  }

  /** Seeking in every segment is dropping the newer rows of the whole. */
  lemma {:induction false} MergeAfterSeek<R>(segs: seq<seq<Entry<R>>>, ts: nat)
    requires AllNewestFirst(segs)
    ensures Merge(SeekAll(segs, ts)) == Older(Merge(segs), ts)
    decreases Total(segs)
  {
    var p := Pick(segs, |segs|);
    if p == -1 {
      assert SeekAll(segs, ts) == segs;
    } else {
      var head, rest := segs[p][0], segs[p := segs[p][1..]];
      if head.key <= ts {
        assert SeekAll(segs, ts) == segs;
        MergeOrdered(segs, ts);
        OlderAll(Merge(segs), ts);
      } else {
        TotalDrops(segs, p);
        TailNewestFirst(segs, p);
        MergeAfterSeek(rest, ts);
        assert SeekAll(segs, ts) == SeekAll(rest, ts);
        assert Merge(segs)[1..] == Merge(rest);
      }
    }
  }

  // ----- the scan -----

  datatype Bounds = Bounds(start: nat, end: nat, rowsPreceding: nat, maxSize: nat)

  /** The rows that the scan collects once `cnt` rows count as taken. */
  function Scan<R>(frame: Frame, b: Bounds, cnt: nat, m: seq<Entry<R>>): seq<Entry<R>>
    decreases |m|
  {
    if m == [] || (b.maxSize > 0 && cnt >= b.maxSize) then []
    else
      match PositionStatus(frame, cnt > b.rowsPreceding, m[0].key > b.end, m[0].key < b.start)
      case ExceedWindow => []
      case InWindow => [m[0]] + Scan(frame, b, cnt + 1, m[1..])
      case BeforeWindow => Scan(frame, b, cnt, m[1..])
  }

  /** The bounds of a request at time `ts`; a negative time means that the frame has no order column. */
  function BoundsOf(r: WindowRange, ts: int, exclude: bool): Bounds
    requires ts < TWO63
  {
    if ts < 0 then Bounds(0, TWO64 - 1, 0, 0)
    else
      Bounds(Shift(ts, r.startOffset),
             if exclude && r.endOffset == 0 then (if ts == 0 then 0 else ts - 1) else Shift(ts, r.endOffset),
             r.startRow, r.maxSize)
  }

  /** How many rows the request itself counts for: none when the frame ends before it. */
  function RequestCount(r: WindowRange, b: Bounds, key: nat): nat {
    if PositionStatus(r.frame, 0 > b.rowsPreceding, r.endOffset < 0, key < b.start) == InWindow then 1 else 0
  }

  /** The rows of the request's window, behind the request row. */
  function RequestRows<R>(r: WindowRange, ts: int, exclude: bool, segs: seq<seq<Entry<R>>>): seq<Entry<R>>
    requires ts < TWO63
  {
    var b := BoundsOf(r, ts, exclude);
    Scan(r.frame, b, RequestCount(r, b, if ts > 0 then ts else 0), Merge(SeekAll(segs, b.end)))
  }

  /** The scan loop over positioned iterators. */
  method ScanSegments<R>(frame: Frame, b: Bounds, taken: nat, segs: seq<seq<Entry<R>>>) returns (rows: seq<Entry<R>>)
    ensures rows == Scan(frame, b, taken, Merge(segs))
  {
    var iters := segs;
    var cnt: nat := taken;
    var pos := PickIterator(iters);
    rows := [];
    while pos != -1
      invariant pos == Pick(iters, |iters|)
      invariant rows + Scan(frame, b, cnt, Merge(iters)) == Scan(frame, b, taken, Merge(segs))
      decreases Total(iters)
    {
      if b.maxSize > 0 && cnt >= b.maxSize {
        break;
      }
      var head := iters[pos][0];
      TotalDrops(iters, pos);
      var status := PositionStatus(frame, cnt > b.rowsPreceding, head.key > b.end, head.key < b.start);
      if status == ExceedWindow {
        break;
      }
      ScanStep(frame, b, cnt, head, Merge(iters[pos := iters[pos][1..]]), rows);
      if status == InWindow {
        rows := rows + [head];
        cnt := cnt + 1;
      }
      iters := iters[pos := iters[pos][1..]];
      pos := PickIterator(iters);
    }
    assert rows + [] == rows;
  }

  lemma {:induction false} ScanStep<R>(frame: Frame, b: Bounds, cnt: nat, head: Entry<R>, rest: seq<Entry<R>>,
                                       rows: seq<Entry<R>>)
    requires !(b.maxSize > 0 && cnt >= b.maxSize)
    ensures match PositionStatus(frame, cnt > b.rowsPreceding, head.key > b.end, head.key < b.start)
            case ExceedWindow => true
            case InWindow => rows + Scan(frame, b, cnt, [head] + rest) == (rows + [head]) + Scan(frame, b, cnt + 1, rest)
            case BeforeWindow => Scan(frame, b, cnt, [head] + rest) == Scan(frame, b, cnt, rest)
  {
    assert ([head] + rest)[1..] == rest;
  }

  /** The request row, if it is asked for, and then the rows of the stored segments. */
  method RequestUnionWindow<R>(r: WindowRange, ts: int, request: R, segs: seq<seq<Entry<R>>>, outputRequestRow: bool,
                               exclude: bool) returns (table: seq<Entry<R>>)
    requires ts < TWO63
    ensures var requestRow := Entry(if ts > 0 then ts else 0, request);
            table == (if outputRequestRow then [requestRow] else []) + RequestRows(r, ts, exclude, segs)
  {
    var b := BoundsOf(r, ts, exclude);
    var requestKey: Key := if ts > 0 then ts else 0;
    var cnt := 0;
    table := if outputRequestRow then [Entry(requestKey, request)] else [];
    if PositionStatus(r.frame, cnt > b.rowsPreceding, r.endOffset < 0, requestKey < b.start) == InWindow {
      cnt := cnt + 1;
    }
    var rows := ScanSegments(r.frame, b, cnt, SeekAll(segs, b.end));
    table := table + rows;
  }

  // ----- the scan is a rescan -----

  function Minus(a: nat, b: nat): nat { if a <= b then 0 else a - b }

  /** How many rows the scan takes from `m`. */
  function Taken<R>(r: WindowRange, m: seq<Entry<R>>, start: nat, cnt: nat): nat {
    var limit := if r.maxSize > 0 then Min(|m|, Minus(r.maxSize, cnt)) else |m|;
    match r.frame
    case Rows => Min(limit, Minus(r.startRow + 1, cnt))
    case RowsRange => Min(limit, CountFrom(m, start))
    case RowsMergeRowsRange => Min(limit, Max(Minus(r.startRow + 1, cnt), CountFrom(m, start)))
  }

  /** Whether the scan goes on with a row at `key`, not after the end, when `cnt` rows are taken. */
  predicate Continues(r: WindowRange, start: nat, cnt: nat, key: nat) {
    !(r.maxSize > 0 && cnt >= r.maxSize) && PositionStatus(r.frame, cnt > r.startRow, false, key < start) == InWindow
  }

  lemma {:induction false} TakenStep<R>(r: WindowRange, m: seq<Entry<R>>, start: nat, cnt: nat)
    requires m != [] && NewestFirst(m)
    ensures Taken(r, m, start, cnt) == if Continues(r, start, cnt, m[0].key) then 1 + Taken(r, m[1..], start, cnt + 1) else 0
  {
    CountSplits(m, start);
    CountSplits(m[1..], start);
  }

  lemma {:induction false} ScanTakes<R>(r: WindowRange, b: Bounds, cnt: nat, m: seq<Entry<R>>)
    requires NewestFirst(m) && AtMost(m, b.end)
    requires b.rowsPreceding == r.startRow && b.maxSize == r.maxSize
    ensures Taken(r, m, b.start, cnt) <= |m|
    ensures Scan(r.frame, b, cnt, m) == m[..Taken(r, m, b.start, cnt)]
    decreases |m|
  {
    hide Taken;
    if m == [] {
      NothingTaken(r, m, b.start, cnt);
    } else {
      TakenStep(r, m, b.start, cnt);
      if Continues(r, b.start, cnt, m[0].key) {
        var rest := m[1..];
        ScanTakes(r, b, cnt + 1, rest);
        var n := Taken(r, rest, b.start, cnt + 1);
        assert [m[0]] + rest[..n] == m[..n + 1];
      }
    }
  }

  lemma {:induction false} NothingTaken<R>(r: WindowRange, m: seq<Entry<R>>, start: nat, cnt: nat)
    requires m == []
    ensures Taken(r, m, start, cnt) == 0
  {
  }

  lemma {:induction false} TakenIsVisible<R>(r: WindowRange, e: Entry<R>, m: seq<Entry<R>>, start: nat)
    requires NewestFirst(m) && start <= e.key
    ensures Taken(r, m, start, 1) <= |m| && Visible(r, [e] + m, start) == 1 + Taken(r, m, start, 1)
    ensures r.frame == RowsRange ==> Taken(r, m, start, 0) == Visible(r, m, start)
  {
    CountCons(e, m, start);
    CountSplits(m, start);
  }

  // ----- online and offline agree -----

  /** Whatever the bounds, the request's rows are the newest stored rows up to the end, as many as are taken. */
  lemma {:induction false} RequestTakes<R>(r: WindowRange, e: Entry<R>, exclude: bool, segs: seq<seq<Entry<R>>>)
    requires AllNewestFirst(segs)
    ensures var b := BoundsOf(r, e.key, exclude);
            var m, cnt := Older(Merge(segs), b.end), RequestCount(r, b, e.key);
            && NewestFirst(m) && AtMost(m, b.end) && Taken(r, m, b.start, cnt) <= |m|
            && RequestRows(r, e.key, exclude, segs) == m[..Taken(r, m, b.start, cnt)]
  {
    hide Taken;
    hide Scan;
    hide Merge;
    hide Seek;
    var b := BoundsOf(r, e.key, exclude);
    var s := Merge(segs);
    MergeAfterSeek(segs, b.end);
    MergeOrdered(segs, TWO63);
    SplitAtKey(s, b.end);
    OrderedConcat(Newer(s, b.end), Older(s, b.end));
    ScanTakes(r, b, RequestCount(r, b, e.key), Older(s, b.end));
  }

  lemma {:induction false} RescanAfterRequest<R>(r: WindowRange, e: Entry<R>, m: seq<Entry<R>>, start: nat)
    requires NewestFirst(m) && start <= e.key
    ensures Taken(r, m, start, 1) <= |m| && [e] + m[..Taken(r, m, start, 1)] == Rescan(r, [e] + m, start)
  {
    TakenIsVisible(r, e, m, start);
    hide Taken;
    hide Visible;
    var n := Taken(r, m, start, 1);
    assert ([e] + m)[..1 + n] == [e] + m[..n];
  }

  /**
   A frame that ends at the request, or that counts rows: the request's window is the rescan of the
   request and the history up to the frame's end.
   */
  lemma {:induction false} RequestIsRescan<R>(r: WindowRange, e: Entry<R>, exclude: bool, segs: seq<seq<Entry<R>>>,
                                              s: seq<Entry<R>>)
    requires (r.endOffset == 0 || r.frame != RowsRange) && AllNewestFirst(segs) && s == Merge(segs)
    ensures var end := if exclude && r.endOffset == 0 && e.key >= 1 then e.key - 1 else Shift(e.key, r.endOffset);
            [e] + RequestRows(r, e.key, exclude, segs) == Rescan(r, [e] + Older(s, end), Shift(e.key, r.startOffset))
  {
    hide Taken;
    hide Merge;
    hide Rescan;
    hide RequestRows;
    var b := BoundsOf(r, e.key, exclude);
    RequestTakes(r, e, exclude, segs);
    RescanAfterRequest(r, e, Older(s, b.end), b.start);
  }

  /** Without an order column there is no start, no end and no limit: a frame of rows is the request alone, any other takes everything. */
  lemma {:induction false} RequestWithoutOrder<R>(r: WindowRange, ts: int, exclude: bool, segs: seq<seq<Entry<R>>>)
    requires ts < 0
    ensures RequestRows(r, ts, exclude, segs) == if r.frame == Rows then [] else Merge(segs)
  {
    assert SeekAll(segs, TWO64 - 1) == segs;
    if r.frame != Rows {
      ScanAll(r.frame, RequestCount(r, Bounds(0, TWO64 - 1, 0, 0), 0), Merge(segs));
    }
  }

  lemma {:induction false} ScanAll<R>(frame: Frame, cnt: nat, m: seq<Entry<R>>)
    requires frame != Rows
    ensures Scan(frame, Bounds(0, TWO64 - 1, 0, 0), cnt, m) == m
    decreases |m|
  {
    if m != [] {
      ScanAll(frame, cnt + 1, m[1..]);
    }
  }

  // ----- rows that only one side has -----

  ghost predicate AllAt<R>(s: seq<Entry<R>>, k: nat) {
    forall i :: 0 <= i < |s| ==> s[i].key == k
  }

  /** The first `n` rows of `s` are `late` over and over. */
  ghost predicate Repeats<R>(late: seq<Entry<R>>, s: seq<Entry<R>>, n: nat)
    requires late != []
  {
    n <= |s| && forall i :: 0 <= i < n ==> s[i] == late[i % |late|]
  }

  /** The window on `p + (late + s)` does not show that `late` is there: it ends before, or the rows behind are copies. */
  ghost predicate Unseen<R>(r: WindowRange, p: seq<Entry<R>>, late: seq<Entry<R>>, s: seq<Entry<R>>, ts: nat) {
    late == [] ||
    var n := Visible(r, p + (late + s), ts);
    n <= |p| || Repeats(late, s, n - |p|)
  }

  lemma {:induction false} SameAsShifted<R>(late: seq<Entry<R>>, s: seq<Entry<R>>, n: nat)
    requires late != [] && n <= |s|
    ensures (late + s)[..n] == s[..n] <==> Repeats(late, s, n)
  {
    if n > 0 {
      SameAsShifted(late, s, n - 1);
      if Repeats(late, s, n - 1) {
        ShiftedAt(late, s, n - 1);
      }
      SamePrefix(late + s, s, n);
    }
  }

  lemma {:induction false} SamePrefix<R>(a: seq<Entry<R>>, b: seq<Entry<R>>, n: nat)
    requires 0 < n <= |a| && n <= |b|
    ensures a[..n] == b[..n] <==> a[..n - 1] == b[..n - 1] && a[n - 1] == b[n - 1]
  {
    assert a[..n] == a[..n - 1] + [a[n - 1]] && b[..n] == b[..n - 1] + [b[n - 1]];
  }

  lemma {:induction false} ShiftedAt<R>(late: seq<Entry<R>>, s: seq<Entry<R>>, i: nat)
    requires late != [] && i < |s| && Repeats(late, s, i)
    ensures (late + s)[i] == late[i % |late|]
  {
    if i >= |late| {
      ModUnique(i, i / |late|, i % |late|, |late|);
      ModUnique(i - |late|, i / |late| - 1, i % |late|, |late|);
      assert s[i - |late|] == late[(i - |late|) % |late|];
    } else {
      ModUnique(i, 0, i, |late|);
    }
  }

  lemma {:induction false} CountPast<R>(a: seq<Entry<R>>, s: seq<Entry<R>>, ts: nat)
    requires forall i :: 0 <= i < |a| ==> a[i].key >= ts
    ensures CountFrom(a + s, ts) == |a| + CountFrom(s, ts)
  {
    if a == [] {
      assert a + s == s;
    } else {
      CountPast(a[1..], s, ts);
      assert a + s == [a[0]] + (a[1..] + s);
      CountCons(a[0], a[1..] + s, ts);
    }
  }

  lemma {:induction false} RepeatedCounts<R>(late: seq<Entry<R>>, s: seq<Entry<R>>, n: nat, ts: nat)
    requires late != [] && NewestFirst(s) && Repeats(late, s, n)
    requires forall i :: 0 <= i < |late| ==> late[i].key >= ts
    ensures CountFrom(s, ts) >= n
  {
    CountSplits(s, ts);
    if n > 0 {
      assert s[n - 1] == late[(n - 1) % |late|];
    }
  }

  /** The same number of rows shows if and only if no row shows that `late` pushed back out of the window. */
  lemma {:induction false} VisibleTogether<R>(r: WindowRange, p: seq<Entry<R>>, late: seq<Entry<R>>, s: seq<Entry<R>>, ts: nat)
    requires late != [] && NewestFirst(s)
    requires forall i :: 0 <= i < |p| ==> p[i].key >= ts
    requires forall i :: 0 <= i < |late| ==> late[i].key >= ts
    ensures var with, without := Visible(r, p + (late + s), ts), Visible(r, p + s, ts);
            && (with <= |p| ==> without == with)
            && (with > |p| && with - |p| <= CountFrom(s, ts) ==> without == with)
            && without <= with
  {
    CountPast(p, late + s, ts);
    CountPast(late, s, ts);
    CountPast(p, s, ts);
    CountSplits(s, ts);
  }

  /** Two windows that differ in the rows `late` show the same if and only if those are unseen. */
  lemma {:induction false} InsertedUnseen<R>(r: WindowRange, p: seq<Entry<R>>, late: seq<Entry<R>>, s: seq<Entry<R>>, ts: nat)
    requires NewestFirst(s)
    requires forall i :: 0 <= i < |p| ==> p[i].key >= ts
    requires forall i :: 0 <= i < |late| ==> late[i].key >= ts
    ensures Rescan(r, p + s, ts) == Rescan(r, p + (late + s), ts) <==> Unseen(r, p, late, s, ts)
  {
    if late == [] {
      assert late + s == s;
    } else {
      var with, without := Visible(r, p + (late + s), ts), Visible(r, p + s, ts);
      VisibleTogether(r, p, late, s, ts);
      hide Visible;
      if with > |p| && with - |p| <= |s| && Repeats(late, s, with - |p|) {
        RepeatedCounts(late, s, with - |p|, ts);
      }
      if with == without {
        PrefixesAgree(p, late, s, with);
      }
      assert |Rescan(r, p + s, ts)| == without && |Rescan(r, p + (late + s), ts)| == with;
    }
  }

  lemma {:induction false} PrefixesAgree<R>(p: seq<Entry<R>>, late: seq<Entry<R>>, s: seq<Entry<R>>, n: nat)
    requires late != [] && n <= |p + s|
    ensures (p + s)[..n] == (p + (late + s))[..n] <==> n <= |p| || Repeats(late, s, n - |p|)
  {
    if n <= |p| {
      assert (p + s)[..n] == p[..n] == (p + (late + s))[..n];
    } else {
      var k := n - |p|;
      SameAsShifted(late, s, k);
      assert (p + s)[..n] == p + s[..k];
      assert (p + (late + s))[..n] == p + (late + s)[..k];
      assert (p + s[..k])[|p|..] == s[..k] && (p + (late + s)[..k])[|p|..] == (late + s)[..k];
    }
  }

  lemma {:induction false} OlderTwice<R>(s: seq<Entry<R>>, a: nat, b: nat)
    requires a <= b
    ensures Older(Older(s, b), a) == Older(s, a)
  {
    if s != [] {
      OlderTwice(s[1..], a, b);
      var rest := Older(s[1..], b);
      assert Older(s, b) == if s[0].key <= b then [s[0]] + rest else rest;
      assert ([s[0]] + rest)[1..] == rest;
    }
  }

  lemma {:induction false} OlderSkips<R>(late: seq<Entry<R>>, s: seq<Entry<R>>, a: nat)
    requires Above(late, a)
    ensures Older(late + s, a) == Older(s, a)
  {
    if late == [] {
      assert late + s == s;
    } else {
      OlderSkips(late[1..], s, a);
      assert (late + s)[0] == late[0] && (late + s)[1..] == late[1..] + s;
    }
  }

  // ----- online and offline -----

  /**
   Online-offline consistency.  A batch window was fed any run of rows.  A request at the same point
   finds in its segments the surviving rows and, beside them, rows `late` at its own key that the batch
   window was not fed.  The two see the same window if and only if the late rows do not show.
   */
  lemma {:induction false} OnlineIsOffline<R>(r: WindowRange, turns: seq<Turn<R>>, e: Entry<R>, segs: seq<seq<Entry<R>>>,
                                              late: seq<Entry<R>>)
    requires r.endOffset == 0 && Nondecreasing(turns + [Turn(e, false)])
    requires AllNewestFirst(segs) && Older(Merge(segs), e.key) == late + Surviving(turns) && AllAt(late, e.key)
    ensures [e] + RequestRows(r, e.key, false, segs) == CurrentStep(r, false, Run(r, false, turns), e).table
       <==> Unseen(r, [e], late, Surviving(turns), Shift(e.key, r.startOffset))
  {
    hide Merge;
    hide Unseen;
    hide Rescan;
    hide Run;
    hide CurrentStep;
    hide RequestRows;
    WindowWithoutInstanceIsRescan(r, turns, e);
    RequestIsRescan(r, e, false, segs, Merge(segs));
    SurvivingOrdered(turns);
    InsertedUnseen(r, [e], late, Surviving(turns), Shift(e.key, r.startOffset));
  }

  /** A frame at key zero that is filled by copies of the row itself, so that one row more does not show. */
  ghost predicate OnlyCopies<R>(r: WindowRange, e: Entry<R>, x: seq<Entry<R>>) {
    var v := Visible(r, [e] + x, 0);
    v <= |x| && forall i :: 0 <= i < v ==> x[i] == e
  }

  /**
   At key zero, the batch window has the row once more behind `p`, and the request has the rows
   `late` there.  The two show the same if only copies of the row show, or if the first late row is
   such a copy and the others are unseen.
   */
  ghost predicate SameAtZero<R>(r: WindowRange, e: Entry<R>, p: seq<Entry<R>>, late: seq<Entry<R>>, s: seq<Entry<R>>) {
    if late == [] then OnlyCopies(r, e, p + s)
    else Visible(r, p + (late + s), 0) <= |p| || (late[0] == e && Unseen(r, p + [e], late[1..], s, 0))
  }

  /**
   The same with the current time excluded.  At a positive key the two sides agree, for the late rows
   are left out.  At key zero the batch window shows the row twice.
   */
  lemma {:induction false} OnlineIsOfflineExcluding<R>(r: WindowRange, turns: seq<Turn<R>>, e: Entry<R>,
                                                       segs: seq<seq<Entry<R>>>, late: seq<Entry<R>>)
    requires r.endOffset == 0 && PopsPositive(turns) && Accepts(Latest(turns), e)
    requires AllNewestFirst(segs) && Older(Merge(segs), e.key) == late + Surviving(turns) && AllAt(late, e.key)
    ensures [e] + RequestRows(r, e.key, true, segs) == CurrentStep(r, true, Run(r, true, turns), e).table
       <==> e.key >= 1 || SameAtZero(r, e, [e], late, Surviving(turns))
  {
    hide Run;
    hide CurrentStep;
    hide Merge;
    hide Surviving;
    hide Rescan;
    hide RequestRows;
    hide Older;
    hide SameAtZero;
    ExcludingWindowIsRescan(r, turns);
    ExcludingAccepted(r, turns, e);
    RequestIsRescan(r, e, true, segs, Merge(segs));
    if e.key >= 1 {
      OlderTwice(Merge(segs), e.key - 1, e.key);
      OlderSkips(late, Surviving(turns), e.key - 1);
      OlderSkips([e], Surviving(turns), e.key - 1);
    } else {
      SurvivingBelow(turns, e);
      RescansAtZero(r, e, [e], late, Surviving(turns));
    }
  }

  lemma {:induction false} VisibleAtZero<R>(r: WindowRange, x: seq<Entry<R>>, y: seq<Entry<R>>)
    requires AtMost(x, 0) && AtMost(y, 0) && |x| <= |y|
    ensures x != [] ==> Visible(r, x, 0) >= 1
    ensures Visible(r, x, 0) <= Visible(r, y, 0)
    ensures Visible(r, y, 0) <= |x| ==> Visible(r, x, 0) == Visible(r, y, 0)
  {
    CountUnique(x, 0, |x|);
    CountUnique(y, 0, |y|);
  }

  lemma {:induction false} RescansAtZero<R>(r: WindowRange, e: Entry<R>, p: seq<Entry<R>>, late: seq<Entry<R>>,
                                            s: seq<Entry<R>>)
    requires e.key == 0 && (p == [] || p == [e]) && AtMost(late, 0) && AtMost(s, 0)
    ensures Rescan(r, p + ([e] + s), 0) == Rescan(r, p + (late + s), 0) <==> SameAtZero(r, e, p, late, s)
  {
    if late == [] {
      assert late + s == s && p + ([e] + s) == [e] + (p + s);
      OneMore(r, e, p + s);
    } else {
      var x, y := p + ([e] + s), p + (late + s);
      VisibleAtZero(r, x, y);
      assert (p + [e]) + s == x && x[|p|] == e && y[|p|] == late[0];
      if late[0] == e {
        assert (p + [e]) + (late[1..] + s) == y;
        InsertedUnseen(r, p + [e], late[1..], s, 0);
      } else {
        hide Visible;
        DifferAt(x, y, Visible(r, x, 0), Visible(r, y, 0), |p|);
      }
    }
  }

  lemma {:induction false} DifferAt<R>(x: seq<Entry<R>>, y: seq<Entry<R>>, a: nat, b: nat, k: nat)
    requires a <= |x| && b <= |y| && k < |x| && k < |y| && x[k] != y[k] && x[..k] == y[..k] && (b <= |x| ==> a == b)
    ensures x[..a] == y[..b] <==> b <= k
  {
    if b <= k {
      assert x[..a] == x[..k][..a] && y[..b] == y[..k][..b];
    } else {
      assert |x[..a]| == a && |y[..b]| == b;
      assert a == b ==> x[..a][k] != y[..b][k];
    }
  }

  lemma {:induction false} OneMore<R>(r: WindowRange, e: Entry<R>, x: seq<Entry<R>>)
    requires e.key == 0 && AtMost(x, 0)
    ensures Rescan(r, [e] + x, 0) == Rescan(r, x, 0) <==> OnlyCopies(r, e, x)
  {
    var a, b := Visible(r, [e] + x, 0), Visible(r, x, 0);
    VisibleAtZero(r, x, [e] + x);
    hide Visible;
    assert |Rescan(r, [e] + x, 0)| == a && |Rescan(r, x, 0)| == b;
    if a <= |x| {
      SameAsShifted([e], x, a);
      assert Repeats([e], x, a) <==> forall i :: 0 <= i < a ==> x[i] == e;
    }
  }

  // ----- frames that end before the request -----

  /** As many rows as the size limit allows. */
  function Limit<R>(r: WindowRange, s: seq<Entry<R>>): (n: nat)
    ensures n <= |s|
  {
    if r.maxSize > 0 then Min(|s|, r.maxSize) else |s|
  }

  /** A range frame that ends before the request: the request's rows are the rescan of the stored rows up to the end. */
  lemma {:induction false} RequestIsRangeRescan<R>(r: WindowRange, e: Entry<R>, exclude: bool, segs: seq<seq<Entry<R>>>)
    requires r.frame == RowsRange && r.endOffset < 0 && AllNewestFirst(segs)
    ensures RequestRows(r, e.key, exclude, segs) ==
            Rescan(r, Older(Merge(segs), Shift(e.key, r.endOffset)), Shift(e.key, r.startOffset))
  {
    hide RequestRows;
    hide Merge;
    var b := BoundsOf(r, e.key, exclude);
    RequestTakes(r, e, exclude, segs);
    TakenIsVisible(r, e, Older(Merge(segs), b.end), b.start);
  }

  /** That is, exactly the stored rows in the frame, the newest of them as many as the size limit allows. */
  lemma {:induction false} RequestFindsFrame<R>(r: WindowRange, e: Entry<R>, exclude: bool, segs: seq<seq<Entry<R>>>)
    requires r.frame == RowsRange && r.endOffset < 0 && AllNewestFirst(segs)
    ensures var frame := InFrame(Merge(segs), Shift(e.key, r.startOffset), Shift(e.key, r.endOffset));
            RequestRows(r, e.key, exclude, segs) == frame[..Limit(r, frame)]
  {
    hide RequestRows;
    hide Merge;
    var s, t, u := Merge(segs), Shift(e.key, r.startOffset), Shift(e.key, r.endOffset);
    RequestIsRangeRescan(r, e, exclude, segs);
    MergeOrdered(segs, TWO63);
    RangeRescanIsFrame(r, s, t, u);
  }

  lemma {:induction false} RangeRescanIsFrame<R>(r: WindowRange, s: seq<Entry<R>>, t: nat, u: nat)
    requires r.frame == RowsRange && NewestFirst(s)
    ensures var frame := InFrame(s, t, u); Rescan(r, Older(s, u), t) == frame[..Limit(r, frame)]
  {
    var m := Older(s, u);
    SplitAtKey(s, u);
    OrderedConcat(Newer(s, u), m);
    InFrameSkips(Newer(s, u), m, t, u);
    InFrameTakes(m, t, u);
    hide Older;
    hide Newer;
    hide InFrame;
    var c := CountFrom(m, t);
    assert m[..c][..Limit(r, m[..c])] == m[..Limit(r, m[..c])];
  }

  /** Rows that the frame would show by its start at the last move, but that lie before its start now. */
  ghost predicate HasStaleRow<R>(r: WindowRange, turns: seq<Turn<R>>) {
    var due := Due(r, turns);
    exists i :: 0 <= i < Limit(r, due) && LastMove(r, turns) <= due[i].key < StartTs(r, turns)
  }

  /**
   There the two sides can differ.  With the survivors of the earlier turns in the segments, and rows
   `late` at the request's key, a request and the batch window see the same rows exactly when the batch
   window holds no stale row; at key zero, where the frame's end is clamped onto the row itself, exactly
   when the row that only the batch window has and the late rows show no difference.
   */
  lemma {:induction false} OnlineIsOfflineUnlessStale<R>(r: WindowRange, exclude: bool, prior: seq<Turn<R>>, e: Entry<R>,
                                                         segs: seq<seq<Entry<R>>>, late: seq<Entry<R>>)
    requires r.frame == RowsRange && r.startRow == 0 && r.endOffset < 0
    requires Nondecreasing(prior + [Turn(e, false)]) && PopsPositive(prior)
    requires AllNewestFirst(segs) && Older(Merge(segs), e.key) == late + Surviving(prior) && AllAt(late, e.key)
    ensures RunHistory(r, exclude, prior + [Turn(e, false)]).table == RequestRows(r, e.key, exclude, segs)
       <==> if e.key >= 1 then !HasStaleRow(r, prior + [Turn(e, false)]) else SameAtZero(r, e, [], late, Surviving(prior))
  {
    hide RunHistory;
    hide RequestRows;
    hide Merge;
    hide Rescan;
    hide LastMove;
    hide Older;
    hide SameAtZero;
    var turns := prior + [Turn(e, false)];
    assert turns[..|turns| - 1] == prior;
    HistoryWindowIsRescan(r, exclude, turns);
    RequestIsRangeRescan(r, e, exclude, segs);
    SurvivingSteps(turns);
    hide Surviving;
    OlderTwice(Merge(segs), EndTs(r, turns), e.key);
    BatchAgainstRequest(r, e, late, Surviving(prior), LastMove(r, turns), StartTs(r, turns), EndTs(r, turns));
  }

  lemma {:induction false} BatchAgainstRequest<R>(r: WindowRange, e: Entry<R>, late: seq<Entry<R>>, h: seq<Entry<R>>,
                                                  t0: nat, t: nat, u: nat)
    requires r.frame == RowsRange && NewestFirst([e] + h) && t0 <= t == Shift(e.key, r.startOffset) && AllAt(late, e.key)
    requires u == Shift(e.key, r.endOffset) && r.endOffset < 0
    ensures var due := Older([e] + h, u);
            Rescan(r, due, t0) == Rescan(r, Older(late + h, u), t) <==>
            if e.key >= 1 then forall i :: 0 <= i < Limit(r, due) ==> !(t0 <= due[i].key < t)
            else SameAtZero(r, e, [], late, h)
  {
    hide Older;
    hide Newer;
    hide Visible;
    hide SameAtZero;
    OrderedCons(e, h);
    if e.key >= 1 {
      PopWaiting(e, h, u);
      OlderSkips(late, h, u);
      SplitAtKey(h, u);
      OrderedConcat(Newer(h, u), Older(h, u));
      hide Rescan;
      RescansDiffer(r, Older(h, u), t0, t);
    } else {
      OlderAll([e] + h, 0);
      OlderAll(late + h, 0);
      hide Rescan;
      assert [] + ([e] + h) == [e] + h && [] + (late + h) == late + h;
      RescansAtZero(r, e, [], late, h);
    }
  }

  lemma {:induction false} RescansDiffer<R>(r: WindowRange, s: seq<Entry<R>>, t0: nat, t: nat)
    requires r.frame == RowsRange && NewestFirst(s) && t0 <= t
    ensures Rescan(r, s, t0) == Rescan(r, s, t) <==> forall i :: 0 <= i < Limit(r, s) ==> !(t0 <= s[i].key < t)
  {
    CountSplits(s, t0);
    CountSplits(s, t);
    CountAntitone(s, t0, t);
    var a, b := Visible(r, s, t0), Visible(r, s, t);
    assert b <= a && |Rescan(r, s, t0)| == a && |Rescan(r, s, t)| == b;
    if b < a {
      assert t0 <= s[b].key < t && b < Limit(r, s);
    }
  }

  /** A stale row: the last push moves nothing, so the row at 1 stays although the frame starts at 3. */
  lemma {:induction false} StaleRowShown()
    ensures var r := WindowRange(RowsRange, -10, -5, 0, 0);
            var turns := [Turn(Entry(1, 'a'), false), Turn(Entry(9, 'b'), false), Turn(Entry(13, 'c'), false)];
            && RunHistory(r, false, turns).table == [Entry(1, 'a')]
            && RequestRows(r, 13, false, [[Entry(9, 'b'), Entry(1, 'a')]]) == []
  {
    var r := WindowRange(RowsRange, -10, -5, 0, 0);
    var a, b, c := Entry(1, 'a'), Entry(9, 'b'), Entry(13, 'c');
    var t1, t2, t3 := Turn(a, false), Turn(b, false), Turn(c, false);
    assert [t1, t2, t3][..2] == [t1, t2] && [t1, t2][..1] == [t1] && [t1][..0] == [];
    assert [a] + [] == [a] && [b] + [a] == [b, a] && [b, a][..1] == [b] && [c] + [b] == [c, b];
    assert Trim(r, [a], 0) == [a];
    assert Drain(r, Deques([], [b, a]), 0, 4) == Deques([a], [b]);
    assert RunHistory(r, false, [t1]) == Deques([], [a]);
    assert RunHistory(r, false, [t1, t2]) == Deques([a], [b]);
    assert RunHistory(r, false, [t1, t2, t3]) == Deques([a], [c, b]);
    hide RunHistory;
    hide Drain;
    assert Seek([b, a], 8) == [a];
    assert SeekAll([[b, a]], 8) == [[a]];
    assert Merge([[a]])[0] == a;
  }
}
