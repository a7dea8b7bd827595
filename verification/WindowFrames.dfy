/**
 The from-scratch meaning of a window frame: given the whole history of a partition, newest row
 first, which rows are in the window.  Beside it, the incremental trimming that the executor
 performs after each insertion, and the facts that make the two agree.
 */
module WindowFrames {

  const TWO63 := 0x8000_0000_0000_0000
  const TWO64 := 0x1_0000_0000_0000_0000

  /** Row keys (timestamps) that survive the signed arithmetic of the window. */
  type Key = k: nat | k < TWO63

  /** A frame bound relative to the current row: zero or before it. */
  type Offset = o: int | -TWO63 <= o <= 0

  /** A row count for which adding one does not wrap around. */
  type RowCount = n: nat | n < TWO64 - 1

  datatype Frame = Rows | RowsRange | RowsMergeRowsRange

  datatype WindowRange = WindowRange(frame: Frame, startOffset: Offset, endOffset: Offset,
                                     startRow: RowCount, maxSize: nat)

  datatype Entry<R> = Entry(key: Key, row: R)

  /** `int64_t sub = key + offset; sub < 0 ? 0 : sub`, with the addition done in 64 unsigned bits. */
  function Shift(key: Key, offset: Offset): (ts: nat)
    ensures ts == if key + offset < 0 then 0 else key + offset
  {
    var bits := (key + offset) % TWO64;
    if bits >= TWO63 then 0 else bits
  }

  /** `key - 1` in 64 unsigned bits. */
  function Before(key: Key): (b: nat)
    ensures b == if key == 0 then TWO64 - 1 else key - 1
  {
    (key - 1) % TWO64
  }

  // ----- the reference: a rescan of the whole history -----

  ghost predicate NewestFirst<R>(s: seq<Entry<R>>) {
    forall i, j :: 0 <= i < j < |s| ==> s[i].key >= s[j].key
  }

  ghost predicate AtMost<R>(s: seq<Entry<R>>, k: int) {
    forall i :: 0 <= i < |s| ==> s[i].key <= k
  }

  ghost predicate Above<R>(s: seq<Entry<R>>, k: int) {
    forall i :: 0 <= i < |s| ==> s[i].key > k
  }

  lemma {:induction false} OrderedCons<R>(e: Entry<R>, s: seq<Entry<R>>)
    ensures NewestFirst([e] + s) <==> NewestFirst(s) && AtMost(s, e.key)
  {
    var whole := [e] + s;
    assert s == whole[1..] && whole[0] == e;
    assert forall i :: 0 <= i < |s| ==> s[i] == whole[i + 1];
  }

  lemma {:induction false} OrderedConcat<R>(a: seq<Entry<R>>, b: seq<Entry<R>>)
    requires NewestFirst(a + b)
    ensures NewestFirst(a) && NewestFirst(b)
    ensures a != [] ==> AtMost(b, a[|a| - 1].key)
  {
    assert forall i :: 0 <= i < |a| ==> a[i] == (a + b)[i];
    assert b == (a + b)[|a|..];
    if a != [] {
      forall i | 0 <= i < |b| ensures b[i].key <= a[|a| - 1].key {
        assert b[i] == (a + b)[|a| + i] && a[|a| - 1] == (a + b)[|a| - 1];
      }
    }
  }

  function Min(a: nat, b: nat): nat { if a <= b then a else b }

  function Max(a: nat, b: nat): nat { if a <= b then b else a }

  /** How many rows of the history are at or after `ts`. */
  function CountFrom<R>(s: seq<Entry<R>>, ts: nat): nat {
    if s == [] then 0 else (if s[0].key >= ts then 1 else 0) + CountFrom(s[1..], ts)
  }

  /** How many rows the frame admits, before it is limited by the size of the history. */
  function FrameRows<R>(r: WindowRange, s: seq<Entry<R>>, ts: nat): nat {
    match r.frame
    case Rows => r.startRow + 1
    case RowsRange => CountFrom(s, ts)
    case RowsMergeRowsRange => Max(r.startRow + 1, CountFrom(s, ts))
  }

  /** The number of newest rows of `s` that a rescan puts in the window. */
  function Visible<R>(r: WindowRange, s: seq<Entry<R>>, ts: nat): (m: nat)
    ensures m <= |s|
  {
    var limit := if r.maxSize > 0 then Min(|s|, r.maxSize) else |s|;
    Min(limit, FrameRows(r, s, ts))
  }

  function Rescan<R>(r: WindowRange, s: seq<Entry<R>>, ts: nat): seq<Entry<R>> {
    s[..Visible(r, s, ts)]
  }

  // ----- the incremental form: trim the back of the deque after an insertion -----

  function Cap<R>(r: WindowRange, t: seq<Entry<R>>): (u: seq<Entry<R>>)
    ensures t != [] ==> u != [] && u[0] == t[0]
    decreases |t|
  {
    if r.maxSize > 0 && |t| > r.maxSize then Cap(r, t[..|t| - 1]) else t
  }

  function Slide<R>(r: WindowRange, t: seq<Entry<R>>, ts: nat): (u: seq<Entry<R>>)
    ensures t != [] && t[0].key >= ts ==> u != [] && u[0] == t[0]
    decreases |t|
  {
    if |t| == 0 || (r.frame != RowsRange && |t| <= r.startRow + 1) then t
    else if r.frame == Rows || t[|t| - 1].key < ts then Slide(r, t[..|t| - 1], ts)
    else t
  }

  function Trim<R>(r: WindowRange, t: seq<Entry<R>>, ts: nat): seq<Entry<R>> {
    Slide(r, Cap(r, t), ts)
  }

  // ----- trimming is rescanning -----

  lemma {:induction false} CountSplits<R>(s: seq<Entry<R>>, ts: nat)
    requires NewestFirst(s)
    ensures CountFrom(s, ts) <= |s|
    ensures forall i :: 0 <= i < |s| ==> (s[i].key >= ts <==> i < CountFrom(s, ts))
  {
    if s != [] {
      var rest := s[1..];
      CountSplits(rest, ts);
      forall i | 0 <= i < |s| ensures s[i].key >= ts <==> i < CountFrom(s, ts) {
        if i > 0 {
          assert s[i] == rest[i - 1];
        } else if |rest| > 0 {
          assert rest[0].key >= ts <==> 0 < CountFrom(rest, ts);
        }
      }
    }
  }

  lemma {:induction false} CountUnique<R>(s: seq<Entry<R>>, ts: nat, c: nat)
    requires NewestFirst(s) && c <= |s|
    requires forall i :: 0 <= i < |s| ==> (s[i].key >= ts <==> i < c)
    ensures CountFrom(s, ts) == c
  {
    CountSplits(s, ts);
    var n := CountFrom(s, ts);
    assert n < |s| ==> (s[n].key >= ts <==> n < c);
    assert c < |s| ==> (s[c].key >= ts <==> c < n);
  }

  lemma {:induction false} CountOfPrefix<R>(s: seq<Entry<R>>, n: nat, ts: nat)
    requires NewestFirst(s) && n <= |s|
    ensures CountFrom(s[..n], ts) == Min(n, CountFrom(s, ts))
  {
    CountSplits(s, ts);
    CountUnique(s[..n], ts, Min(n, CountFrom(s, ts)));
  }

  lemma {:induction false} CountAntitone<R>(s: seq<Entry<R>>, t1: nat, t2: nat)
    requires NewestFirst(s) && t1 <= t2
    ensures CountFrom(s, t2) <= CountFrom(s, t1)
  {
    CountSplits(s, t1);
    CountSplits(s, t2);
    var n := CountFrom(s, t1);
    assert n < |s| ==> (s[n].key >= t2 <==> n < CountFrom(s, t2));
  }

  lemma {:induction false} CapIsPrefix<R>(r: WindowRange, t: seq<Entry<R>>)
    ensures Cap(r, t) == t[..if r.maxSize > 0 then Min(|t|, r.maxSize) else |t|]
    decreases |t|
  {
    if r.maxSize > 0 && |t| > r.maxSize {
      CapIsPrefix(r, t[..|t| - 1]);
    }
  }

  lemma {:induction false} SlideIsPrefix<R>(r: WindowRange, t: seq<Entry<R>>, ts: nat)
    requires NewestFirst(t)
    ensures CountFrom(t, ts) <= |t|
    ensures Slide(r, t, ts) == t[..Min(|t|, FrameRows(r, t, ts))]
    decreases |t|
  {
    CountSplits(t, ts);
    if |t| == 0 || (r.frame != RowsRange && |t| <= r.startRow + 1) {
    } else if r.frame == Rows || t[|t| - 1].key < ts {
      SlideIsPrefix(r, t[..|t| - 1], ts);
      CountOfPrefix(t, |t| - 1, ts);
    }
  }

  /** The two pop-back loops compute exactly the rescan, on every deque kept newest first. */
  lemma {:induction false} TrimIsRescan<R>(r: WindowRange, t: seq<Entry<R>>, ts: nat)
    requires NewestFirst(t)
    ensures Trim(r, t, ts) == Rescan(r, t, ts)
  {
    CapIsPrefix(r, t);
    var n := if r.maxSize > 0 then Min(|t|, r.maxSize) else |t|;
    CountOfPrefix(t, n, ts);
    SlideIsPrefix(r, t[..n], ts);
  }

  // ----- an evicted row is never needed again -----

  lemma {:induction false} CountCons<R>(e: Entry<R>, s: seq<Entry<R>>, ts: nat)
    ensures CountFrom([e] + s, ts) == (if e.key >= ts then 1 else 0) + CountFrom(s, ts)
  {
    assert ([e] + s)[1..] == s;
  }

  /** The most rows of `s` that any window opened by a later row, at `ts` or after, can show. */
  ghost function Needed<R>(r: WindowRange, s: seq<Entry<R>>, ts: nat): nat {
    var limit := if r.maxSize > 0 then Min(|s|, r.maxSize - 1) else |s|;
    match r.frame
    case Rows => Min(limit, r.startRow)
    case RowsRange => Min(limit, CountFrom(s, ts))
    case RowsMergeRowsRange => Min(limit, Max(r.startRow, CountFrom(s, ts)))
  }

  /** A deque stands for a history when it holds its newest rows, as many as can still be needed. */
  ghost predicate Covers<R>(r: WindowRange, table: seq<Entry<R>>, s: seq<Entry<R>>, ts: nat) {
    && NewestFirst(s)
    && table <= s
    && |table| >= Needed(r, s, ts)
  }

  lemma {:induction false} NeededIsEnough<R>(r: WindowRange, e: Entry<R>, s: seq<Entry<R>>, t1: nat, t2: nat)
    requires NewestFirst(s) && t1 <= t2
    ensures Visible(r, [e] + s, t2) <= Needed(r, s, t1) + 1
  {
    CountCons(e, s, t2);
    CountAntitone(s, t1, t2);
  }

  lemma {:induction false} RescanOfPrefix<R>(r: WindowRange, s: seq<Entry<R>>, n: nat, ts: nat)
    requires NewestFirst(s) && Visible(r, s, ts) <= n <= |s|
    ensures Rescan(r, s[..n], ts) == Rescan(r, s, ts)
  {
    CountOfPrefix(s, n, ts);
  }

  /** Inserting a row into a deque that stands for `s` gives the rescan of the grown history. */
  lemma {:induction false} PushOntoCover<R>(r: WindowRange, e: Entry<R>, table: seq<Entry<R>>, s: seq<Entry<R>>,
                                            t1: nat, t2: nat)
    requires Covers(r, table, s, t1) && t1 <= t2 && AtMost(s, e.key)
    ensures Trim(r, [e] + table, t2) == Rescan(r, [e] + s, t2)
  {
    var whole, n := [e] + s, |table| + 1;
    OrderedCons(e, s);
    assert [e] + table == whole[..n];
    NeededIsEnough(r, e, s, t1, t2);
    RescanOfPrefix(r, whole, n, t2);
    TrimIsRescan(r, whole[..n], t2);
  }

  lemma {:induction false} RescanCovers<R>(r: WindowRange, s: seq<Entry<R>>, ts: nat)
    requires NewestFirst(s)
    ensures Covers(r, Rescan(r, s, ts), s, ts)
  {
  }

  /** Taking the newest row back off leaves a deque that stands for the rest of the history. */
  lemma {:induction false} PopLeavesCover<R>(r: WindowRange, d: Entry<R>, s: seq<Entry<R>>, ts: nat)
    requires NewestFirst(s) && ts <= d.key
    ensures Rescan(r, [d] + s, ts) != [] && Rescan(r, [d] + s, ts)[0] == d
    ensures Covers(r, Rescan(r, [d] + s, ts)[1..], s, ts)
  {
    assert s == ([d] + s)[1..];
    CountCons(d, s, ts);
  }

  // ----- splitting a history at a key -----

  /** The rows after `ts`, and the rows at or before it. */
  function Newer<R>(s: seq<Entry<R>>, ts: nat): seq<Entry<R>> {
    if s == [] then [] else (if s[0].key > ts then [s[0]] else []) + Newer(s[1..], ts)
  }

  function Older<R>(s: seq<Entry<R>>, ts: nat): seq<Entry<R>> {
    if s == [] then [] else (if s[0].key <= ts then [s[0]] else []) + Older(s[1..], ts)
  }

  lemma {:induction false} SplitAtKey<R>(s: seq<Entry<R>>, ts: nat)
    requires NewestFirst(s)
    ensures Newer(s, ts) + Older(s, ts) == s
    ensures Above(Newer(s, ts), ts) && AtMost(Older(s, ts), ts)
  {
    if s != [] {
      if s[0].key <= ts {
        OlderAll(s, ts);
      } else {
        SplitAtKey(s[1..], ts);
        assert Newer(s, ts) == [s[0]] + Newer(s[1..], ts) && Older(s, ts) == Older(s[1..], ts);
      }
    }
  }

  lemma {:induction false} OlderAll<R>(b: seq<Entry<R>>, ts: nat)
    requires AtMost(b, ts)
    ensures Newer(b, ts) == [] && Older(b, ts) == b
  {
    if b != [] {
      OlderAll(b[1..], ts);
    }
  }

  lemma {:induction false} SplitUnique<R>(a: seq<Entry<R>>, b: seq<Entry<R>>, ts: nat)
    requires Above(a, ts) && AtMost(b, ts)
    ensures Newer(a + b, ts) == a && Older(a + b, ts) == b
  {
    if a == [] {
      assert a + b == b;
      OlderAll(b, ts);
    } else {
      assert (a + b)[0] == a[0] && (a + b)[1..] == a[1..] + b;
      SplitUnique(a[1..], b, ts);
    }
  }
}
