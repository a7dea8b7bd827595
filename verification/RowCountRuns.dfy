/**
 Runs of a window whose frame counts rows and ends before the current row.  Until as many rows are
 visible as the frame asks for, pushed rows are shown at once; from then on they wait.
 */
module RowCountRuns {
  import opened WindowFrames
  import opened Windows
  import opened WindowRuns
  import opened HistoryRuns

  /** The oldest rows, as many as the frame asks for: they were shown at once. */
  function Early<R>(r: WindowRange, s: seq<Entry<R>>): seq<Entry<R>> {
    s[|s| - Min(r.startRow, |s|)..]
  }

  /** The rows after them: these had to wait. */
  function Queued<R>(r: WindowRange, s: seq<Entry<R>>): seq<Entry<R>> {
    s[..|s| - Min(r.startRow, |s|)]
  }

  /** The waiting rows that the end of the frame has reached. */
  function Reached<R>(r: WindowRange, turns: seq<Turn<R>>): seq<Entry<R>> {
    Older(Queued(r, Surviving(turns)), EndTs(r, turns))
  }

  /** The start of the frame at the last push that made a waiting row visible. */
  function LastReach<R>(r: WindowRange, turns: seq<Turn<R>>): nat {
    if turns == [] then 0
    else if |Reached(r, turns)| > |Reached(r, turns[..|turns| - 1])| then StartTs(r, turns)
    else LastReach(r, turns[..|turns| - 1])
  }

  /** A frame that counts rows, with room for them. */
  predicate RoomyRowFrame(r: WindowRange) {
    r.endOffset < 0 && r.frame != RowsRange && (r.maxSize == 0 || r.maxSize >= r.startRow)
  }

  // ----- how a history divides -----

  lemma {:induction false} QueueStep<R>(r: WindowRange, e: Entry<R>, h: seq<Entry<R>>)
    ensures Queued(r, h) + Early(r, h) == h
    ensures |h| >= r.startRow ==>
              |Early(r, h)| == r.startRow && Queued(r, [e] + h) == [e] + Queued(r, h) && Early(r, [e] + h) == Early(r, h)
    ensures |h| < r.startRow ==> Queued(r, h) == [] && Early(r, h) == h && Queued(r, [e] + h) == [] && Early(r, [e] + h) == [e] + h
  {
    if |h| >= r.startRow {
      assert ([e] + h)[..|h| + 1 - r.startRow] == [e] + h[..|h| - r.startRow];
    }
  }

  lemma {:induction false} AllVisible<R>(r: WindowRange, s: seq<Entry<R>>, t: nat)
    requires RoomyRowFrame(r) && |s| <= r.startRow
    ensures Rescan(r, s, t) == s
  {
    assert Visible(r, s, t) == |s|;
  }

  lemma {:induction false} EnoughVisible<R>(r: WindowRange, s: seq<Entry<R>>, t: nat)
    requires RoomyRowFrame(r) && |s| >= r.startRow
    ensures |Rescan(r, s, t)| >= r.startRow
  {
    assert Visible(r, s, t) >= r.startRow;
  }

  lemma {:induction false} RoomyEndsEarlier(r: WindowRange)
    requires RoomyRowFrame(r)
    ensures r.endOffset < 0
  {
  }

  // ----- one turn -----

  /** While the window is short, a push goes straight in. */
  lemma {:induction false} EarlyPush<R>(r: WindowRange, exclude: bool, h: seq<Entry<R>>, e: Entry<R>)
    requires RoomyRowFrame(r) && NewestFirst([e] + h) && |h| < r.startRow
    ensures BufferStep(r, exclude, Deques(h, []), e) == Deques([e] + h, []) && !Refused(Deques(h, []), e)
    ensures PopFront(Deques([e] + h, [])) == Deques(h, [])
  {
    OrderedCons(e, h);
    TrimIsRescan(r, [e] + h, Shift(e.key, r.startOffset));
    AllVisible(r, [e] + h, Shift(e.key, r.startOffset));
    assert ([e] + h)[1..] == h;
  }

  /** From then on it waits, and the rows that the end of the frame reaches go in before the others. */
  lemma {:induction false} LatePush<R>(r: WindowRange, exclude: bool, st: WindowState<R>, queue: seq<Entry<R>>,
                                       early: seq<Entry<R>>, e: Entry<R>, t0: nat, u0: nat)
    returns (after: WindowState<R>)
    requires RoomyRowFrame(r) && |early| == r.startRow && NewestFirst([e] + (queue + early))
    requires st == Deques(Rescan(r, Older(queue, u0) + early, t0), Newer(queue, u0))
    requires u0 <= Shift(e.key, r.endOffset) && t0 <= Shift(e.key, r.startOffset)
    ensures !Refused(st, e) && after == BufferStep(r, exclude, st, e)
    ensures var u, ts := Shift(e.key, r.endOffset), Shift(e.key, r.startOffset);
            var due := Older([e] + queue, u);
            && after.buffer == Newer([e] + queue, u) && |due| >= |Older(queue, u0)|
            && after.table == Rescan(r, due + early, if |due| > |Older(queue, u0)| then ts else t0)
  {
    hide NewestFirst;
    hide AtMost;
    hide Above;
    hide RoomyRowFrame;
    var u, ts, past := Shift(e.key, r.endOffset), Shift(e.key, r.startOffset), Older(queue, u0) + early;
    DivideQueue(queue, early, e, u0, u);
    var later, moved := Newer([e] + queue, u), Older([e] + Newer(queue, u0), u);
    hide Older;
    hide Newer;
    EnoughVisible(r, past, t0);
    assert r.endOffset < 0 by { RoomyEndsEarlier(r); }
    Waits(r, exclude, st, e, past, t0);
    hide Rescan;
    hide BufferStep;
    hide PushHistory;
    hide Refused;
    after := DrainSplit(r, st, later, moved, past, e, t0, ts, u);
    Regrouped(r, moved, Older(queue, u0), early, t0, ts);
  }

  lemma {:induction false} Regrouped<R>(r: WindowRange, moved: seq<Entry<R>>, before: seq<Entry<R>>, early: seq<Entry<R>>,
                                        t0: nat, ts: nat)
    ensures (if moved == [] then Rescan(r, before + early, t0) else Rescan(r, moved + (before + early), ts)) ==
            Rescan(r, (moved + before) + early, if |moved + before| > |before| then ts else t0)
  {
    assert (moved + before) + early == moved + (before + early);
    assert moved == [] ==> moved + before == before;
  }

  lemma {:induction false} Waits<R>(r: WindowRange, exclude: bool, st: WindowState<R>, e: Entry<R>, past: seq<Entry<R>>, t0: nat)
    requires r.endOffset < 0 && |st.table| >= r.startRow && st.table == Rescan(r, past, t0) && AtMost(past, e.key)
    ensures !Refused(st, e) && BufferStep(r, exclude, st, e) == PushHistory(r, st, e, Shift(e.key, r.endOffset))
  {
    hide PushHistory;
  }

  lemma {:induction false} DivideQueue<R>(queue: seq<Entry<R>>, early: seq<Entry<R>>, e: Entry<R>, u0: nat, u: nat)
    requires NewestFirst([e] + (queue + early)) && u0 <= u
    ensures var waiting, past, moved := [e] + Newer(queue, u0), Older(queue, u0), Older([e] + Newer(queue, u0), u);
            && waiting == Newer([e] + queue, u) + moved && Older([e] + queue, u) == moved + past
            && Above(Newer([e] + queue, u), u) && AtMost(moved, u)
            && NewestFirst(moved + (past + early)) && AtMost(past + early, e.key)
  {
    assert [e] + (queue + early) == ([e] + queue) + early;
    OrderedCons(e, queue + early);
    OrderedConcat([e] + queue, early);
    RedivideAtEnd(queue, e, u0, u);
    var waiting, past := [e] + Newer(queue, u0), Older(queue, u0);
    SplitFront(waiting, past, u);
    hide Older;
    hide Newer;
    OrderedTail(Newer(waiting, u), Older(waiting, u), past, early, [e] + (queue + early));
    SplitOrdered(queue, u0, early);
  }

  lemma {:induction false} OrderedTail<R>(later: seq<Entry<R>>, moved: seq<Entry<R>>, past: seq<Entry<R>>,
                                          early: seq<Entry<R>>, whole: seq<Entry<R>>)
    requires NewestFirst(whole) && whole == ((later + moved) + past) + early
    ensures NewestFirst(moved + (past + early))
  {
    assert whole == later + (moved + (past + early));
    OrderedConcat(later, moved + (past + early));
  }

  lemma {:induction false} SplitOrdered<R>(queue: seq<Entry<R>>, u0: nat, early: seq<Entry<R>>)
    requires NewestFirst(queue)
    ensures forall k :: AtMost(queue + early, k) ==> AtMost(Older(queue, u0) + early, k)
  {
    SplitAtKey(queue, u0);
    forall k | AtMost(queue + early, k) ensures AtMost(Older(queue, u0) + early, k) {
      var n, part := |Newer(queue, u0)|, Older(queue, u0) + early;
      forall i | 0 <= i < |part| ensures part[i].key <= k {
        assert part[i] == (queue + early)[n + i];
      }
    }
  }

  // ----- every run -----

  /** The state of the window, given the surviving history and where it last moved. */
  ghost function RowCountState<R>(r: WindowRange, s: seq<Entry<R>>, t: nat, u: nat): WindowState<R> {
    Deques(Rescan(r, Older(Queued(r, s), u) + Early(r, s), t), Newer(Queued(r, s), u))
  }

  lemma {:induction false} EarlyState<R>(r: WindowRange, s: seq<Entry<R>>, t: nat, u: nat)
    requires RoomyRowFrame(r) && |s| <= r.startRow
    ensures RowCountState(r, s, t, u) == Deques(s, []) && Older(Queued(r, s), u) == []
  {
    assert Queued(r, s) == [] && Early(r, s) == s && [] + s == s;
    AllVisible(r, s, t);
  }

  lemma {:induction false} RowCountTurn<R>(r: WindowRange, exclude: bool, turns: seq<Turn<R>>, prior: seq<Turn<R>>,
                                           last: Turn<R>)
    requires RoomyRowFrame(r) && turns == prior + [last] && (last.pop ==> last.entry.key >= 1)
    requires NewestFirst([last.entry] + Surviving(prior))
    requires Surviving(turns) == (if last.pop then [] else [last.entry]) + Surviving(prior)
    requires RunHistory(r, exclude, prior) == RowCountState(r, Surviving(prior), LastReach(r, prior), EndTs(r, prior))
    requires EndTs(r, prior) <= EndTs(r, turns) && LastReach(r, prior) <= StartTs(r, turns)
    ensures |Reached(r, turns)| >= |Reached(r, prior)|
    ensures RunHistory(r, exclude, turns) ==
            RowCountState(r, Surviving(turns),
                          if |Reached(r, turns)| > |Reached(r, prior)| then StartTs(r, turns) else LastReach(r, prior),
                          EndTs(r, turns))
  {
    hide LastReach;
    hide Surviving;
    assert turns[..|turns| - 1] == prior;
    var e, h, t0, u0, u := last.entry, Surviving(prior), LastReach(r, prior), EndTs(r, prior), EndTs(r, turns);
    var st := RunHistory(r, exclude, prior);
    assert [] + h == h;
    if |h| < r.startRow {
      EarlyState(r, h, t0, u0);
      EarlyState(r, Surviving(turns), StartTs(r, turns), u);
      EarlyState(r, Surviving(turns), t0, u);
      hide RowCountState;
      EarlyPush(r, exclude, h, e);
    } else {
      QueueStep(r, e, h);
      var after := LatePush(r, exclude, st, Queued(r, h), Early(r, h), e, t0, u0);
      hide Rescan;
      hide BufferStep;
      if last.pop {
        PopWaiting(e, Queued(r, h), u);
        assert ([e] + Newer(Queued(r, h), u))[1..] == Newer(Queued(r, h), u);
      }
    }
  }

  lemma {:induction false} BoundsGrow<R>(r: WindowRange, turns: seq<Turn<R>>)
    requires turns != [] && Nondecreasing(turns)
    ensures EndTs(r, turns[..|turns| - 1]) <= EndTs(r, turns) && StartTs(r, turns[..|turns| - 1]) <= StartTs(r, turns)
  {
    var prior := turns[..|turns| - 1];
    assert prior != [] ==> prior[|prior| - 1] == turns[|prior| - 1];
  }

  lemma {:induction false} RowCountRun<R>(r: WindowRange, exclude: bool, turns: seq<Turn<R>>)
    requires RoomyRowFrame(r) && Nondecreasing(turns) && PopsPositive(turns)
    ensures RunHistory(r, exclude, turns) == RowCountState(r, Surviving(turns), LastReach(r, turns), EndTs(r, turns))
    ensures LastReach(r, turns) <= StartTs(r, turns)
  {
    if turns == [] {
      EarlyState<R>(r, [], 0, 0);
    } else {
      hide RowCountState;
      hide RunHistory;
      hide Reached;
      hide Surviving;
      var prior, last := turns[..|turns| - 1], turns[|turns| - 1];
      SurvivingSteps(turns);
      BoundsGrow(r, turns);
      RowCountRun(r, exclude, prior);
      assert turns == prior + [last];
      RowCountTurn(r, exclude, turns, prior, last);
    }
  }

  /**
   After every run with nondecreasing keys, pops included: the window shows the rescan of the early
   rows and of the waiting rows that the frame's end had reached when one of them last moved, and the
   buffer holds exactly the waiting rows that it has not reached.
   */
  lemma {:induction false} RowCountWindowIsRescan<R>(r: WindowRange, exclude: bool, turns: seq<Turn<R>>)
    requires RoomyRowFrame(r) && Nondecreasing(turns) && PopsPositive(turns)
    ensures RunHistory(r, exclude, turns) ==
            Deques(Rescan(r, Reached(r, turns) + Early(r, Surviving(turns)), LastReach(r, turns)),
                   Newer(Queued(r, Surviving(turns)), EndTs(r, turns)))
  {
    RowCountRun(r, exclude, turns);
  }

  /** With a size limit below the row count the window is never long enough for a row to wait: it is a plain window. */
  lemma {:induction false} TightWindowIsPlain<R>(r: WindowRange, exclude: bool, turns: seq<Turn<R>>)
    requires r.endOffset < 0 && 0 < r.maxSize < r.startRow
    ensures RunHistory(r, exclude, turns) == Run(r, false, turns)
    ensures |Run(r, false, turns).table| <= r.maxSize
  {
    if turns != [] {
      var prior, last := turns[..|turns| - 1], turns[|turns| - 1];
      TightWindowIsPlain(r, exclude, prior);
      var before := Run(r, false, prior);
      CapIsPrefix(r, [last.entry] + before.table);
      SlideShrinks(r, Cap(r, [last.entry] + before.table), Shift(last.entry.key, r.startOffset));
    }
  }

  lemma {:induction false} SlideShrinks<R>(r: WindowRange, t: seq<Entry<R>>, ts: nat)
    ensures |Slide(r, t, ts)| <= |t|
    decreases |t|
  {
    if t != [] {
      SlideShrinks(r, t[..|t| - 1], ts);
    }
  }
}
