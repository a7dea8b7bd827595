/**
 Runs of a window whose frame ends before the current row: rows wait in the side buffer until the
 end of the frame reaches them.
 */
module HistoryRuns {
  import opened WindowFrames
  import opened Windows
  import opened WindowRuns

  /** A window under a run of turns; a popped row is taken from the side buffer first. */
  function RunHistory<R>(r: WindowRange, exclude: bool, turns: seq<Turn<R>>): WindowState<R> {
    if turns == [] then Deques([], [])
    else
      var n := |turns| - 1;
      var before := RunHistory(r, exclude, turns[..n]);
      var after := BufferStep(r, exclude, before, turns[n].entry);
      if turns[n].pop && !Refused(before, turns[n].entry) then PopFront(after) else after
  }

  function StartTs<R>(r: WindowRange, turns: seq<Turn<R>>): nat {
    if turns == [] then 0 else Shift(turns[|turns| - 1].entry.key, r.startOffset)
  }

  function EndTs<R>(r: WindowRange, turns: seq<Turn<R>>): nat {
    if turns == [] then 0 else Shift(turns[|turns| - 1].entry.key, r.endOffset)
  }

  /** The surviving rows that the end of the frame has reached. */
  function Due<R>(r: WindowRange, turns: seq<Turn<R>>): seq<Entry<R>> {
    Older(Surviving(turns), EndTs(r, turns))
  }

  /** Whether the last push made the end of the frame reach some row. */
  predicate Moved<R>(r: WindowRange, turns: seq<Turn<R>>)
    requires turns != []
  {
    |Due(r, turns)| > |Due(r, turns[..|turns| - 1])|
  }

  /** The start of the frame at the last push that moved a row: rows are evicted only then. */
  function LastMove<R>(r: WindowRange, turns: seq<Turn<R>>): nat {
    if turns == [] then 0
    else if Moved(r, turns) then StartTs(r, turns)
    else LastMove(r, turns[..|turns| - 1])
  }

  lemma {:induction false} SplitFront<R>(a: seq<Entry<R>>, b: seq<Entry<R>>, u: nat)
    requires NewestFirst(a + b) && AtMost(b, u)
    ensures a == Newer(a, u) + Older(a, u) && Above(Newer(a, u), u) && AtMost(Older(a, u), u)
    ensures Newer(a + b, u) == Newer(a, u) && Older(a + b, u) == Older(a, u) + b
    ensures NewestFirst(Older(a, u) + b)
  {
    OrderedConcat(a, b);
    SplitAtKey(a, u);
    SplitThree(Newer(a, u), Older(a, u), b, u);
  }

  lemma {:induction false} SplitThree<R>(later: seq<Entry<R>>, due: seq<Entry<R>>, b: seq<Entry<R>>, u: nat)
    requires NewestFirst((later + due) + b) && Above(later, u) && AtMost(due, u) && AtMost(b, u)
    ensures Newer((later + due) + b, u) == later && Older((later + due) + b, u) == due + b
    ensures NewestFirst(due + b)
  {
    assert (later + due) + b == later + (due + b);
    OrderedConcat(later, due + b);
    SplitUnique(later, due + b, u);
  }

  /** How the waiting rows and the new row `e` divide when the end of the frame moves from `u0` to `u`. */
  lemma {:induction false} RedivideAtEnd<R>(h: seq<Entry<R>>, e: Entry<R>, u0: nat, u: nat)
    requires NewestFirst([e] + h) && u0 <= u
    ensures var waiting, past := [e] + Newer(h, u0), Older(h, u0);
            && [e] + h == waiting + past && NewestFirst(waiting + past) && AtMost(past, u)
            && NewestFirst(past) && AtMost(past, e.key)
  {
    hide Newer;
    hide Older;
    var waiting, past := [e] + Newer(h, u0), Older(h, u0);
    OrderedCons(e, h);
    SplitAtKey(h, u0);
    assert [e] + h == waiting + past;
    OrderedConcat(Newer(h, u0), past);
    assert forall i :: 0 <= i < |past| ==> past[i] == h[|Newer(h, u0)| + i];
  }

  /** One push, from any state that the run's invariant allows. */
  lemma {:induction false} HistoryPush<R>(r: WindowRange, exclude: bool, st: WindowState<R>, h: seq<Entry<R>>,
                                          e: Entry<R>, t0: nat, u0: nat) returns (after: WindowState<R>)
    requires r.startRow == 0 && r.endOffset < 0 && NewestFirst([e] + h)
    requires st == Deques(Rescan(r, Older(h, u0), t0), Newer(h, u0))
    requires u0 <= Shift(e.key, r.endOffset) && t0 <= Shift(e.key, r.startOffset)
    ensures after == BufferStep(r, exclude, st, e)
    ensures var u, ts := Shift(e.key, r.endOffset), Shift(e.key, r.startOffset);
            var due := Older([e] + h, u);
            && after.buffer == Newer([e] + h, u)
            && |due| >= |Older(h, u0)|
            && after.table == Rescan(r, due, if |due| > |Older(h, u0)| then ts else t0)
  {
    RedivideAtEnd(h, e, u0, Shift(e.key, r.endOffset));
    assert !Refused(st, e);
    after := DrainWaiting(r, st, [e] + Newer(h, u0), Older(h, u0), e, t0,
                          Shift(e.key, r.startOffset), Shift(e.key, r.endOffset));
  }

  lemma {:induction false} DrainWaiting<R>(r: WindowRange, st: WindowState<R>, waiting: seq<Entry<R>>,
                                           past: seq<Entry<R>>, e: Entry<R>, t0: nat, ts: nat,
                                           u: nat) returns (after: WindowState<R>)
    requires waiting == [e] + st.buffer && st.table == Rescan(r, past, t0)
    requires t0 <= ts == Shift(e.key, r.startOffset)
    requires NewestFirst(waiting + past) && AtMost(past, u)
    ensures after == PushHistory(r, st, e, u)
    ensures var due := Older(waiting + past, u);
            && after.buffer == Newer(waiting + past, u)
            && |due| >= |past|
            && after.table == Rescan(r, due, if |due| > |past| then ts else t0)
  {
    SplitFront(waiting, past, u);
    after := DrainSplit(r, st, Newer(waiting, u), Older(waiting, u), past, e, t0, ts, u);
    assert Older(waiting, u) == [] ==> Older(waiting, u) + past == past;
  }

  lemma {:induction false} DrainSplit<R>(r: WindowRange, st: WindowState<R>, later: seq<Entry<R>>,
                                         moved: seq<Entry<R>>, past: seq<Entry<R>>, e: Entry<R>, t0: nat, ts: nat,
                                         u: nat) returns (after: WindowState<R>)
    requires [e] + st.buffer == later + moved && st.table == Rescan(r, past, t0)
    requires t0 <= ts == Shift(e.key, r.startOffset)
    requires Above(later, u) && AtMost(moved, u) && NewestFirst(moved + past)
    ensures after == PushHistory(r, st, e, u)
    ensures after.buffer == later
    ensures after.table == if moved == [] then Rescan(r, past, t0) else Rescan(r, moved + past, ts)
  {
    OrderedConcat(moved, past);
    RescanCovers(r, past, t0);
    var grown := st.(buffer := [e] + st.buffer);
    after := Drain(r, grown, ts, u);
    DrainMovesDueRows(r, grown, later, moved, past, t0, ts, u);
  }

  /** In a run with nondecreasing keys every push is accepted. */
  lemma {:induction false} SurvivingSteps<R>(turns: seq<Turn<R>>)
    requires Nondecreasing(turns) && turns != []
    ensures var prior, last := turns[..|turns| - 1], turns[|turns| - 1];
            && Surviving(turns) == (if last.pop then [] else [last.entry]) + Surviving(prior)
            && NewestFirst([last.entry] + Surviving(prior))
            && Nondecreasing(prior) && Accepts(Latest(prior), last.entry)
  {
    var prior, last := turns[..|turns| - 1], turns[|turns| - 1];
    LatestIsSome(prior);
    SurvivingOrdered(prior);
    OrderedCons(last.entry, Surviving(prior));
  }

  /** A popped row at a positive key was waiting at the front of the buffer. */
  lemma {:induction false} PopWaiting<R>(e: Entry<R>, h: seq<Entry<R>>, u: nat)
    requires e.key > u
    ensures Older([e] + h, u) == Older(h, u) && Newer([e] + h, u) == [e] + Newer(h, u)
  {
    assert ([e] + h)[1..] == h;
  }

  lemma {:induction false} HistoryTurn<R>(r: WindowRange, exclude: bool, turns: seq<Turn<R>>, prior: seq<Turn<R>>,
                                          last: Turn<R>)
    requires r.startRow == 0 && r.endOffset < 0 && turns == prior + [last]
    requires last.pop ==> last.entry.key >= 1
    requires NewestFirst([last.entry] + Surviving(prior))
    requires Surviving(turns) == (if last.pop then [] else [last.entry]) + Surviving(prior)
    requires RunHistory(r, exclude, prior) ==
             Deques(Rescan(r, Due(r, prior), LastMove(r, prior)), Newer(Surviving(prior), EndTs(r, prior)))
    requires EndTs(r, prior) <= EndTs(r, turns) && LastMove(r, prior) <= StartTs(r, turns)
    ensures |Due(r, turns)| >= |Due(r, prior)|
    ensures RunHistory(r, exclude, turns) ==
            Deques(Rescan(r, Due(r, turns), if |Due(r, turns)| > |Due(r, prior)| then StartTs(r, turns) else LastMove(r, prior)),
                   Newer(Surviving(turns), EndTs(r, turns)))
  {
    hide LastMove;
    hide Surviving;
    assert turns[..|turns| - 1] == prior;
    var e, h, st := last.entry, Surviving(prior), RunHistory(r, exclude, prior);
    var after := HistoryPush(r, exclude, st, h, e, LastMove(r, prior), EndTs(r, prior));
    NothingRefused(r, st, h, e, LastMove(r, prior), EndTs(r, prior));
    hide Rescan;
    hide BufferStep;
    if last.pop {
      PopWaiting(e, h, EndTs(r, turns));
      assert [] + h == h && ([e] + Newer(h, EndTs(r, turns)))[1..] == Newer(h, EndTs(r, turns));
    }
  }

  lemma {:induction false} NothingRefused<R>(r: WindowRange, st: WindowState<R>, h: seq<Entry<R>>, e: Entry<R>,
                                             t0: nat, u0: nat)
    requires NewestFirst([e] + h) && st.table == Rescan(r, Older(h, u0), t0)
    ensures !Refused(st, e)
  {
    RedivideAtEnd(h, e, u0, u0);
  }

  /**
   In every run with nondecreasing keys, pops included, the buffer holds exactly the surviving rows
   after the end of the frame, and the window is the rescan of all other survivors as of the last push
   that moved a row.
   */
  lemma {:induction false} HistoryWindowIsRescan<R>(r: WindowRange, exclude: bool, turns: seq<Turn<R>>)
    requires r.startRow == 0 && r.endOffset < 0 && Nondecreasing(turns) && PopsPositive(turns)
    ensures RunHistory(r, exclude, turns) ==
            Deques(Rescan(r, Due(r, turns), LastMove(r, turns)), Newer(Surviving(turns), EndTs(r, turns)))
    ensures LastMove(r, turns) <= StartTs(r, turns)
    ensures turns != [] ==> |Due(r, turns)| >= |Due(r, turns[..|turns| - 1])|
  {
    if turns != [] {
      var prior, last := turns[..|turns| - 1], turns[|turns| - 1];
      SurvivingSteps(turns);
      HistoryWindowIsRescan(r, exclude, prior);
      assert prior != [] ==> prior[|prior| - 1] == turns[|prior| - 1];
      hide Rescan;
      hide RunHistory;
      hide Surviving;
      hide Older;
      hide Newer;
      assert turns == prior + [last];
      HistoryTurn(r, exclude, turns, prior, last);
    }
  }

  // ----- a pure range frame -----

  /** The rows between `t` and `u`, both included. */
  function InFrame<R>(s: seq<Entry<R>>, t: nat, u: nat): seq<Entry<R>> {
    if s == [] then [] else (if t <= s[0].key <= u then [s[0]] else []) + InFrame(s[1..], t, u)
  }

  lemma {:induction false} InFrameSkips<R>(a: seq<Entry<R>>, b: seq<Entry<R>>, t: nat, u: nat)
    requires Above(a, u)
    ensures InFrame(a + b, t, u) == InFrame(b, t, u)
  {
    if a == [] {
      assert a + b == b;
    } else {
      assert (a + b)[0] == a[0] && (a + b)[1..] == a[1..] + b;
      InFrameSkips(a[1..], b, t, u);
    }
  }

  lemma {:induction false} InFrameTakes<R>(s: seq<Entry<R>>, t: nat, u: nat)
    requires NewestFirst(s) && AtMost(s, u)
    ensures CountFrom(s, t) <= |s|
    ensures InFrame(s, t, u) == s[..CountFrom(s, t)]
  {
    if s != [] {
      InFrameTakes(s[1..], t, u);
      CountSplits(s, t);
      CountSplits(s[1..], t);
      if s[0].key >= t {
        assert s[..CountFrom(s, t)] == [s[0]] + s[1..][..CountFrom(s[1..], t)];
      }
    }
  }

  /**
   For a range frame with no size limit, after every turn of every run with nondecreasing keys: no
   surviving row in the frame is missing and no row after its end is visible; any rows too many are all older
   than the start of the frame, and there are none when the push moved a row.
   */
  lemma {:induction false} RangeFrameNeverLosesARow<R>(r: WindowRange, exclude: bool, turns: seq<Turn<R>>)
    requires r.frame == RowsRange && r.startRow == 0 && r.maxSize == 0 && r.endOffset < 0
    requires turns != [] && Nondecreasing(turns) && PopsPositive(turns)
    ensures var table := RunHistory(r, exclude, turns).table;
            var frame := InFrame(Surviving(turns), StartTs(r, turns), EndTs(r, turns));
            && frame <= table
            && AtMost(table, EndTs(r, turns))
            && AtMost(table[|frame|..], StartTs(r, turns) - 1)
            && (Moved(r, turns) ==> table == frame)
  {
    var h, t, u := Surviving(turns), StartTs(r, turns), EndTs(r, turns);
    HistoryWindowIsRescan(r, exclude, turns);
    SurvivingOrdered(turns);
    SplitAtKey(h, u);
    OrderedConcat(Newer(h, u), Older(h, u));
    InFrameSkips(Newer(h, u), Older(h, u), t, u);
    InFrameTakes(Older(h, u), t, u);
    CountSplits(Older(h, u), t);
    CountSplits(Older(h, u), LastMove(r, turns));
    CountAntitone(Older(h, u), LastMove(r, turns), t);
  }

  // ----- the limits of the model -----

  /** A row pushed while fewer than `startRow` rows are visible is shown at once. */
  lemma {:induction false} FirstRowShown<R>(r: WindowRange, exclude: bool, e: Entry<R>)
    requires r.endOffset < 0 && r.startRow > 0
    ensures RunHistory(r, exclude, [Turn(e, false)]).table == [e]
  {
    assert [Turn(e, false)][..0] == [] && [e] + [] == [e];
    TrimIsRescan(r, [e], Shift(e.key, r.startOffset));
    CountCons(e, [], Shift(e.key, r.startOffset));
  }

  ghost predicate NothingShownEarly(r: WindowRange, exclude: bool, turns: seq<Turn<int>>) {
    Nondecreasing(turns) && PopsPositive(turns) ==> AtMost(RunHistory(r, exclude, turns).table, EndTs(r, turns))
  }

  /**
   A frame that ends before the current row never shows a row after its end, on any run with
   nondecreasing keys, exactly when it asks for no preceding rows.
   */
  lemma {:induction false} NothingShownEarlyIffNoStartRow(r: WindowRange, exclude: bool)
    requires r.endOffset < 0
    ensures (forall turns :: NothingShownEarly(r, exclude, turns)) <==> r.startRow == 0
  {
    if r.startRow == 0 {
      forall turns ensures NothingShownEarly(r, exclude, turns) {
        if Nondecreasing(turns) && PopsPositive(turns) {
          HistoryWindowIsRescan(r, exclude, turns);
          SurvivingOrdered(turns);
          SplitAtKey(Surviving(turns), EndTs(r, turns));
        }
      }
    } else {
      var turns := [Turn(Entry(1, 0), false)];
      FirstRowShown(r, exclude, turns[0].entry);
      assert RunHistory(r, exclude, turns).table[0].key > EndTs(r, turns);
      assert !NothingShownEarly(r, exclude, turns);
    }
  }

  /**
   Why popped rows need positive keys: at key zero the frame's end is clamped onto the row itself, so
   that the popped row was visible.  Then the window is still the rescan of the survivors if and only
   if the frame had room for all of them and the popped row.
   */
  lemma {:induction false} ZeroPopIsRightIff<R>(r: WindowRange, exclude: bool, prior: seq<Turn<R>>, e: Entry<R>)
    requires r.startRow == 0 && r.endOffset < 0 && Nondecreasing(prior + [Turn(e, false)]) && PopsPositive(prior)
    requires e.key == 0
    ensures var st, s := RunHistory(r, exclude, prior + [Turn(e, true)]), Surviving(prior);
            && st.buffer == []
            && (st.table == Rescan(r, s, 0) <==> Visible(r, [e] + s, 0) == |s| + 1)
  {
    var s := Surviving(prior);
    ZeroPushShown(r, exclude, prior, e);
    PopLeavesCover(r, e, s, 0);
    hide RunHistory;
    hide Surviving;
    hide Rescan;
    RoomForAll(r, e, s);
  }

  lemma {:induction false} ZeroPushShown<R>(r: WindowRange, exclude: bool, prior: seq<Turn<R>>, e: Entry<R>)
    requires r.startRow == 0 && r.endOffset < 0 && Nondecreasing(prior + [Turn(e, false)]) && PopsPositive(prior)
    requires e.key == 0
    ensures RunHistory(r, exclude, prior + [Turn(e, false)]) == Deques(Rescan(r, [e] + Surviving(prior), 0), [])
    ensures !Refused(RunHistory(r, exclude, prior), e)
    ensures NewestFirst(Surviving(prior)) && AtMost(Surviving(prior), 0)
  {
    hide Rescan;
    var turns, s := prior + [Turn(e, false)], Surviving(prior);
    assert turns[..|turns| - 1] == prior;
    SurvivingSteps(turns);
    OrderedCons(e, s);
    HistoryWindowIsRescan(r, exclude, turns);
    HistoryWindowIsRescan(r, exclude, prior);
    NothingRefused(r, RunHistory(r, exclude, prior), s, e, LastMove(r, prior), EndTs(r, prior));
    OlderAll([e] + s, 0);
  }

  lemma {:induction false} RoomForAll<R>(r: WindowRange, e: Entry<R>, s: seq<Entry<R>>)
    requires NewestFirst(s) && e.key == 0 && AtMost(s, 0) && Rescan(r, [e] + s, 0) != []
    ensures Rescan(r, [e] + s, 0)[1..] == Rescan(r, s, 0) <==> Visible(r, [e] + s, 0) == |s| + 1
  {
    OrderedCons(e, s);
    CountUnique([e] + s, 0, |s| + 1);
    CountUnique(s, 0, |s|);
    assert Rescan(r, [e] + s, 0)[1..] == s[..Visible(r, [e] + s, 0) - 1];
  }

  // ----- the two classes of windows -----

  /** On a frame that ends at the current row, both classes of windows go through the same states. */
  lemma {:induction false} WindowsAgree<R>(r: WindowRange, exclude: bool, turns: seq<Turn<R>>)
    requires r.endOffset == 0
    ensures RunHistory(r, exclude, turns) == Run(r, exclude, turns)
  {
    if turns != [] {
      WindowsAgree(r, exclude, turns[..|turns| - 1]);
    }
  }
}
