/**
 Theorems over whole runs: whatever sequence of calls a window receives, its deques are what a
 rescan of the surviving history would give.
 */
module WindowRuns {
  import opened WindowFrames
  import opened Windows

  /** One push, followed, when it is accepted, by at most one pop of the newest row. */
  datatype Turn<R> = Turn(entry: Entry<R>, pop: bool)

  /** A window whose frame ends at the current row, under a run of turns that pop as `HistoryWindow` does. */
  function Run<R>(r: WindowRange, exclude: bool, turns: seq<Turn<R>>): WindowState<R> {
    if turns == [] then Deques([], [])
    else
      var n := |turns| - 1;
      var before := Run(r, exclude, turns[..n]);
      var after := CurrentStep(r, exclude, before, turns[n].entry);
      if turns[n].pop && !Refused(before, turns[n].entry) then PopFront(after) else after
  }

  /** A push is accepted when its key is not below that of the newest accepted row. */
  predicate Accepts<R>(latest: seq<Entry<R>>, e: Entry<R>) {
    latest == [] || latest[0].key <= e.key
  }

  /** The newest row accepted so far, if any. */
  function Latest<R>(turns: seq<Turn<R>>): (latest: seq<Entry<R>>)
    ensures |latest| == if turns == [] then 0 else 1
  {
    if turns == [] then []
    else
      var n := |turns| - 1;
      if Accepts(Latest(turns[..n]), turns[n].entry) then [turns[n].entry] else Latest(turns[..n])
  }

  /** The accepted rows that were not popped again, newest first. */
  function Surviving<R>(turns: seq<Turn<R>>): seq<Entry<R>> {
    if turns == [] then []
    else
      var n := |turns| - 1;
      if Accepts(Latest(turns[..n]), turns[n].entry) && !turns[n].pop
      then [turns[n].entry] + Surviving(turns[..n])
      else Surviving(turns[..n])
  }

  lemma {:induction false} SurvivingOrdered<R>(turns: seq<Turn<R>>)
    ensures NewestFirst(Surviving(turns))
    ensures turns == [] ==> Surviving(turns) == []
    ensures turns != [] ==> AtMost(Surviving(turns), Latest(turns)[0].key)
  {
    if turns != [] {
      var n := |turns| - 1;
      SurvivingOrdered(turns[..n]);
      OrderedCons(turns[n].entry, Surviving(turns[..n]));
    }
  }

  // ----- windows that show the current time -----

  ghost predicate Nondecreasing<R>(turns: seq<Turn<R>>) {
    forall i, j :: 0 <= i < j < |turns| ==> turns[i].entry.key <= turns[j].entry.key
  }

  ghost predicate NeverPops<R>(turns: seq<Turn<R>>) {
    forall i :: 0 <= i < |turns| ==> !turns[i].pop
  }

  /** What a plain window keeps between turns. */
  ghost predicate PlainState<R>(r: WindowRange, turns: seq<Turn<R>>) {
    var st := Run(r, false, turns);
    && st.buffer == []
    && (turns != [] ==> Covers(r, st.table, Surviving(turns), Shift(Latest(turns)[0].key, r.startOffset)))
    && (NeverPops(turns) ==> turns == [] || (st.table != [] && st.table[0] == Latest(turns)[0]))
  }

  lemma {:induction false} PlainPush<R>(r: WindowRange, turns: seq<Turn<R>>, e: Entry<R>)
    requires PlainState(r, turns) && Accepts(Latest(turns), e)
    ensures !Refused(Run(r, false, turns), e)
    ensures CurrentStep(r, false, Run(r, false, turns), e)
         == Deques(Rescan(r, [e] + Surviving(turns), Shift(e.key, r.startOffset)), [])
    ensures NewestFirst([e] + Surviving(turns))
  {
    SurvivingOrdered(turns);
    OrderedCons(e, Surviving(turns));
    var t1 := if turns == [] then 0 else Shift(Latest(turns)[0].key, r.startOffset);
    PushOntoCover(r, e, Run(r, false, turns).table, Surviving(turns), t1, Shift(e.key, r.startOffset));
  }

  lemma {:induction false} PlainAccepted<R>(r: WindowRange, turns: seq<Turn<R>>)
    requires turns != [] && PlainState(r, turns[..|turns| - 1])
    requires Accepts(Latest(turns[..|turns| - 1]), turns[|turns| - 1].entry)
    ensures PlainState(r, turns)
  {
    var prior, turn := turns[..|turns| - 1], turns[|turns| - 1];
    var e, ts := turn.entry, Shift(turn.entry.key, r.startOffset);
    PlainPush(r, prior, e);
    SurvivingOrdered(prior);
    PopLeavesCover(r, e, Surviving(prior), ts);
    RescanCovers(r, [e] + Surviving(prior), ts);
  }

  lemma {:induction false} PlainKeepsState<R>(r: WindowRange, turns: seq<Turn<R>>)
    requires Nondecreasing(turns) || NeverPops(turns)
    ensures PlainState(r, turns)
  {
    if turns != [] {
      var prior := turns[..|turns| - 1];
      PlainKeepsState(r, prior);
      LatestIsSome(prior);
      if Accepts(Latest(prior), turns[|turns| - 1].entry) {
        PlainAccepted(r, turns);
      }
    }
  }

  lemma {:induction false} LatestIsSome<R>(turns: seq<Turn<R>>)
    ensures turns != [] ==> exists i :: 0 <= i < |turns| && turns[i].entry == Latest(turns)[0]
  {
    if turns != [] {
      var n := |turns| - 1;
      LatestIsSome(turns[..n]);
      if !Accepts(Latest(turns[..n]), turns[n].entry) {
        var i :| 0 <= i < n && turns[..n][i].entry == Latest(turns[..n])[0];
        assert turns[i].entry == Latest(turns)[0];
      }
    }
  }

  /**
   Every accepted push, in every run of pushes with any keys, leaves exactly the newest rows of the
   accepted history that a full rescan selects; every other push is refused and changes nothing.
   */
  lemma {:induction false} CurrentWindowIsRescan<R>(r: WindowRange, turns: seq<Turn<R>>, e: Entry<R>)
    requires NeverPops(turns)
    ensures Refused(Run(r, false, turns), e) <==> !Accepts(Latest(turns), e)
    ensures Accepts(Latest(turns), e) ==>
              CurrentStep(r, false, Run(r, false, turns), e) ==
              Deques(Rescan(r, [e] + Surviving(turns), Shift(e.key, r.startOffset)), [])
  {
    PlainKeepsState(r, turns);
    if Accepts(Latest(turns), e) {
      PlainPush(r, turns, e);
    }
  }

  /**
   The instance row may be taken out of the window after each push: in every run with nondecreasing
   keys, each push still shows the rescan of the surviving rows and the new one.
   */
  lemma {:induction false} WindowWithoutInstanceIsRescan<R>(r: WindowRange, turns: seq<Turn<R>>, e: Entry<R>)
    requires Nondecreasing(turns + [Turn(e, false)])
    ensures !Refused(Run(r, false, turns), e)
    ensures CurrentStep(r, false, Run(r, false, turns), e)
         == Deques(Rescan(r, [e] + Surviving(turns), Shift(e.key, r.startOffset)), [])
  {
    var all := turns + [Turn(e, false)];
    assert forall i :: 0 <= i < |turns| ==> all[i] == turns[i];
    assert all[|turns|].entry == e;
    PlainKeepsState(r, turns);
    LatestIsSome(turns);
    assert Accepts(Latest(turns), e);
    PlainPush(r, turns, e);
  }

  lemma {:induction false} PrefixShown<R>(r: WindowRange, c: Entry<R>, s: seq<Entry<R>>, k: nat, ts: nat)
    requires NewestFirst(s) && AtMost(s, c.key) && k <= |s|
    ensures Rescan(r, [c] + s[..k], ts) == Rescan(r, [c] + s, ts) <==> Visible(r, [c] + s, ts) <= 1 + k
  {
    OrderedCons(c, s);
    assert [c] + s[..k] == ([c] + s)[..1 + k];
    if Visible(r, [c] + s, ts) <= 1 + k {
      RescanOfPrefix(r, [c] + s, 1 + k, ts);
    } else {
      assert |Rescan(r, [c] + s[..k], ts)| <= 1 + k < |Rescan(r, [c] + s, ts)|;
    }
  }

  /** So many pops in a row. */
  function Pops<R>(st: WindowState<R>, k: nat): (after: WindowState<R>)
    requires k <= |st.buffer| + |st.table|
    ensures |after.buffer| + |after.table| + k == |st.buffer| + |st.table|
  {
    if k == 0 then st else PopFront(Pops(st, k - 1))
  }

  lemma {:induction false} PopsOffTable<R>(table: seq<Entry<R>>, k: nat)
    requires k <= |table|
    ensures Pops(Deques(table, []), k) == Deques(table[k..], [])
  {
    if k > 0 {
      PopsOffTable(table, k - 1);
      assert table[k - 1..][1..] == table[k..];
    }
  }

  /**
   More pops take rows away that the window once had room for, and what it evicted for them does not
   come back.  After `k` of them the next push shows the rescan of what is left if and only if that
   needs no evicted row.
   */
  lemma {:induction false} MorePopsAreRightIff<R>(r: WindowRange, turns: seq<Turn<R>>, k: nat, c: Entry<R>)
    requires Nondecreasing(turns + [Turn(c, false)]) && k <= |Run(r, false, turns).table|
    ensures var st, s, ts := Run(r, false, turns), Surviving(turns), Shift(c.key, r.startOffset);
            && st.buffer == [] && k <= |s|
            && (CurrentStep(r, false, Pops(st, k), c).table == Rescan(r, [c] + s[k..], ts)
                <==> Visible(r, [c] + s[k..], ts) <= 1 + |st.table| - k)
  {
    var all, st, s, ts := turns + [Turn(c, false)], Run(r, false, turns), Surviving(turns), Shift(c.key, r.startOffset);
    assert forall i :: 0 <= i < |turns| ==> all[i] == turns[i];
    assert all[|turns|].entry == c;
    PlainKeepsState(r, turns);
    LatestIsSome(turns);
    SurvivingOrdered(turns);
    hide Run;
    hide Surviving;
    hide Visible;
    hide Rescan;
    hide CurrentStep;
    PopsOffTable(st.table, k);
    PushOntoLeft(r, st.table, s, k, c);
  }

  lemma {:induction false} PushOntoLeft<R>(r: WindowRange, table: seq<Entry<R>>, s: seq<Entry<R>>, k: nat, c: Entry<R>)
    requires table <= s && NewestFirst(s) && AtMost(s, c.key) && k <= |table|
    ensures var ts := Shift(c.key, r.startOffset);
            CurrentStep(r, false, Deques(table[k..], []), c).table == Rescan(r, [c] + s[k..], ts)
            <==> Visible(r, [c] + s[k..], ts) <= 1 + |table| - k
  {
    hide Visible;
    hide Rescan;
    hide Trim;
    var rest, left, ts := table[k..], s[k..], Shift(c.key, r.startOffset);
    assert rest == left[..|rest|];
    OrderedCons(c, rest);
    TrimIsRescan(r, [c] + rest, ts);
    PrefixShown(r, c, left, |rest|, ts);
  }

  lemma {:induction false} ThreePushes()
    ensures var r, turns := WindowRange(Rows, 0, 0, 1, 0), [Turn(Entry(1, 'a'), false), Turn(Entry(2, 'b'), false), Turn(Entry(3, 'c'), false)];
            && Run(r, false, turns) == Deques([Entry(3, 'c'), Entry(2, 'b')], [])
            && Surviving(turns) == [Entry(3, 'c'), Entry(2, 'b'), Entry(1, 'a')]
  {
    var r := WindowRange(Rows, 0, 0, 1, 0);
    var a, b, c := Turn(Entry(1, 'a'), false), Turn(Entry(2, 'b'), false), Turn(Entry(3, 'c'), false);
    assert [a, b, c][..2] == [a, b] && [a, b][..1] == [a] && [a][..0] == [];
    assert Surviving([a]) == [a.entry] && Latest([a]) == [a.entry];
    assert Surviving([a, b]) == [b.entry, a.entry] && Latest([a, b]) == [b.entry];
    assert Surviving([a, b, c]) == [c.entry, b.entry, a.entry];
    hide Surviving;
    hide Latest;
    assert Run(r, false, [a]) == Deques([a.entry], []);
    assert Run(r, false, [a, b]) == Deques([b.entry, a.entry], []);
    assert [c.entry] + [b.entry, a.entry] == [c.entry, b.entry, a.entry];
    assert [c.entry, b.entry, a.entry][..2] == [c.entry, b.entry];
    TrimIsRescan(r, [c.entry, b.entry, a.entry], 3);
  }

  /** For one, a frame of two rows: after two pops a row still needed is gone. */
  lemma {:induction false} TwoPopsLoseARow()
    ensures var r, turns := WindowRange(Rows, 0, 0, 1, 0), [Turn(Entry(1, 'a'), false), Turn(Entry(2, 'b'), false), Turn(Entry(3, 'c'), false)];
            && Run(r, false, turns) == Deques([Entry(3, 'c'), Entry(2, 'b')], [])
            && Surviving(turns)[2..] == [Entry(1, 'a')]
            && CurrentStep(r, false, Pops(Run(r, false, turns), 2), Entry(4, 'd')).table !=
               Rescan(r, [Entry(4, 'd')] + Surviving(turns)[2..], 4)
  {
    ThreePushes();
    hide Surviving;
    hide Run;
    hide CurrentStep;
    hide Pops;
    hide Rescan;
    var r, turns := WindowRange(Rows, 0, 0, 1, 0), [Turn(Entry(1, 'a'), false), Turn(Entry(2, 'b'), false), Turn(Entry(3, 'c'), false)];
    MorePopsAreRightIff(r, turns, 2, Entry(4, 'd'));
  }

  // ----- draining the side buffer -----

  lemma {:induction false} LastDue<R>(later: seq<Entry<R>>, due: seq<Entry<R>>, s: seq<Entry<R>>)
    requires due != [] && NewestFirst(due + s)
    ensures var buffer, x, rest := later + due, due[|due| - 1], due[..|due| - 1];
            && buffer != [] && buffer[|buffer| - 1] == x && buffer[..|buffer| - 1] == later + rest
            && rest + ([x] + s) == due + s && NewestFirst([x] + s) && AtMost(s, x.key)
            && (rest == [] ==> due + s == [x] + s)
  {
    OrderedConcat(due, s);
    OrderedCons(due[|due| - 1], s);
  }

  lemma {:induction false} DrainOne<R>(r: WindowRange, st: WindowState<R>, later: seq<Entry<R>>, due: seq<Entry<R>>,
                                       s: seq<Entry<R>>, t0: nat, startTs: nat, endTs: nat)
    requires due != [] && st.buffer == later + due && due[|due| - 1].key <= endTs
    requires Covers(r, st.table, s, t0) && t0 <= startTs && NewestFirst(due + s)
    ensures var x := due[|due| - 1];
            Drain(r, st, startTs, endTs) ==
            Drain(r, Deques(Rescan(r, [x] + s, startTs), later + due[..|due| - 1]), startTs, endTs)
  {
    LastDue(later, due, s);
    PushOntoCover(r, due[|due| - 1], st.table, s, t0, startTs);
  }

  /** Draining a buffer whose old part is due moves exactly that part, oldest row first. */
  lemma {:induction false} DrainMovesDueRows<R>(r: WindowRange, st: WindowState<R>, later: seq<Entry<R>>,
                                                due: seq<Entry<R>>, s: seq<Entry<R>>, t0: nat, startTs: nat,
                                                endTs: nat)
    requires st.buffer == later + due
    requires Above(later, endTs) && AtMost(due, endTs)
    requires Covers(r, st.table, s, t0) && t0 <= startTs && NewestFirst(due + s)
    ensures Drain(r, st, startTs, endTs)
         == Deques(if due == [] then st.table else Rescan(r, due + s, startTs), later)
    decreases |due|
  {
    if due == [] {
      assert st.buffer == later;
    } else {
      var x, rest := due[|due| - 1], due[..|due| - 1];
      LastDue(later, due, s);
      DrainOne(r, st, later, due, s, t0, startTs, endTs);
      RescanCovers(r, [x] + s, startTs);
      DrainMovesDueRows(r, Deques(Rescan(r, [x] + s, startTs), later + rest), later, rest, [x] + s,
                        startTs, startTs, endTs);
    }
  }

  // ----- windows that leave out the other rows of the current time -----

  /** The deques of an excluding window whose newest accepted row is `e` and whose survivors are `s`. */
  ghost function ExcludingState<R>(r: WindowRange, e: Entry<R>, s: seq<Entry<R>>): WindowState<R>
    requires e.key >= 1
  {
    Deques(Rescan(r, [e] + Older(s, e.key - 1), Shift(e.key, r.startOffset)), Newer(s, e.key - 1))
  }

  /** The first half of an excluding push: the rows before the new key join the window. */
  lemma {:induction false} DrainForExclusion<R>(r: WindowRange, st: WindowState<R>, later: seq<Entry<R>>,
                                                due: seq<Entry<R>>, past: seq<Entry<R>>, e: Entry<R>, t0: nat,
                                                ts: nat) returns (after: WindowState<R>)
    requires e.key >= 1 && st.buffer == later + due && ts == Shift(e.key, r.startOffset)
    requires Above(later, e.key - 1) && AtMost(due, e.key - 1)
    requires Covers(r, st.table, past, t0) && t0 <= ts && NewestFirst(due + past)
    ensures after == PushHistory(r, st, e, Before(e.key))
    ensures after.buffer == [e] + later
    ensures after.table == if due == [] then st.table else Rescan(r, due + past, ts)
  {
    hide Drain;
    assert [e] + (later + due) == ([e] + later) + due;
    var grown := st.(buffer := [e] + st.buffer);
    after := Drain(r, grown, ts, e.key - 1);
    DrainMovesDueRows(r, grown, [e] + later, due, past, t0, ts, e.key - 1);
  }

  lemma {:induction false} DrainThenPush<R>(r: WindowRange, st: WindowState<R>, later: seq<Entry<R>>,
                                            due: seq<Entry<R>>, past: seq<Entry<R>>, e: Entry<R>, t0: nat,
                                            ts: nat) returns (after: WindowState<R>)
    requires e.key >= 1 && st.buffer == later + due && ts == Shift(e.key, r.startOffset)
    requires Above(later, e.key - 1) && AtMost(due, e.key - 1)
    requires Covers(r, st.table, past, t0) && t0 <= ts && NewestFirst(due + past)
    requires AtMost(due + past, e.key)
    ensures after == PushEffective(r, PushHistory(r, st, e, Before(e.key)), e, ts)
    ensures after == Deques(Rescan(r, [e] + (due + past), ts), [e] + later)
  {
    var drained := DrainForExclusion(r, st, later, due, past, e, t0, ts);
    after := PushEffective(r, drained, e, ts);
    assert due == [] ==> due + past == past;
    RescanCovers(r, due + past, ts);
    PushOntoCover(r, e, drained.table, due + past, if due == [] then t0 else ts, ts);
  }

  lemma {:induction false} AllAtKey<R>(d: Entry<R>, s: seq<Entry<R>>)
    requires d.key >= 1 && NewestFirst(s) && AtMost(s, d.key)
    ensures var aside, past := Newer(s, d.key - 1), Older(s, d.key - 1);
            && s == aside + past && NewestFirst(past)
            && Above(aside, d.key - 1) && AtMost(aside, d.key)
            && AtMost(past, d.key - 1)
  {
    SplitAtKey(s, d.key - 1);
    var aside, past := Newer(s, d.key - 1), Older(s, d.key - 1);
    OrderedConcat(aside, past);
    assert forall i :: 0 <= i < |aside| ==> aside[i] == s[i];
  }

  ghost function Popped<R>(st: WindowState<R>): WindowState<R> {
    if st.table != [] then st.(table := st.table[1..]) else st
  }

  lemma {:induction false} ExcludingStepUnfolds<R>(r: WindowRange, st: WindowState<R>, e: Entry<R>)
    requires !Refused(st, e)
    ensures CurrentStep(r, true, st, e) ==
            PushEffective(r, PushHistory(r, Popped(st), e, Before(e.key)), e, Shift(e.key, r.startOffset))
  {
    hide PushHistory;
    hide PushEffective;
  }

  /** A push at key `k` shows the new row and the rows before `k`, and sets the rows of `k` aside. */
  lemma {:induction false} ExcludingPush<R>(r: WindowRange, d: Entry<R>, s: seq<Entry<R>>,
                                            e: Entry<R>) returns (after: WindowState<R>)
    requires 1 <= d.key <= e.key && NewestFirst(s) && AtMost(s, d.key)
    ensures !Refused(ExcludingState(r, d, s), e)
    ensures after == CurrentStep(r, true, ExcludingState(r, d, s), e) == ExcludingState(r, e, [e] + s)
  {
    var t0 := Shift(d.key, r.startOffset);
    var aside, past := Newer(s, d.key - 1), Older(s, d.key - 1);
    AllAtKey(d, s);
    PopLeavesCover(r, d, past, t0);
    var st := ExcludingState(r, d, s);
    var popped := Deques(st.table[1..], aside);
    ExcludingStepUnfolds(r, st, e);
    if e.key == d.key {
      after := PushAtSameKey(r, popped, aside, past, e, t0, Shift(e.key, r.startOffset));
    } else {
      after := PushAtNewKey(r, popped, aside, past, e, t0, Shift(e.key, r.startOffset));
    }
  }

  lemma {:induction false} PushAtSameKey<R>(r: WindowRange, popped: WindowState<R>, aside: seq<Entry<R>>,
                                            past: seq<Entry<R>>, e: Entry<R>, t0: nat,
                                            ts: nat) returns (after: WindowState<R>)
    requires e.key >= 1 && popped.buffer == aside && ts == Shift(e.key, r.startOffset)
    requires Above(aside, e.key - 1) && AtMost(past, e.key - 1)
    requires Covers(r, popped.table, past, t0) && t0 <= ts
    ensures after == PushEffective(r, PushHistory(r, popped, e, Before(e.key)), e, ts)
    ensures after == ExcludingState(r, e, [e] + (aside + past))
  {
    assert aside + [] == aside && [] + past == past;
    after := DrainThenPush(r, popped, aside, [], past, e, t0, ts);
    SplitAsideAgain(e, aside + past, aside, past);
  }

  lemma {:induction false} PushAtNewKey<R>(r: WindowRange, popped: WindowState<R>, aside: seq<Entry<R>>,
                                           past: seq<Entry<R>>, e: Entry<R>, t0: nat,
                                           ts: nat) returns (after: WindowState<R>)
    requires e.key >= 1 && popped.buffer == aside && ts == Shift(e.key, r.startOffset)
    requires AtMost(aside, e.key - 1) && AtMost(aside + past, e.key - 1) && NewestFirst(aside + past)
    requires Covers(r, popped.table, past, t0) && t0 <= ts
    ensures after == PushEffective(r, PushHistory(r, popped, e, Before(e.key)), e, ts)
    ensures after == ExcludingState(r, e, [e] + (aside + past))
  {
    hide PushHistory;
    hide PushEffective;
    hide Rescan;
    assert [] + aside == aside && [e] + [] == [e];
    after := DrainThenPush(r, popped, [], aside, past, e, t0, ts);
    SplitUnique([e], aside + past, e.key - 1);
  }

  lemma {:induction false} SplitAsideAgain<R>(e: Entry<R>, s: seq<Entry<R>>, later: seq<Entry<R>>, past: seq<Entry<R>>)
    requires e.key >= 1 && s == later + past
    requires Above(later, e.key - 1) && AtMost(past, e.key - 1)
    ensures Newer([e] + s, e.key - 1) == [e] + later && Older([e] + s, e.key - 1) == past
  {
    assert [e] + s == ([e] + later) + past;
    SplitUnique([e] + later, past, e.key - 1);
  }

  /** No row at key zero is popped. */
  ghost predicate PopsPositive<R>(turns: seq<Turn<R>>) {
    forall i :: 0 <= i < |turns| && turns[i].pop ==> turns[i].entry.key >= 1
  }

  lemma {:induction false} PopAside<R>(r: WindowRange, e: Entry<R>, s: seq<Entry<R>>)
    requires e.key >= 1
    ensures PopFront(ExcludingState(r, e, [e] + s)) == ExcludingState(r, e, s)
  {
    assert ([e] + s)[1..] == s;
    assert Newer([e] + s, e.key - 1) == [e] + Newer(s, e.key - 1);
    assert Older([e] + s, e.key - 1) == Older(s, e.key - 1);
  }

  // ----- key zero, where one below the key wraps around -----

  /** The deques after a push at key zero: the row is drained at once and then shown a second time. */
  ghost function ZeroState<R>(r: WindowRange, e: Entry<R>, s: seq<Entry<R>>): WindowState<R> {
    Deques(Rescan(r, [e] + ([e] + s), 0), [])
  }

  lemma {:induction false} ZeroPush<R>(r: WindowRange, st: WindowState<R>, s: seq<Entry<R>>, e: Entry<R>)
    requires e.key == 0 && st.buffer == [] && !Refused(st, e)
    requires Covers(r, Popped(st).table, s, 0) && AtMost(s, 0)
    ensures CurrentStep(r, true, st, e) == ZeroState(r, e, s)
  {
    hide Drain;
    var grown := Deques(Popped(st).table, [e]);
    OrderedCons(e, s);
    assert [e] + [] == [e] && [] + [e] == [e];
    DrainMovesDueRows(r, grown, [], [e], s, 0, 0, TWO64 - 1);
    RescanCovers(r, [e] + s, 0);
    PushOntoCover(r, e, Rescan(r, [e] + s, 0), [e] + s, 0, 0);
  }

  lemma {:induction false} PositivePushAfterZero<R>(r: WindowRange, st: WindowState<R>, s: seq<Entry<R>>, e: Entry<R>)
    requires e.key >= 1 && st.buffer == [] && !Refused(st, e)
    requires Covers(r, Popped(st).table, s, 0) && AtMost(s, 0)
    ensures CurrentStep(r, true, st, e) == ExcludingState(r, e, [e] + s)
  {
    hide CurrentStep;
    ExcludingStepUnfolds(r, st, e);
    var none: seq<Entry<R>> := [];
    assert none + s == s;
    var after := PushAtNewKey(r, Popped(st), none, s, e, 0, Shift(e.key, r.startOffset));
  }

  /** The state that an excluding window keeps between turns. */
  ghost predicate ExcludingKept<R>(r: WindowRange, turns: seq<Turn<R>>) {
    turns != [] ==>
      var e, s := Latest(turns)[0], Surviving(turns);
      if e.key >= 1 then Run(r, true, turns) == ExcludingState(r, e, s)
      else s != [] && s[0] == e && Run(r, true, turns) == ZeroState(r, e, s[1..])
  }

  /**
   With the current time excluded, for every run and every accepted push: at a positive key the window
   shows the new row and, behind it, the frame's share of the rows with smaller keys, and the side
   buffer holds exactly the surviving rows at that key; at key zero nothing is left out, nothing is
   set aside, and the new row counts twice.
   */
  lemma {:induction false} ExcludingAccepted<R>(r: WindowRange, turns: seq<Turn<R>>, e: Entry<R>)
    requires ExcludingKept(r, turns) && Accepts(Latest(turns), e)
    ensures !Refused(Run(r, true, turns), e)
    ensures CurrentStep(r, true, Run(r, true, turns), e) ==
            if e.key >= 1 then ExcludingState(r, e, [e] + Surviving(turns)) else ZeroState(r, e, Surviving(turns))
  {
    var st, s := Run(r, true, turns), Surviving(turns);
    SurvivingOrdered(turns);
    if turns != [] && Latest(turns)[0].key >= 1 {
      var after := ExcludingPush(r, Latest(turns)[0], s, e);
    } else {
      ZeroCovers(r, turns);
      if e.key >= 1 { PositivePushAfterZero(r, st, s, e); } else { ZeroPush(r, st, s, e); }
    }
  }

  lemma {:induction false} ZeroCovers<R>(r: WindowRange, turns: seq<Turn<R>>)
    requires ExcludingKept(r, turns) && (turns != [] ==> Latest(turns)[0].key == 0)
    ensures var st, s := Run(r, true, turns), Surviving(turns);
            && st.buffer == [] && AtMost(s, 0) && Covers(r, Popped(st).table, s, 0)
            && (st.table != [] ==> st.table[0].key == 0)
  {
    SurvivingOrdered(turns);
    if turns != [] {
      var e, s := Latest(turns)[0], Surviving(turns);
      assert s == [e] + s[1..];
      PopLeavesCover(r, e, s, 0);
    }
  }

  /** The same after every turn of every run, pops included; a push is refused iff its key is below the newest accepted one. */
  lemma {:induction false} ExcludingWindowIsRescan<R>(r: WindowRange, turns: seq<Turn<R>>)
    requires PopsPositive(turns)
    ensures ExcludingKept(r, turns)
    ensures forall e :: Refused(Run(r, true, turns), e) <==> !Accepts(Latest(turns), e)
  {
    if turns != [] {
      var n := |turns| - 1;
      ExcludingWindowIsRescan(r, turns[..n]);
      assert turns == turns[..n] + [turns[n]];
      ExcludingTurn(r, turns, turns[..n], turns[n]);
      LatestShown(r, turns);
    }
  }

  lemma {:induction false} ExcludingTurn<R>(r: WindowRange, turns: seq<Turn<R>>, prior: seq<Turn<R>>, last: Turn<R>)
    requires turns == prior + [last] && PopsPositive(turns) && ExcludingKept(r, prior)
    requires forall e :: Refused(Run(r, true, prior), e) <==> !Accepts(Latest(prior), e)
    ensures ExcludingKept(r, turns)
  {
    hide Rescan;
    assert turns[..|turns| - 1] == prior;
    var e := last.entry;
    if Accepts(Latest(prior), e) {
      ExcludingAccepted(r, prior, e);
      if e.key >= 1 { PopAside(r, e, Surviving(prior)); }
      assert ([e] + Surviving(prior))[1..] == Surviving(prior);
    }
  }

  lemma {:induction false} LatestShown<R>(r: WindowRange, turns: seq<Turn<R>>)
    requires turns != [] && ExcludingKept(r, turns)
    ensures var table := Run(r, true, turns).table;
            table != [] && table[0] == Latest(turns)[0]
  {
    hide Run;
    var e, s := Latest(turns)[0], Surviving(turns);
    SurvivingOrdered(turns);
    if e.key >= 1 {
      AllAtKey(e, s);
      PopLeavesCover(r, e, Older(s, e.key - 1), Shift(e.key, r.startOffset));
    } else {
      assert s == [e] + s[1..];
      PopLeavesCover(r, e, s, 0);
    }
  }

  /** Key zero is the exception: there a first row is not set aside, and it is shown twice unless the frame shows one row only. */
  lemma {:induction false} ExcludingNeedsPositiveKeys<R>(r: WindowRange, e: Entry<R>)
    ensures var st := CurrentStep(r, true, Deques([], []), e);
            && (st.buffer == [e] <==> e.key >= 1)
            && (st.table == [e] <==> e.key >= 1 || Visible(r, [e, e], 0) == 1)
  {
    var none: seq<Turn<R>> := [];
    ExcludingAccepted(r, none, e);
    assert [e] + [] == [e] && [e] + [e] == [e, e];
    if e.key >= 1 {
      SplitAsideAgain(e, [], [], []);
      PopLeavesCover(r, e, [], Shift(e.key, r.startOffset));
    } else {
      PopLeavesCover(r, e, [e], 0);
    }
  }

  /**
   And there a pop costs a row: it leaves the second copy, which the next push takes away in place of
   nothing.  At a positive key the next window is right if and only if it shows fewer rows than the window
   at key zero did, or the new row only; another push at key zero makes up for it.
   */
  lemma {:induction false} ZeroPopIsRightIff<R>(r: WindowRange, prior: seq<Turn<R>>, e: Entry<R>, c: Entry<R>)
    requires ExcludingKept(r, prior) && Accepts(Latest(prior), e) && e.key == 0
    ensures var st, s, ts := ZeroState(r, e, Surviving(prior)), Surviving(prior), Shift(c.key, r.startOffset);
            && CurrentStep(r, true, Run(r, true, prior), e) == st && st.table != []
            && if c.key == 0 then CurrentStep(r, true, PopFront(st), c) == ZeroState(r, c, s)
               else CurrentStep(r, true, PopFront(st), c).table == Rescan(r, [c] + s, ts)
                    <==> Visible(r, [c] + s, ts) < Max(2, Visible(r, [e] + ([e] + s), 0))
  {
    hide CurrentStep;
    hide Run;
    hide Surviving;
    hide Visible;
    ExcludingAccepted(r, prior, e);
    SurvivingBelow(prior, e);
    OrderedCons(e, Surviving(prior));
    PopLeavesCover(r, e, [e] + Surviving(prior), 0);
    if c.key == 0 {
      ZeroPopAgain(r, e, Surviving(prior), c);
    } else {
      ZeroPopNext(r, e, Surviving(prior), c);
    }
  }

  lemma {:induction false} ZeroPopAgain<R>(r: WindowRange, e: Entry<R>, s: seq<Entry<R>>, c: Entry<R>)
    requires e.key == 0 && c.key == 0 && NewestFirst(s) && AtMost(s, 0) && ZeroState(r, e, s).table != []
    ensures CurrentStep(r, true, PopFront(ZeroState(r, e, s)), c) == ZeroState(r, c, s)
  {
    hide CurrentStep;
    hide Visible;
    hide Rescan;
    var after := PopFront(ZeroState(r, e, s));
    var rest := Popped(after).table;
    RestAfterPops(r, e, s);
    hide PopFront;
    hide ZeroState;
    hide Popped;
    CoversItself(r, rest);
    ZeroPush(r, after, rest, c);
    ZeroStateOfPrefix(r, e, c, s, |rest|);
  }

  lemma {:induction false} CoversItself<R>(r: WindowRange, s: seq<Entry<R>>)
    requires NewestFirst(s)
    ensures Covers(r, s, s, 0)
  {
    CountSplits(s, 0);
  }

  lemma {:induction false} ZeroStateOfPrefix<R>(r: WindowRange, e: Entry<R>, c: Entry<R>, s: seq<Entry<R>>, n: nat)
    requires e.key == 0 && c.key == 0 && NewestFirst(s) && AtMost(s, 0)
    requires n <= |s| && Visible(r, [e] + ([e] + s), 0) <= 2 + n
    ensures ZeroState(r, c, s[..n]) == ZeroState(r, c, s)
  {
    var was, whole := [e] + ([e] + s), [c] + ([c] + s);
    CountUnique(was, 0, |was|);
    CountUnique(whole, 0, |whole|);
    assert [c] + ([c] + s[..n]) == whole[..2 + n];
    RescanOfPrefix(r, whole, 2 + n, 0);
  }

  lemma {:induction false} ZeroPopNext<R>(r: WindowRange, e: Entry<R>, s: seq<Entry<R>>, c: Entry<R>)
    requires e.key == 0 && c.key >= 1 && NewestFirst(s) && AtMost(s, 0) && ZeroState(r, e, s).table != []
    ensures var st, ts := ZeroState(r, e, s), Shift(c.key, r.startOffset);
            CurrentStep(r, true, PopFront(st), c).table == Rescan(r, [c] + s, ts)
            <==> Visible(r, [c] + s, ts) < Max(2, Visible(r, [e] + ([e] + s), 0))
  {
    hide CurrentStep;
    hide PushHistory;
    hide PushEffective;
    hide Visible;
    hide Rescan;
    var st, ts := ZeroState(r, e, s), Shift(c.key, r.startOffset);
    RestAfterPops(r, e, s);
    hide ZeroState;
    hide PopFront;
    var rest, none := Popped(PopFront(st)).table, st.buffer[..0];
    ExcludingStepUnfolds(r, PopFront(st), c);
    assert none + none == none && none + rest == rest;
    PushOntoRest(r, rest, none, none, c, ts);
    PrefixShown(r, c, s, |rest|, ts);
  }

  lemma {:induction false} RestAfterPops<R>(r: WindowRange, e: Entry<R>, s: seq<Entry<R>>)
    requires e.key == 0 && NewestFirst(s) && AtMost(s, 0)
    ensures var v, after := Visible(r, [e] + ([e] + s), 0), PopFront(ZeroState(r, e, s));
            && 1 <= v && after.buffer == []
            && Popped(after).table == s[..if v > 2 then v - 2 else 0]
            && (after.table != [] ==> after.table[0].key == 0)
  {
    OrderedCons(e, s);
    PopLeavesCover(r, e, [e] + s, 0);
    hide Visible;
    var whole, v := [e] + ([e] + s), Visible(r, [e] + ([e] + s), 0);
    assert v > 1 ==> whole[..v][1..] == ([e] + s)[..v - 1] && ([e] + s)[..v - 1][1..] == s[..v - 2];
  }

  // ----- the pop of CurrentHistoryWindow -----

  /** A window under turns that pop as `CurrentHistoryWindow` does. */
  function RunCurrent<R>(r: WindowRange, exclude: bool, turns: seq<Turn<R>>): WindowState<R> {
    if turns == [] then Deques([], [])
    else
      var n := |turns| - 1;
      var before := RunCurrent(r, exclude, turns[..n]);
      var after := CurrentStep(r, exclude, before, turns[n].entry);
      if turns[n].pop && !Refused(before, turns[n].entry) then PopTable(after) else after
  }

  /** Without exclusion the two classes pop alike in every run: nothing is ever set aside. */
  lemma {:induction false} PopsAgreeWhenPlain<R>(r: WindowRange, turns: seq<Turn<R>>)
    requires Nondecreasing(turns)
    ensures RunCurrent(r, false, turns) == Run(r, false, turns)
  {
    if turns != [] {
      var n := |turns| - 1;
      var prior, e := turns[..n], turns[n].entry;
      PopsAgreeWhenPlain(r, prior);
      PlainShowsOnly(r, turns, prior, e);
      hide CurrentStep;
    }
  }

  lemma {:induction false} PlainShowsOnly<R>(r: WindowRange, turns: seq<Turn<R>>, prior: seq<Turn<R>>, e: Entry<R>)
    requires Nondecreasing(turns) && turns != [] && prior == turns[..|turns| - 1] && e == turns[|turns| - 1].entry
    ensures var st := CurrentStep(r, false, Run(r, false, prior), e); st.buffer == [] && st.table != []
  {
    WindowWithoutInstanceIsRescan(r, prior, e);
    SurvivingOrdered(prior);
    PopLeavesCover(r, e, Surviving(prior), Shift(e.key, r.startOffset));
  }

  lemma {:induction false} VisibleOne<R>(r: WindowRange, c: Entry<R>, e: Entry<R>, y: seq<Entry<R>>, ts: nat)
    requires NewestFirst(y) && AtMost(y, e.key) && ts <= c.key && Visible(r, [c, e], ts) == 1
    ensures Visible(r, [c] + y, ts) == 1
  {
    CountOfTwo(c, e, ts);
    CountCons(c, y, ts);
    if e.key < ts {
      CountUnique(y, ts, 0);
    }
  }

  lemma {:induction false} VisibleTwo<R>(r: WindowRange, c: Entry<R>, e: Entry<R>, y: seq<Entry<R>>, ts: nat)
    requires ts <= c.key
    ensures Visible(r, [c, e], ts) > 1 ==> Visible(r, [c] + ([e] + y), ts) > 1
  {
    CountOfTwo(c, e, ts);
    CountCons(c, [e] + y, ts);
    CountCons(e, y, ts);
  }

  lemma {:induction false} CountOfTwo<R>(c: Entry<R>, e: Entry<R>, ts: nat)
    ensures CountFrom([c, e], ts) == (if c.key >= ts then 1 else 0) + (if e.key >= ts then 1 else 0)
  {
    var none: seq<Entry<R>> := [];
    assert [c] + [e] == [c, e] && [e] + none == [e];
    CountCons(c, [e], ts);
    CountCons(e, none, ts);
  }

  /** What `PopTable` and then the pop inside an excluding push leave of the rows before `e`. */
  ghost function TwicePopped<R>(r: WindowRange, e: Entry<R>, past: seq<Entry<R>>): seq<Entry<R>> {
    var table := Rescan(r, [e] + past, Shift(e.key, r.startOffset));
    if |table| > 1 then table[2..] else []
  }

  lemma {:induction false} TwicePoppedIsPart<R>(r: WindowRange, e: Entry<R>, past: seq<Entry<R>>)
    requires NewestFirst(past)
    ensures var v, twice := Visible(r, [e] + past, Shift(e.key, r.startOffset)), TwicePopped(r, e, past);
            && 1 <= v <= 1 + |past| && |twice| == (if v > 1 then v - 2 else 0)
            && NewestFirst(twice) && forall i :: 0 <= i < |twice| ==> twice[i] == past[1 + i]
  {
    PopLeavesCover(r, e, past, Shift(e.key, r.startOffset));
    hide Visible;
    var v := Visible(r, [e] + past, Shift(e.key, r.startOffset));
    assert |Rescan(r, [e] + past, Shift(e.key, r.startOffset))| == v;
    if v > 1 {
      assert |([e] + past)[..v][2..]| == v - 2;
      assert ([e] + past)[..v][2..] == past[1..v - 1];
    }
  }

  lemma {:induction false} PushOntoRest<R>(r: WindowRange, rest: seq<Entry<R>>, later: seq<Entry<R>>,
                                           due: seq<Entry<R>>, c: Entry<R>, ts: nat)
    requires c.key >= 1 && ts == Shift(c.key, r.startOffset)
    requires Above(later, c.key - 1) && AtMost(due, c.key - 1)
    requires NewestFirst(rest) && NewestFirst(due + rest) && AtMost(due + rest, c.key)
    ensures PushEffective(r, PushHistory(r, Deques(rest, later + due), c, Before(c.key)), c, ts) ==
            Deques(Rescan(r, [c] + (due + rest), ts), [c] + later)
  {
    hide PushHistory;
    hide PushEffective;
    var after := DrainThenPush(r, Deques(rest, later + due), later, due, rest, c, 0, ts);
  }

  /** An excluding push after `PopTable`: two rows are gone from the window, and the popped row is still aside. */
  lemma {:induction false} TablePopUnfolds<R>(r: WindowRange, e: Entry<R>, s: seq<Entry<R>>, c: Entry<R>)
    requires 1 <= e.key <= c.key && NewestFirst(s) && AtMost(s, e.key)
    ensures var st, past := ExcludingState(r, e, [e] + s), Older(s, e.key - 1);
            && st.table != [] && st.buffer == [e] + Newer(s, e.key - 1)
            && CurrentStep(r, true, PopTable(st), c) ==
               PushEffective(r, PushHistory(r, Deques(TwicePopped(r, e, past), st.buffer), c, Before(c.key)), c,
                             Shift(c.key, r.startOffset))
  {
    hide PushHistory;
    hide PushEffective;
    hide CurrentStep;
    hide Visible;
    var aside, past := Newer(s, e.key - 1), Older(s, e.key - 1);
    AllAtKey(e, s);
    StateBehind(r, e, s);
    hide ExcludingState;
    hide Older;
    hide Newer;
    PopLeavesCover(r, e, past, Shift(e.key, r.startOffset));
    var st := ExcludingState(r, e, [e] + s);
    assert |st.table| > 1 ==> st.table[1] == past[0];
    hide Rescan;
    assert |st.table| > 1 ==> st.table[1..][1..] == st.table[2..];
    ExcludingStepUnfolds(r, PopTable(st), c);
  }

  lemma {:induction false} StateBehind<R>(r: WindowRange, e: Entry<R>, s: seq<Entry<R>>)
    requires e.key >= 1
    ensures ExcludingState(r, e, [e] + s) ==
            Deques(Rescan(r, [e] + Older(s, e.key - 1), Shift(e.key, r.startOffset)), [e] + Newer(s, e.key - 1))
  {
    hide Rescan;
    assert ([e] + s)[1..] == s;
    assert Older([e] + s, e.key - 1) == Older(s, e.key - 1);
    assert Newer([e] + s, e.key - 1) == [e] + Newer(s, e.key - 1);
  }

  /** At a later key the popped row comes back: the window is right iff it shows no row behind the new one. */
  lemma {:induction false} TablePopBeforeLaterKey<R>(r: WindowRange, e: Entry<R>, s: seq<Entry<R>>, c: Entry<R>)
    requires 1 <= e.key < c.key && NewestFirst(s) && AtMost(s, e.key)
    ensures var st, ts := ExcludingState(r, e, [e] + s), Shift(c.key, r.startOffset);
            var table := CurrentStep(r, true, PopTable(st), c).table;
            && (Visible(r, [c, e], ts) == 1 ==> table == Rescan(r, [c] + s, ts))
            && (Visible(r, [c, e], ts) > 1 ==> |table| > 1 && table[1] == e)
  {
    hide CurrentStep;
    hide PushHistory;
    hide PushEffective;
    hide Newer;
    hide Older;
    hide Visible;
    hide Rescan;
    var aside, past, ts := Newer(s, e.key - 1), Older(s, e.key - 1), Shift(c.key, r.startOffset);
    var twice := TwicePopped(r, e, past);
    AllAtKey(e, s);
    TwicePoppedIsPart(r, e, past);
    TablePopUnfolds(r, e, s, c);
    hide ExcludingState;
    hide TwicePopped;
    DueBehind(e, aside, twice);
    assert [] + ([e] + aside) == [e] + aside;
    PushOntoRest(r, twice, [], [e] + aside, c, ts);
    BehindLater(r, c, e, aside + twice, s, ts);
    assert ([e] + aside) + twice == [e] + (aside + twice);
  }

  lemma {:induction false} BehindLater<R>(r: WindowRange, c: Entry<R>, e: Entry<R>, y: seq<Entry<R>>,
                                          s: seq<Entry<R>>, ts: nat)
    requires NewestFirst([e] + y) && AtMost([e] + y, e.key) && NewestFirst(s) && AtMost(s, e.key) && ts <= c.key
    ensures var table := Rescan(r, [c] + ([e] + y), ts);
            && (Visible(r, [c, e], ts) == 1 ==> table == Rescan(r, [c] + s, ts))
            && (Visible(r, [c, e], ts) > 1 ==> |table| > 1 && table[1] == e)
  {
    VisibleTwo(r, c, e, y, ts);
    if Visible(r, [c, e], ts) == 1 {
      VisibleOne(r, c, e, [e] + y, ts);
      VisibleOne(r, c, e, s, ts);
    }
    hide Visible;
  }

  lemma {:induction false} DueBehind<R>(e: Entry<R>, aside: seq<Entry<R>>, past: seq<Entry<R>>)
    requires e.key >= 1 && AtMost(aside, e.key) && Above(aside, e.key - 1) && AtMost(past, e.key - 1) && NewestFirst(past)
    ensures NewestFirst(([e] + aside) + past) && AtMost(([e] + aside) + past, e.key) && AtMost([e] + aside, e.key)
  {
  }

  /** At the same key nothing joins the window: it is right iff it shows no older row. */
  lemma {:induction false} TablePopBeforeSameKey<R>(r: WindowRange, e: Entry<R>, s: seq<Entry<R>>, c: Entry<R>)
    requires 1 <= e.key == c.key && NewestFirst(s) && AtMost(s, e.key)
    ensures var st, ts, past := ExcludingState(r, e, [e] + s), Shift(c.key, r.startOffset), Older(s, c.key - 1);
            CurrentStep(r, true, PopTable(st), c).table == Rescan(r, [c] + past, ts) <==> Visible(r, [c] + past, ts) == 1
  {
    hide CurrentStep;
    hide PushHistory;
    hide PushEffective;
    hide Newer;
    hide Older;
    hide Visible;
    hide Rescan;
    var aside, past, ts := Newer(s, e.key - 1), Older(s, e.key - 1), Shift(c.key, r.startOffset);
    var twice := TwicePopped(r, e, past);
    AllAtKey(e, s);
    TwicePoppedIsPart(r, e, past);
    TablePopUnfolds(r, e, s, c);
    hide ExcludingState;
    hide TwicePopped;
    assert ([e] + aside) + [] == [e] + aside && [] + twice == twice;
    PushOntoRest(r, twice, [e] + aside, [], c, ts);
    BehindSame(r, e, c, past, twice, ts);
  }

  lemma {:induction false} BehindSame<R>(r: WindowRange, e: Entry<R>, c: Entry<R>, past: seq<Entry<R>>,
                                         twice: seq<Entry<R>>, ts: nat)
    requires NewestFirst(past) && e.key == c.key && ts <= c.key && NewestFirst(twice)
    requires var v := Visible(r, [e] + past, ts); 1 <= v <= 1 + |past| && |twice| == if v > 1 then v - 2 else 0
    ensures Rescan(r, [c] + twice, ts) == Rescan(r, [c] + past, ts) <==> Visible(r, [c] + past, ts) == 1
  {
    CountCons(e, past, ts);
    CountCons(c, past, ts);
    PopLeavesCover(r, c, past, ts);
    PopLeavesCover(r, c, twice, ts);
    assert |Rescan(r, [c] + past, ts)| == Visible(r, [c] + past, ts) == Visible(r, [e] + past, ts);
    assert |Rescan(r, [c] + twice, ts)| <= 1 + |twice|;
  }

  /**
   After any run of excluding turns that ends with a row `e` left in place, popping `e` as
   `CurrentHistoryWindow` does, instead of as `HistoryWindow` does, leaves the next push `c` with the
   right window if and only if the frame shows no row behind `c`: not `e`, when `c` comes later, and
   no older row, when `c` has the same key.
   */
  lemma {:induction false} TablePopIsRightIff<R>(r: WindowRange, prior: seq<Turn<R>>, e: Entry<R>, c: Entry<R>)
    requires PopsPositive(prior) && Accepts(Latest(prior), e) && 1 <= e.key <= c.key && e !in Surviving(prior)
    ensures var st, s := Run(r, true, prior + [Turn(e, false)]), Surviving(prior);
            var behind := if c.key > e.key then [e] else Older(s, e.key - 1);
            && st.table != [] && st.buffer != []
            && (CurrentStep(r, true, PopTable(st), c).table == CurrentStep(r, true, PopFront(st), c).table
                <==> Visible(r, [c] + behind, Shift(c.key, r.startOffset)) == 1)
  {
    hide CurrentStep;
    hide Run;
    hide Surviving;
    hide Rescan;
    EndOfRun(r, prior, e);
    SurvivingBelow(prior, e);
    StateBehind(r, e, Surviving(prior));
    TablePopNext(r, e, Surviving(prior), c);
  }

  lemma {:induction false} TablePopNext<R>(r: WindowRange, e: Entry<R>, s: seq<Entry<R>>, c: Entry<R>)
    requires 1 <= e.key <= c.key && NewestFirst(s) && AtMost(s, e.key) && e !in s
    ensures var st := ExcludingState(r, e, [e] + s);
            var behind := if c.key > e.key then [e] else Older(s, e.key - 1);
            && st.table != [] && st.buffer != []
            && (CurrentStep(r, true, PopTable(st), c).table == CurrentStep(r, true, PopFront(st), c).table
                <==> Visible(r, [c] + behind, Shift(c.key, r.startOffset)) == 1)
  {
    hide CurrentStep;
    hide Older;
    hide Newer;
    hide Visible;
    var ts := Shift(c.key, r.startOffset);
    PopAside(r, e, s);
    StateBehind(r, e, s);
    TablePopUnfolds(r, e, s, c);
    var after := ExcludingPush(r, e, s, c);
    ShownAfter(r, e, s, c);
    hide ExcludingState;
    hide Rescan;
    if c.key > e.key {
      assert [c] + [e] == [c, e];
      TablePopBeforeLaterKey(r, e, s, c);
      NotShown(r, c, e, s, ts);
    } else {
      TablePopBeforeSameKey(r, e, s, c);
    }
  }

  lemma {:induction false} NotShown<R>(r: WindowRange, c: Entry<R>, e: Entry<R>, s: seq<Entry<R>>, ts: nat)
    requires e !in s && ts <= c.key
    ensures Visible(r, [c, e], ts) >= 1
    ensures var table := Rescan(r, [c] + s, ts); !(|table| > 1 && table[1] == e)
  {
    CountOfTwo(c, e, ts);
    var n := Visible(r, [c] + s, ts);
    assert n > 1 ==> ([c] + s)[..n][1] == s[0];
  }

  lemma {:induction false} SurvivingBelow<R>(prior: seq<Turn<R>>, e: Entry<R>)
    requires Accepts(Latest(prior), e)
    ensures NewestFirst(Surviving(prior)) && AtMost(Surviving(prior), e.key)
  {
    SurvivingOrdered(prior);
  }

  lemma {:induction false} ShownAfter<R>(r: WindowRange, e: Entry<R>, s: seq<Entry<R>>, c: Entry<R>)
    requires 1 <= e.key <= c.key && NewestFirst(s) && AtMost(s, e.key)
    ensures ExcludingState(r, c, [c] + s).table ==
            Rescan(r, [c] + (if c.key > e.key then s else Older(s, e.key - 1)), Shift(c.key, r.startOffset))
  {
    hide Rescan;
    assert ([c] + s)[1..] == s;
    assert Older([c] + s, c.key - 1) == Older(s, c.key - 1);
    if c.key > e.key { OlderAll(s, c.key - 1); }
  }

  lemma {:induction false} EndOfRun<R>(r: WindowRange, prior: seq<Turn<R>>, e: Entry<R>)
    requires PopsPositive(prior) && Accepts(Latest(prior), e) && e.key >= 1
    ensures Run(r, true, prior + [Turn(e, false)]) == ExcludingState(r, e, [e] + Surviving(prior))
  {
    var turns := prior + [Turn(e, false)];
    assert turns[..|turns| - 1] == prior;
    ExcludingWindowIsRescan(r, prior);
    ExcludingAccepted(r, prior, e);
  }

  /** For one, a frame of two rows: the next push shows the wrong second row. */
  lemma {:induction false} TablePopLosesARow()
    ensures var r, a, b, c := WindowRange(Rows, 0, 0, 1, 0), Entry(1, 'a'), Entry(2, 'b'), Entry(3, 'c');
            var st := Run(r, true, [Turn(a, false)] + [Turn(b, false)]);
            && st.table != [] && st.buffer != []
            && CurrentStep(r, true, PopTable(st), c).table != CurrentStep(r, true, PopFront(st), c).table
  {
    var r, a, b, c := WindowRange(Rows, 0, 0, 1, 0), Entry(1, 'a'), Entry(2, 'b'), Entry(3, 'c');
    assert [Turn(a, false)][..0] == [] && [c] + [b] == [c, b];
    assert Surviving([Turn(a, false)]) == [a] && Latest([Turn(a, false)]) == [a];
    TablePopIsRightIff(r, [Turn(a, false)], b, c);
    hide Run;
    hide CurrentStep;
    assert Visible(r, [c, b], 3) == 2;
  }
}
