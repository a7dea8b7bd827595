/**
 The sliding windows of the in-memory executor, as state machines over their two deques
 (front, that is index 0, is the newest row).
 */
module Windows {
  import opened WindowFrames

  /** `table` is what the window shows; `buffer` holds rows that are not visible yet, or not at this key. */
  datatype WindowState<R> = Deques(table: seq<Entry<R>>, buffer: seq<Entry<R>>)

  // ----- one call, as a function of the state -----

  function PushEffective<R>(r: WindowRange, st: WindowState<R>, e: Entry<R>, startTs: nat): WindowState<R> {
    st.(table := Trim(r, [e] + st.table, startTs))
  }

  /** Move every row at or before `endTs` from the old end of the buffer into the window. */
  function Drain<R>(r: WindowRange, st: WindowState<R>, startTs: nat, endTs: nat): (after: WindowState<R>)
    ensures st.buffer != [] && st.buffer[0].key >= startTs ==> after.buffer != [] || after.table != []
    decreases |st.buffer|
  {
    if st.buffer == [] then st
    else
      var n := |st.buffer| - 1;
      if st.buffer[n].key > endTs then st
      else Drain(r, PushEffective(r, st, st.buffer[n], startTs).(buffer := st.buffer[..n]), startTs, endTs)
  }

  function PushHistory<R>(r: WindowRange, st: WindowState<R>, e: Entry<R>, endTs: nat): WindowState<R> {
    Drain(r, st.(buffer := [e] + st.buffer), Shift(e.key, r.startOffset), endTs)
  }

  function PushCurrentTime<R>(r: WindowRange, exclude: bool, st: WindowState<R>, e: Entry<R>): WindowState<R> {
    var startTs := Shift(e.key, r.startOffset);
    if !exclude then PushEffective(r, st, e, startTs)
    else
      var popped := if st.table != [] then st.(table := st.table[1..]) else st;
      PushEffective(r, PushHistory(r, popped, e, Before(e.key)), e, startTs)
  }

  /** A push is refused exactly when the newest visible row is newer. */
  predicate Refused<R>(st: WindowState<R>, e: Entry<R>) {
    st.table != [] && st.table[0].key > e.key
  }

  /** `HistoryWindow::BufferData`. */
  function BufferStep<R>(r: WindowRange, exclude: bool, st: WindowState<R>, e: Entry<R>): WindowState<R> {
    if Refused(st, e) then st
    else if r.endOffset == 0 then PushCurrentTime(r, exclude, st, e)
    else if |st.table| < r.startRow then PushEffective(r, st, e, Shift(e.key, r.startOffset))
    else PushHistory(r, st, e, Shift(e.key, r.endOffset))
  }

  /** `CurrentHistoryWindow::BufferData`: the end offset plays no part. */
  function CurrentStep<R>(r: WindowRange, exclude: bool, st: WindowState<R>, e: Entry<R>): WindowState<R> {
    if Refused(st, e) then st else PushCurrentTime(r, exclude, st, e)
  }

  // ----- the windows themselves -----

  class HistoryWindow<R> {
    const range: WindowRange
    const excludeCurrentTime: bool
    var table: seq<Entry<R>>
    var buffer: seq<Entry<R>>

    ghost function State(): WindowState<R>
      reads this
    {
      Deques(table, buffer)
    }

    constructor (range: WindowRange, excludeCurrentTime: bool)
      ensures this.range == range && this.excludeCurrentTime == excludeCurrentTime
      ensures State() == Deques([], [])
    {
      this.range := range;
      this.excludeCurrentTime := excludeCurrentTime;
      table, buffer := [], [];
    }

    method BufferEffectiveWindow(e: Entry<R>, startTs: nat)
      modifies this
      ensures State() == PushEffective(range, old(State()), e, startTs)
    {
      table := [e] + table;
      var curSize := |table|;
      while range.maxSize > 0 && curSize > range.maxSize
        invariant curSize == |table| && buffer == old(buffer)
        invariant Cap(range, table) == Cap(range, [e] + old(table))
      {
        table := table[..|table| - 1];
        curSize := curSize - 1;
      }
      while curSize > 0
        invariant curSize == |table| && buffer == old(buffer)
        invariant Slide(range, table, startTs) == Trim(range, [e] + old(table), startTs)
      {
        var back := table[|table| - 1];
        if (range.frame == Rows || range.frame == RowsMergeRowsRange) && curSize <= range.startRow + 1 {
          break;
        }
        if range.frame == Rows || back.key < startTs {
          table := table[..|table| - 1];
          curSize := curSize - 1;
        } else {
          break;
        }
      }
    }

    method BufferCurrentHistoryBuffer(e: Entry<R>, endTs: nat)
      modifies this
      ensures State() == PushHistory(range, old(State()), e, endTs)
    {
      buffer := [e] + buffer;
      var startTs := Shift(e.key, range.startOffset);
      while buffer != []
        invariant Drain(range, State(), startTs, endTs) == PushHistory(range, old(State()), e, endTs)
        decreases |buffer|
      {
        var back := buffer[|buffer| - 1];
        if back.key > endTs {
          break;
        }
        BufferEffectiveWindow(back, startTs);
        buffer := buffer[..|buffer| - 1];
      }
    }

    method BufferCurrentTimeBuffer(e: Entry<R>, startTs: nat)
      requires startTs == Shift(e.key, range.startOffset)
      modifies this
      ensures State() == PushCurrentTime(range, excludeCurrentTime, old(State()), e)
    {
      if !excludeCurrentTime {
        BufferEffectiveWindow(e, startTs);
      } else {
        PopEffectiveData();
        BufferCurrentHistoryBuffer(e, Before(e.key));
        BufferEffectiveWindow(e, startTs);
      }
    }

    method PopEffectiveData()
      modifies this
      ensures buffer == old(buffer)
      ensures table == if old(table) != [] then old(table)[1..] else []
    {
      if table != [] {
        table := table[1..];
      }
    }

    method BufferData(e: Entry<R>) returns (ok: bool)
      modifies this
      ensures ok == !Refused(old(State()), e)
      ensures State() == BufferStep(range, excludeCurrentTime, old(State()), e)
    {
      if table != [] && table[0].key > e.key {
        return false;
      }
      ok := true;
      if |table| < range.startRow {
        var startTs := Shift(e.key, range.startOffset);
        if range.endOffset == 0 {
          BufferCurrentTimeBuffer(e, startTs);
        } else {
          BufferEffectiveWindow(e, startTs);
        }
      } else if range.endOffset == 0 {
        BufferCurrentTimeBuffer(e, Shift(e.key, range.startOffset));
      } else {
        BufferCurrentHistoryBuffer(e, Shift(e.key, range.endOffset));
      }
    }

    /** `CurrentHistoryWindow::BufferData`. */
    method BufferDataCurrent(e: Entry<R>) returns (ok: bool)
      modifies this
      ensures ok == !Refused(old(State()), e)
      ensures State() == CurrentStep(range, excludeCurrentTime, old(State()), e)
    {
      if table != [] && table[0].key > e.key {
        return false;
      }
      ok := true;
      var startTs := Shift(e.key, range.startOffset);
      if excludeCurrentTime {
        BufferCurrentTimeBuffer(e, startTs);
      } else {
        BufferEffectiveWindow(e, startTs);
      }
    }

    method PopFrontData()
      requires buffer != [] || table != []
      modifies this
      ensures State() == PopFront(old(State()))
    {
      if buffer == [] {
        table := table[1..];
      } else {
        buffer := buffer[1..];
      }
    }

    /** `CurrentHistoryWindow::PopFrontData`. */
    method PopFrontDataCurrent()
      requires table != []
      modifies this
      ensures State() == PopTable(old(State()))
    {
      table := table[1..];
    }
  }

  /** `HistoryWindow::PopFrontData`: the newest row not yet visible goes first. */
  function PopFront<R>(st: WindowState<R>): WindowState<R>
    requires st.buffer != [] || st.table != []
  {
    if st.buffer == [] then st.(table := st.table[1..]) else st.(buffer := st.buffer[1..])
  }

  /** `CurrentHistoryWindow::PopFrontData`: only the visible rows are looked at. */
  function PopTable<R>(st: WindowState<R>): WindowState<R>
    requires st.table != []
  {
    st.(table := st.table[1..])
  }
}
