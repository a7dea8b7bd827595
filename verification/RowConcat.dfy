/**
 Rows of several slices: the concatenating constructors, and the table that concatenates two tables
 row by row on first use.
 */
module RowConcat {
  import opened Common

  /** A slice of row data; the default slice is empty. */
  datatype Slice = NoSlice | Slice(data: seq<int>)

  /** The first slice and the others. */
  datatype Row = Row(slice: Slice, slices: seq<Slice>)

  const EmptyRow := Row(NoSlice, [])

  function GetSlice(r: Row, i: nat): Slice {
    if i >= |r.slices| + 1 then NoSlice else if i == 0 then r.slice else r.slices[i - 1]
  }

  function SliceCount(r: Row): nat { 1 + |r.slices| }

  /** Slice `i` of the concatenation: the major row's share, then the secondary row's. */
  function ConcatAt(majorSlices: nat, major: Row, secondarySlices: nat, secondary: Row, i: nat): Slice {
    if i < majorSlices then GetSlice(major, i)
    else if i < majorSlices + secondarySlices then GetSlice(secondary, i - majorSlices)
    else NoSlice
  }

  /** Whatever the rows really hold, the result has the declared number of slices; missing ones are empty. */
  method Concat(majorSlices: nat, major: Row, secondarySlices: nat, secondary: Row) returns (r: Row)
    requires majorSlices >= 1 && secondarySlices >= 1
    ensures SliceCount(r) == majorSlices + secondarySlices
    ensures forall i :: 0 <= i < majorSlices ==> GetSlice(r, i) == GetSlice(major, i)
    ensures forall i :: 0 <= i < secondarySlices ==> GetSlice(r, majorSlices + i) == GetSlice(secondary, i)
    ensures r == Joined(majorSlices, major, secondarySlices, secondary)
  {
    var slices := seq(majorSlices + secondarySlices - 1, _ => NoSlice);
    for offset := 0 to majorSlices - 1
      invariant |slices| == majorSlices + secondarySlices - 1
      invariant forall j :: 0 <= j < |slices| ==> slices[j] == if j < offset then GetSlice(major, j + 1) else NoSlice
    {
      if |major.slices| > offset {
        slices := slices[offset := major.slices[offset]];
      }
    }
    slices := slices[majorSlices - 1 := secondary.slice];
    for offset := 0 to secondarySlices - 1
      invariant |slices| == majorSlices + secondarySlices - 1
      invariant forall j :: 0 <= j < |slices| ==>
                  slices[j] == if j < majorSlices + offset then ConcatAt(majorSlices, major, secondarySlices, secondary, j + 1)
                               else NoSlice
    {
      if |secondary.slices| > offset {
        slices := slices[offset + majorSlices := secondary.slices[offset]];
      }
    }
    r := Row(major.slice, slices);
    RowsBySlices(r, Joined(majorSlices, major, secondarySlices, secondary));
  }

  /** The row that `Concat` builds. */
  function Joined(majorSlices: nat, major: Row, secondarySlices: nat, secondary: Row): (r: Row)
    requires majorSlices >= 1 && secondarySlices >= 1
    ensures SliceCount(r) == majorSlices + secondarySlices
    ensures forall i :: 0 <= i ==> GetSlice(r, i) == ConcatAt(majorSlices, major, secondarySlices, secondary, i)
  {
    Row(major.slice, seq(majorSlices + secondarySlices - 1,
                         j requires j >= 0 => ConcatAt(majorSlices, major, secondarySlices, secondary, j + 1)))
  }

  lemma {:induction false} RowsBySlices(a: Row, b: Row)
    requires SliceCount(a) == SliceCount(b) && forall i :: 0 <= i ==> GetSlice(a, i) == GetSlice(b, i)
    ensures a == b
  {
    assert a.slice == GetSlice(a, 0) && b.slice == GetSlice(b, 0);
    forall j | 0 <= j < |a.slices| ensures a.slices[j] == b.slices[j] {
      assert a.slices[j] == GetSlice(a, j + 1) && b.slices[j] == GetSlice(b, j + 1);
    }
  }

  /** Concatenation is associative, whatever slice counts are declared. */
  lemma {:induction false} JoinedIsAssociative(n1: nat, a: Row, n2: nat, b: Row, n3: nat, c: Row)
    requires n1 >= 1 && n2 >= 1 && n3 >= 1
    ensures Joined(n1 + n2, Joined(n1, a, n2, b), n3, c) == Joined(n1, a, n2 + n3, Joined(n2, b, n3, c))
  {
    var left, right := Joined(n1 + n2, Joined(n1, a, n2, b), n3, c), Joined(n1, a, n2 + n3, Joined(n2, b, n3, c));
    forall i | 0 <= i ensures GetSlice(left, i) == GetSlice(right, i) {
    }
    RowsBySlices(left, right);
  }

  // ----- ConcatTableHandler -----

  datatype Entry = Entry(key: nat, row: Row)

  /** The rows of the left table, each joined with the right row of the same rank, or with an empty row. */
  function PaddedZip(left: seq<Entry>, leftSlices: nat, right: seq<Entry>, rightSlices: nat): (z: seq<Entry>)
    requires leftSlices >= 1 && rightSlices >= 1
    ensures |z| == |left|
  {
    seq(|left|, i requires 0 <= i < |left| =>
      Entry(left[i].key, Joined(leftSlices, left[i].row, rightSlices, if i < |right| then right[i].row else EmptyRow)))
  }

  /** Rows of equal rank are joined: the left row's key and slices first, then the right row's, empty ones where there is none. */
  lemma {:induction false} ZipJoinsEqualRanks(left: seq<Entry>, leftSlices: nat, right: seq<Entry>, rightSlices: nat, k: nat)
    requires leftSlices >= 1 && rightSlices >= 1 && k < |left|
    ensures var z := PaddedZip(left, leftSlices, right, rightSlices)[k];
            && z.key == left[k].key && SliceCount(z.row) == leftSlices + rightSlices
            && (forall i :: 0 <= i < leftSlices ==> GetSlice(z.row, i) == GetSlice(left[k].row, i))
            && (k < |right| ==>
                  forall i :: 0 <= i < rightSlices ==> GetSlice(z.row, leftSlices + i) == GetSlice(right[k].row, i))
            && (k >= |right| ==> forall i :: leftSlices <= i ==> GetSlice(z.row, i) == NoSlice)
  {
  }

  class ConcatTableHandler {
    const left: Option<seq<Entry>>
    const right: Option<seq<Entry>>
    const leftSlices: nat
    const rightSlices: nat
    var running: bool
    var table: seq<Entry>

    /** What the handler shows once synchronized: nothing without a left table. */
    ghost function Contents(): seq<Entry>
      requires leftSlices >= 1 && rightSlices >= 1
    {
      if left.None? then []
      else PaddedZip(left.value, leftSlices, if right.None? then [] else right.value, rightSlices)
    }

    ghost predicate Valid()
      reads this
    {
      leftSlices >= 1 && rightSlices >= 1 && table == if running then [] else Contents()
    }

    constructor (left: Option<seq<Entry>>, leftSlices: nat, right: Option<seq<Entry>>, rightSlices: nat)
      requires leftSlices >= 1 && rightSlices >= 1
      ensures Valid() && running
      ensures this.left == left && this.right == right && this.leftSlices == leftSlices && this.rightSlices == rightSlices
    {
      this.left, this.leftSlices, this.right, this.rightSlices := left, leftSlices, right, rightSlices;
      running, table := true, [];
    }

    /** `SyncValue` and the status update around it. */
    method Sync()
      requires Valid() && running
      modifies this
      ensures Valid() && !running
    {
      running := false;
      if left.None? {
        return;
      }
      var rows := left.value;
      var l, r := 0, 0;
      while l < |rows|
        invariant 0 <= l <= |rows| && 0 <= r && !running
        invariant r == if right.None? then 0 else if l < |right.value| then l else |right.value|
        invariant table == Contents()[..l]
      {
        var joined;
        if right.None? || r >= |right.value| {
          joined := Concat(leftSlices, rows[l].row, rightSlices, EmptyRow);
        } else {
          joined := Concat(leftSlices, rows[l].row, rightSlices, right.value[r].row);
          r := r + 1;
        }
        table := table + [Entry(rows[l].key, joined)];
        l := l + 1;
      }
      assert Contents()[..|rows|] == Contents();
    }

    method At(pos: nat) returns (row: Row)
      requires Valid()
      modifies this
      ensures Valid() && !running
      ensures row == if pos < |Contents()| then Contents()[pos].row else EmptyRow
    {
      if running {
        Sync();
      }
      row := if pos < |table| then table[pos].row else EmptyRow;
    }

    method GetCount() returns (n: nat)
      requires Valid()
      modifies this
      ensures Valid() && !running && n == |Contents()|
    {
      if running {
        Sync();
      }
      n := |table|;
    }

    /** The rows that an iterator walks. */
    method GetIterator() returns (rows: seq<Entry>)
      requires Valid()
      modifies this
      ensures Valid() && !running && rows == Contents()
    {
      if running {
        Sync();
      }
      rows := table;
    }
  }
}
