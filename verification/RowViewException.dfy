/**
 Rows of exactly 2^24 bytes, the one size at which the emitted slots have three bytes while the row
 view looks for four: what the row view then reads, and exactly which rows it reads right.
 */
module RowViewException {
  import opened Bytes
  import opened RowLayout
  import opened RowImage
  import opened RowWrites
  import opened RowReading
  import opened RowBuilding
  import opened NativeEncoding

  // ----- reading one string, slot word by slot word -----

  /** The word that a decoder with slots of width `w` finds for string column `i`. */
  function WordAt(b: seq<byte>, schema: Schema, w: nat, i: nat): nat
    requires 1 <= w <= 4 && i < |schema| && SlotOffset(schema, w, i) + w <= |b|
  {
    SlotValue(b[SlotOffset(schema, w, i)..SlotOffset(schema, w, i) + w])
  }

  /** On any bytes, a string is read as `s` iff the words enclose as many bytes and these spell `s`. */
  lemma {:induction false} StringReadsIff(b: seq<byte>, schema: Schema, w: nat, i: nat, s: seq<byte>)
    requires i < |schema| && schema[i] == Varchar && |b| >= BodyStart(schema, w) && 1 <= w <= 4
    ensures SlotOffset(schema, w, i) + w <= |b|
    ensures SlotsInside(b, StrIndex(schema, i), NextSlot(schema, i), StrStart(schema), w)
    ensures var start, end := WordAt(b, schema, w, i), EndOfString(b, NextSlot(schema, i), StrStart(schema), w);
            ReadString(b, schema, w, i) == Got(VString(s)) <==> end == start + |s| && Slice(b, start, s)
  {
    StringReadsInside(b, schema, w, i);
    SlotInside(schema, w, i, |schema|);
  }

  /** Where a decoder believes that the string in column `i` ends: the next string's word, or the stored size. */
  lemma {:induction false} EndIsNextWord(b: seq<byte>, schema: Schema, w: nat, i: nat, size: nat)
    requires i < |schema| && schema[i] == Varchar && |b| >= BodyStart(schema, w) && 1 <= w <= 4 && HeaderHolds(b, size)
    ensures var j := NextString(schema, i);
            && (j < |schema| ==> SlotOffset(schema, w, j) + w <= |b|)
            && SlotsInside(b, StrIndex(schema, i), NextSlot(schema, i), StrStart(schema), w)
            && EndOfString(b, NextSlot(schema, i), StrStart(schema), w) ==
               if j < |schema| then WordAt(b, schema, w, j) else size
  {
    var j := NextString(schema, i);
    StringReadsInside(b, schema, w, i);
    SlotOfNext(schema, i);
    if j < |schema| { SlotInside(schema, w, j, |schema|); }
  }

  lemma {:induction false} SlotOfNext(schema: Schema, i: nat)
    requires i < |schema| && schema[i] == Varchar
    ensures var j := NextString(schema, i);
            NextSlot(schema, i) == if j < |schema| then StrIndex(schema, j) else 0
    ensures NextString(schema, i) < |schema| ==> StrIndex(schema, NextString(schema, i)) == StrIndex(schema, i) + 1
  {
    NextIndex(schema, i);
    var j := NextString(schema, i);
    if j < |schema| { PlaceInside(schema, j); }
  }

  lemma {:induction false} NextIndex(schema: Schema, i: nat)
    requires i < |schema|
    ensures StrIndex(schema, NextString(schema, i)) == StrIndex(schema, i + 1)
    decreases |schema| - i
  {
    if i + 1 < |schema| && schema[i + 1] != Varchar { NextIndex(schema, i + 1); }
  }

  /** A fixed column, or a NULL, reads back whatever the slots look like. */
  lemma {:induction false} OtherColumnReads(b: seq<byte>, schema: Schema, w: nat, w': nat, vals: seq<Value>, i: nat)
    requires Supported(schema) && Finished(b, schema, w, vals) && i < |schema| && 1 <= w' <= 4 && |b| >= BodyStart(schema, w')
    requires schema[i] != Varchar || vals[i].Null?
    ensures ReadColumn(b, schema, w', i) == AsGot(vals[i])
  {
    Marks(schema, w', i);
    if !vals[i].Null? {
      assert ColumnHolds(b, schema, w, vals, i);
      FixedReadsBack(b, schema, i, vals[i]);
    }
  }

  // ----- three-byte slots read as four-byte slots -----

  ghost predicate NoNullStrings(schema: Schema, vals: seq<Value>)
    requires |vals| == |schema|
  {
    forall i :: 0 <= i < |schema| && schema[i] == Varchar ==> !vals[i].Null?
  }

  /** The setting of this file: an emitted row of 2^24 bytes without NULL strings, with room for four-byte slots. */
  ghost predicate Exceptional(b: seq<byte>, schema: Schema, vals: seq<Value>) {
    && Supported(schema) && |b| == TWO24 && Finished(b, schema, 3, vals)
    && NoNullStrings(schema, vals) && |b| >= BodyStart(schema, 4)
  }

  ghost predicate ReadsAll(b: seq<byte>, schema: Schema, w: nat, vals: seq<Value>)
    requires Supported(schema) && |b| >= BodyStart(schema, w) && 1 <= w <= 4 && |vals| == |schema|
  {
    forall i :: 0 <= i < |schema| ==> ReadColumn(b, schema, w, i) == AsGot(vals[i])
  }

  /** The word that the row view finds for string column `i` is where its body starts. */
  ghost predicate WordRight(b: seq<byte>, schema: Schema, vals: seq<Value>, i: nat)
    requires Exceptional(b, schema, vals) && i < |schema| && schema[i] == Varchar
  {
    SlotInside(schema, 4, i, |schema|);
    WordAt(b, schema, 4, i) == BodyOffset(schema, 3, vals, i)
  }

  lemma {:induction false} BodyEnd(b: seq<byte>, schema: Schema, vals: seq<Value>, i: nat)
    requires Exceptional(b, schema, vals) && i < |schema| && schema[i] == Varchar
    ensures var j := NextString(schema, i);
            BodyOffset(schema, 3, vals, i) + StrLen(vals[i]) == if j < |schema| then BodyOffset(schema, 3, vals, j) else TWO24
    ensures vals[i].VString? && Slice(b, BodyOffset(schema, 3, vals, i), vals[i].s) && HeaderHolds(b, TWO24)
    ensures |b| >= BodyStart(schema, 4) && Marked(b, schema, vals, i)
  {
    NextSlotIsNextString(schema, vals, i);
    assert ColumnHolds(b, schema, 3, vals, i);
    Marks(schema, 4, i);
  }

  ghost predicate Marked(b: seq<byte>, schema: Schema, vals: seq<Value>, i: nat)
    requires |vals| == |schema| && i < |schema|
  {
    HEADER_LENGTH + i / 8 < |b| && !NullBit(b, i)
  }

  /** One string reads back at width four iff its word and the next one differ by its length and enclose its bytes. */
  lemma {:induction false} ExceptionalRead(b: seq<byte>, schema: Schema, vals: seq<Value>, i: nat)
    requires Exceptional(b, schema, vals) && i < |schema| && schema[i] == Varchar
    ensures vals[i].VString?
    ensures var j, s := NextString(schema, i), vals[i].s;
            && SlotOffset(schema, 4, i) + 4 <= |b| && (j < |schema| ==> SlotOffset(schema, 4, j) + 4 <= |b|)
            && var start, end := WordAt(b, schema, 4, i), if j < |schema| then WordAt(b, schema, 4, j) else TWO24;
               ReadColumn(b, schema, 4, i) == AsGot(vals[i]) <==> end == start + |s| && Slice(b, start, s)
  {
    BodyEnd(b, schema, vals, i);
    StringReadsIff(b, schema, 4, i, vals[i].s);
    EndIsNextWord(b, schema, 4, i, TWO24);
  }

  /** Backwards from the last string, whose end is the stored size, every word must be right. */
  lemma {:induction false} WordsAreRight(b: seq<byte>, schema: Schema, vals: seq<Value>, i: nat)
    requires Exceptional(b, schema, vals) && i < |schema| && schema[i] == Varchar && ReadsAll(b, schema, 4, vals)
    ensures WordRight(b, schema, vals, i)
    decreases |schema| - i
  {
    hide ReadColumn;
    hide WordAt;
    ExceptionalRead(b, schema, vals, i);
    BodyEnd(b, schema, vals, i);
    var j := NextString(schema, i);
    hide Exceptional;
    if j < |schema| { WordsAreRight(b, schema, vals, j); }
  }

  ghost predicate AllWordsRight(b: seq<byte>, schema: Schema, vals: seq<Value>)
    requires Exceptional(b, schema, vals)
  {
    forall i :: 0 <= i < |schema| && schema[i] == Varchar ==> WordRight(b, schema, vals, i)
  }

  lemma {:induction false} ReadsWhenRight(b: seq<byte>, schema: Schema, vals: seq<Value>, i: nat)
    requires Exceptional(b, schema, vals) && AllWordsRight(b, schema, vals) && i < |schema|
    ensures ReadColumn(b, schema, 4, i) == AsGot(vals[i])
  {
    if schema[i] == Varchar {
      hide ReadColumn;
      hide WordAt;
      ExceptionalRead(b, schema, vals, i);
      BodyEnd(b, schema, vals, i);
      assert WordRight(b, schema, vals, i);
      var j := NextString(schema, i);
      assert j < |schema| ==> WordRight(b, schema, vals, j);
    } else {
      OtherColumnReads(b, schema, 3, 4, vals, i);
    }
  }

  /** The whole row reads back iff the row view finds the right word for every string. */
  lemma {:induction false} WordsDecide(b: seq<byte>, schema: Schema, vals: seq<Value>)
    requires Exceptional(b, schema, vals)
    ensures ReadsAll(b, schema, 4, vals) <==> AllWordsRight(b, schema, vals)
  {
    hide ReadColumn;
    hide WordRight;
    if ReadsAll(b, schema, 4, vals) {
      forall i | 0 <= i < |schema| && schema[i] == Varchar ensures WordRight(b, schema, vals, i) {
        WordsAreRight(b, schema, vals, i);
      }
    }
    if AllWordsRight(b, schema, vals) {
      forall i | 0 <= i < |schema| ensures ReadColumn(b, schema, 4, i) == AsGot(vals[i]) {
        ReadsWhenRight(b, schema, vals, i);
      }
    }
  }

  // ----- the words, byte by byte -----

  /** The column of string number `k`. */
  function StrCol(schema: Schema, k: nat, n: nat): (i: nat)
    requires n <= |schema| && k < StrIndex(schema, n)
    ensures i < n && schema[i] == Varchar && StrIndex(schema, i) == k
  {
    if schema[n - 1] == Varchar && StrIndex(schema, n - 1) == k then n - 1 else StrCol(schema, k, n - 1)
  }

  /** Where the body of string number `k` starts. */
  function Start(schema: Schema, vals: seq<Value>, k: nat): nat
    requires |vals| == |schema| && k < StrCount(schema)
  {
    BodyOffset(schema, 3, vals, StrCol(schema, k, |schema|))
  }

  lemma {:induction false} SameIndexSameColumn(schema: Schema, i: nat, j: nat)
    requires i < |schema| && j < |schema| && schema[i] == schema[j] == Varchar && StrIndex(schema, i) == StrIndex(schema, j)
    ensures i == j
  {
    if i < j { PlacesDisjoint(schema, i, j); } else if j < i { PlacesDisjoint(schema, j, i); }
  }

  /** Words by string number. */
  ghost predicate WordRightAt(b: seq<byte>, schema: Schema, vals: seq<Value>, k: nat)
    requires Exceptional(b, schema, vals) && k < StrCount(schema)
  {
    WordRight(b, schema, vals, StrCol(schema, k, |schema|))
  }

  lemma {:induction false} WordsByNumber(b: seq<byte>, schema: Schema, vals: seq<Value>)
    requires Exceptional(b, schema, vals)
    ensures AllWordsRight(b, schema, vals) <==> forall k :: 0 <= k < StrCount(schema) ==> WordRightAt(b, schema, vals, k)
  {
    hide WordRight;
    hide Exceptional;
    if forall k :: 0 <= k < StrCount(schema) ==> WordRightAt(b, schema, vals, k) {
      forall i | 0 <= i < |schema| && schema[i] == Varchar ensures WordRight(b, schema, vals, i) {
        PlaceInside(schema, i);
        var k := StrIndex(schema, i);
        assert WordRightAt(b, schema, vals, k);
        SameIndexSameColumn(schema, i, StrCol(schema, k, |schema|));
      }
    }
  }

  /** The row's bytes from the first slot on. */
  function ByteAt(b: seq<byte>, schema: Schema, q: nat): int {
    if StrStart(schema) + q < |b| then b[StrStart(schema) + q] else 0
  }

  lemma {:induction false} FourBytes(s: seq<byte>)
    requires |s| == 4
    ensures FromLE(s) == s[0] as int + 0x100 * (s[1] as int) + 0x1_0000 * (s[2] as int) + 0x100_0000 * (s[3] as int)
  {
    assert s[1..][1..] == s[2..] && s[2..][1..] == s[3..] && s[3..][1..] == s[4..];
    assert FromLE(s[4..]) == 0;
    assert FromLE(s[3..]) == s[3];
    assert FromLE(s[2..]) == s[2] + 256 * FromLE(s[3..]);
    assert FromLE(s[1..]) == s[1] + 256 * FromLE(s[2..]);
  }

  lemma {:induction false} WordOfBytes(b: seq<byte>, schema: Schema, vals: seq<Value>, k: nat)
    requires Exceptional(b, schema, vals) && k < StrCount(schema)
    ensures |vals| == |schema|
    ensures WordRightAt(b, schema, vals, k) <==>
              ByteAt(b, schema, 4 * k) + 0x100 * ByteAt(b, schema, 4 * k + 1) + 0x1_0000 * ByteAt(b, schema, 4 * k + 2)
              + 0x100_0000 * ByteAt(b, schema, 4 * k + 3) == Start(schema, vals, k)
  {
    var i := StrCol(schema, k, |schema|);
    SlotInside(schema, 4, i, |schema|);
    SlotsIsProduct(4, k);
    var p := SlotOffset(schema, 4, i);
    FourBytes(b[p..p + 4]);
  }

  /** The three bytes of an offset, most significant first; 2^24 is cut to zero. */
  function Hi(o: nat): nat { o / 0x1_0000 % 0x100 }
  function Mid(o: nat): nat { o % 0x1_0000 / 0x100 }
  function Lo(o: nat): nat { o % 0x100 }

  lemma {:induction false} SlotBytesOf(b: seq<byte>, schema: Schema, vals: seq<Value>, k: nat)
    requires Exceptional(b, schema, vals) && k < StrCount(schema)
    ensures |vals| == |schema|
    ensures var o := Start(schema, vals, k);
            && ByteAt(b, schema, 3 * k) == Hi(o) && ByteAt(b, schema, 3 * k + 1) == Mid(o)
            && ByteAt(b, schema, 3 * k + 2) == Lo(o)
            && BodyStart(schema, 3) <= o <= TWO24
  {
    var i := StrCol(schema, k, |schema|);
    assert ColumnHolds(b, schema, 3, vals, i);
    SlotInside(schema, 3, i, |schema|);
    SlotsIsProduct(3, k);
    var o, p := Start(schema, vals, k), SlotOffset(schema, 3, i);
    ThreeBytes(o);
    StrBytesGrow(vals, i, |vals|);
    assert b[p] == b[p..p + 3][0] && b[p + 1] == b[p..p + 3][1] && b[p + 2] == b[p..p + 3][2];
  }

  /** All bodies of a row, one after the other. */
  function Bodies(vals: seq<Value>, n: nat): (s: seq<byte>)
    requires n <= |vals|
    ensures |s| == StrBytes(vals, n)
  {
    if n == 0 then [] else Bodies(vals, n - 1) + if vals[n - 1].VString? then vals[n - 1].s else []
  }

  lemma {:induction false} BodiesInPlace(b: seq<byte>, schema: Schema, vals: seq<Value>, n: nat)
    requires Finished(b, schema, 3, vals) && n <= |vals|
    ensures BodyOffset(schema, 3, vals, n) <= |b|
    ensures b[BodyStart(schema, 3)..BodyOffset(schema, 3, vals, n)] == Bodies(vals, n)
  {
    StrBytesGrow(vals, n, |vals|);
    if n > 0 {
      BodiesInPlace(b, schema, vals, n - 1);
      BodyOf(b, schema, vals, n - 1);
      hide Finished;
      JoinSlices(b, BodyStart(schema, 3), BodyOffset(schema, 3, vals, n - 1), BodyOffset(schema, 3, vals, n));
    }
  }

  lemma {:induction false} JoinSlices(b: seq<byte>, lo: nat, mid: nat, hi: nat)
    requires lo <= mid <= hi <= |b|
    ensures b[lo..hi] == b[lo..mid] + b[mid..hi]
  {
  }

  lemma {:induction false} BodyOf(b: seq<byte>, schema: Schema, vals: seq<Value>, i: nat)
    requires Finished(b, schema, 3, vals) && i < |vals|
    ensures BodyOffset(schema, 3, vals, i) <= BodyOffset(schema, 3, vals, i + 1) <= |b|
    ensures b[BodyOffset(schema, 3, vals, i)..BodyOffset(schema, 3, vals, i + 1)] == if vals[i].VString? then vals[i].s else []
  {
    StrBytesGrow(vals, i + 1, |vals|);
    assert ColumnHolds(b, schema, 3, vals, i);
  }

  /** After the slots come the bodies. */
  lemma {:induction false} BodyBytesOf(b: seq<byte>, schema: Schema, vals: seq<Value>, t: nat)
    requires Exceptional(b, schema, vals) && t < StrCount(schema)
    ensures |vals| == |schema| && |Bodies(vals, |vals|)| >= StrCount(schema)
    ensures ByteAt(b, schema, 3 * StrCount(schema) + t) == Bodies(vals, |vals|)[t]
  {
    BodiesInPlace(b, schema, vals, |vals|);
    SlotsIsProduct(3, StrCount(schema));
    SlotsIsProduct(4, StrCount(schema));
    var lo := BodyStart(schema, 3);
    assert b[lo + t] == b[lo..|b|][t];
  }

  lemma {:induction false} StartsGrow(schema: Schema, vals: seq<Value>, k: nat, l: nat)
    requires |vals| == |schema| && k <= l < StrCount(schema)
    ensures Start(schema, vals, k) <= Start(schema, vals, l)
  {
    var i, j := StrCol(schema, k, |schema|), StrCol(schema, l, |schema|);
    if j < i { FieldsGrow(schema, j + 1, i); }
    StrBytesGrow(vals, if i <= j then i else j, j);
  }

  lemma {:induction false} FirstStart(schema: Schema, vals: seq<Value>)
    requires Fitting(schema, vals) && |vals| == |schema| && StrCount(schema) > 0
    ensures Start(schema, vals, 0) == BodyStart(schema, 3)
  {
    NoStringsNoBytes(schema, vals, StrCol(schema, 0, |schema|));
  }

  // ----- which rows survive -----

  /**
   The rows of 2^24 bytes without NULL strings that the row view reads right: there are at most three
   strings, their starts spell themselves when read across the slots, and the bodies begin with the
   bytes that complete the last word.
   */
  predicate Survives(schema: Schema, vals: seq<Value>)
    requires |vals| == |schema| && |Bodies(vals, |vals|)| >= StrCount(schema)
  {
    var n, x := StrCount(schema), Bodies(vals, |vals|);
    if n == 0 then true
    else
      var o := Start(schema, vals, 0);
      if n == 1 then o / 0x1_0000 == o % 0x100 && x[0] == 0
      else
        var p := Start(schema, vals, 1);
        if n == 2 then
          || (p < 0x1_0000 && o % 0x100 == 0 && p / 0x100 == p % 0x100 && x[0] == 0 && x[1] == 0)
          || (p == TWO24 && o / 0x1_0000 == o % 0x100 && x[0] == 0 && x[1] == 1)
        else
          && n == 3 && Start(schema, vals, 2) == TWO24
          && p < 0x1_0000 && o % 0x100 == 0 && p / 0x100 == p % 0x100 && x[0] == 0 && x[1] == 0 && x[2] == 1
  }

  lemma {:induction false} SplitOffset(o: nat)
    requires o < TWO24
    ensures o == 0x1_0000 * Hi(o) + 0x100 * Mid(o) + Lo(o) && Hi(o) == o / 0x1_0000
    ensures Hi(o) < 0x100 && Mid(o) < 0x100 && Lo(o) < 0x100
    ensures o < 0x1_0000 <==> Hi(o) == 0
    ensures o < 0x1_0000 ==> Mid(o) == o / 0x100
  {
  }

  /** A word made of the three bytes of an offset and one more byte. */
  lemma {:induction false} OwnWord(o: nat, x: nat)
    requires o < TWO24
    ensures Hi(o) + 0x100 * Mid(o) + 0x1_0000 * Lo(o) + 0x100_0000 * x == o <==> x == 0 && o / 0x1_0000 == o % 0x100
  {
    SplitOffset(o);
  }

  /** A word made of the last two bytes of an offset and two more bytes. */
  lemma {:induction false} NextWord(p: nat, x: nat, y: nat)
    requires p < 0x1_0000 && x < 0x100 && y < 0x100
    ensures Mid(p) + 0x100 * Lo(p) + 0x1_0000 * x + 0x100_0000 * y == p <==> x == 0 && y == 0 && p / 0x100 == p % 0x100
  {
    SplitOffset(p);
  }

  lemma {:induction false} CutOffset()
    ensures Hi(TWO24) == Mid(TWO24) == Lo(TWO24) == 0
  {
  }

  lemma {:induction false} OneString(b: seq<byte>, schema: Schema, vals: seq<Value>)
    requires Exceptional(b, schema, vals) && StrCount(schema) == 1
    ensures |Bodies(vals, |vals|)| >= 1
    ensures WordRightAt(b, schema, vals, 0) <==> Survives(schema, vals)
  {
    hide StrIndex;
    hide Bodies;
    hide Exceptional;
    BodyBytesOf(b, schema, vals, 0);
    SlotBytesOf(b, schema, vals, 0);
    WordOfBytes(b, schema, vals, 0);
    RoomBehind(b, schema, vals);
    hide Start;
    hide ByteAt;
    hide WordRightAt;
    OwnWord(Start(schema, vals, 0), Bodies(vals, |vals|)[0]);
  }

  lemma {:induction false} RoomBehind(b: seq<byte>, schema: Schema, vals: seq<Value>)
    requires Exceptional(b, schema, vals) && StrCount(schema) > 0
    ensures |vals| == |schema| && 0 < Start(schema, vals, 0) < TWO24
  {
    FirstStart(schema, vals);
    SlotsIsProduct(3, StrCount(schema));
    SlotsIsProduct(4, StrCount(schema));
  }

  /** The first word of two or more strings. */
  lemma {:induction false} FirstWord(b: seq<byte>, schema: Schema, vals: seq<Value>)
    requires Exceptional(b, schema, vals) && StrCount(schema) >= 2
    ensures |vals| == |schema|
    ensures var o, p := Start(schema, vals, 0), Start(schema, vals, 1);
            && 0 < o < TWO24 && o <= p <= TWO24
            && (WordRightAt(b, schema, vals, 0) <==> (p < 0x1_0000 || p == TWO24) && o / 0x1_0000 == o % 0x100)
  {
    hide StrIndex;
    hide Bodies;
    hide Exceptional;
    SlotBytesOf(b, schema, vals, 0);
    SlotBytesOf(b, schema, vals, 1);
    WordOfBytes(b, schema, vals, 0);
    RoomBehind(b, schema, vals);
    StartsGrow(schema, vals, 0, 1);
    hide Start;
    hide ByteAt;
    hide WordRightAt;
    OwnWord(Start(schema, vals, 0), Hi(Start(schema, vals, 1)));
    if Start(schema, vals, 1) < TWO24 { SplitOffset(Start(schema, vals, 1)); } else { CutOffset(); }
  }

  lemma {:induction false} TwoStrings(b: seq<byte>, schema: Schema, vals: seq<Value>)
    requires Exceptional(b, schema, vals) && StrCount(schema) == 2
    ensures |Bodies(vals, |vals|)| >= 2
    ensures WordRightAt(b, schema, vals, 0) && WordRightAt(b, schema, vals, 1) <==> Survives(schema, vals)
  {
    hide StrIndex;
    hide Bodies;
    hide Exceptional;
    BodyBytesOf(b, schema, vals, 0);
    BodyBytesOf(b, schema, vals, 1);
    SlotBytesOf(b, schema, vals, 1);
    WordOfBytes(b, schema, vals, 1);
    FirstWord(b, schema, vals);
    hide Start;
    hide ByteAt;
    hide WordRightAt;
    var o, p, x := Start(schema, vals, 0), Start(schema, vals, 1), Bodies(vals, |vals|);
    hide Bodies;
    if p < 0x1_0000 {
      NextWord(p, x[0], x[1]);
    } else if p == TWO24 {
      CutOffset();
    }
  }

  /** With three or more strings the first two words leave one possibility: all strings from the third on are empty. */
  lemma {:induction false} SecondWord(b: seq<byte>, schema: Schema, vals: seq<Value>)
    requires Exceptional(b, schema, vals) && StrCount(schema) >= 3
    ensures |vals| == |schema|
    ensures var o, p, q := Start(schema, vals, 0), Start(schema, vals, 1), Start(schema, vals, 2);
            && q <= TWO24
            && (WordRightAt(b, schema, vals, 0) && WordRightAt(b, schema, vals, 1) <==>
                q == TWO24 && p < 0x1_0000 && o % 0x100 == 0 && p / 0x100 == p % 0x100)
  {
    hide StrIndex;
    hide Bodies;
    hide Exceptional;
    SlotBytesOf(b, schema, vals, 1);
    SlotBytesOf(b, schema, vals, 2);
    WordOfBytes(b, schema, vals, 1);
    FirstWord(b, schema, vals);
    StartsGrow(schema, vals, 1, 2);
    hide Start;
    hide ByteAt;
    hide WordRightAt;
    SecondWordSpells(Start(schema, vals, 0), Start(schema, vals, 1), Start(schema, vals, 2));
  }

  lemma {:induction false} SecondWordSpells(o: nat, p: nat, q: nat)
    requires 0 < o <= p <= q <= TWO24 && o < TWO24
    ensures (p < 0x1_0000 || p == TWO24) && o / 0x1_0000 == o % 0x100
            && Mid(p) + 0x100 * Lo(p) + 0x1_0000 * Hi(q) + 0x100_0000 * Mid(q) == p
       <==> q == TWO24 && p < 0x1_0000 && o % 0x100 == 0 && p / 0x100 == p % 0x100
  {
    CutOffset();
    if q < TWO24 { SplitOffset(q); }
    if p < 0x1_0000 {
      NextWord(p, Hi(q), Mid(q));
    }
  }

  lemma {:induction false} ThreeStrings(b: seq<byte>, schema: Schema, vals: seq<Value>)
    requires Exceptional(b, schema, vals) && StrCount(schema) == 3
    ensures |Bodies(vals, |vals|)| >= 3
    ensures WordRightAt(b, schema, vals, 0) && WordRightAt(b, schema, vals, 1) && WordRightAt(b, schema, vals, 2)
       <==> Survives(schema, vals)
  {
    hide StrIndex;
    hide Bodies;
    hide Exceptional;
    BodyBytesOf(b, schema, vals, 0);
    BodyBytesOf(b, schema, vals, 1);
    BodyBytesOf(b, schema, vals, 2);
    SlotBytesOf(b, schema, vals, 2);
    WordOfBytes(b, schema, vals, 2);
    SecondWord(b, schema, vals);
    hide Start;
    hide ByteAt;
    hide WordRightAt;
    hide Bodies;
    CutOffset();
  }

  lemma {:induction false} ManyStrings(b: seq<byte>, schema: Schema, vals: seq<Value>)
    requires Exceptional(b, schema, vals) && StrCount(schema) >= 4
    ensures !(WordRightAt(b, schema, vals, 0) && WordRightAt(b, schema, vals, 1) && WordRightAt(b, schema, vals, 2))
  {
    hide StrIndex;
    hide Bodies;
    hide Exceptional;
    SlotBytesOf(b, schema, vals, 2);
    SlotBytesOf(b, schema, vals, 3);
    WordOfBytes(b, schema, vals, 2);
    SecondWord(b, schema, vals);
    StartsGrow(schema, vals, 2, 3);
    hide Start;
    hide ByteAt;
    hide WordRightAt;
    CutOffset();
  }

  /** A row of 2^24 bytes without NULL strings: the row view reads the whole row right if and only if it survives. */
  lemma {:induction false} RowViewAtTheException(b: seq<byte>, schema: Schema, vals: seq<Value>)
    requires Exceptional(b, schema, vals)
    ensures |Bodies(vals, |vals|)| >= StrCount(schema)
    ensures ReadsAll(b, schema, 4, vals) <==> Survives(schema, vals)
  {
    hide ReadsAll;
    hide AllWordsRight;
    hide WordRightAt;
    hide Survives;
    WordsDecide(b, schema, vals);
    WordsByNumber(b, schema, vals);
    NumbersSurvive(b, schema, vals);
  }

  lemma {:induction false} NumbersSurvive(b: seq<byte>, schema: Schema, vals: seq<Value>)
    requires Exceptional(b, schema, vals)
    ensures |vals| == |schema| && |Bodies(vals, |vals|)| >= StrCount(schema)
    ensures (forall k :: 0 <= k < StrCount(schema) ==> WordRightAt(b, schema, vals, k)) <==> Survives(schema, vals)
  {
    hide WordRightAt;
    hide Start;
    hide Bodies;
    hide StrIndex;
    var n := StrCount(schema);
    assert |vals| == |schema|;
    hide Exceptional;
    if n == 0 {
    } else if n == 1 {
      OneString(b, schema, vals);
    } else if n == 2 {
      TwoStrings(b, schema, vals);
    } else if n == 3 {
      ThreeStrings(b, schema, vals);
    } else {
      BodyBytesOf(b, schema, vals, 0);
      ManyStrings(b, schema, vals);
    }
  }

  /** For one string that is: its start spells itself, and it begins with a zero byte. */
  lemma {:induction false} OneStringAtTheException(b: seq<byte>, schema: Schema, vals: seq<Value>, j: nat)
    requires Exceptional(b, schema, vals) && StrCount(schema) == 1 && j < |schema| && schema[j] == Varchar
    ensures vals[j].VString?
    ensures var o, s := StrStart(schema) + 3, vals[j].s;
            ReadColumn(b, schema, 4, j) == AsGot(vals[j]) <==> o / 0x1_0000 == o % 0x100 && |s| > 0 && s[0] == 0
  {
    ExceptionalRead(b, schema, vals, j);
    WordsDecide(b, schema, vals);
    RowViewAtTheException(b, schema, vals);
    OnlyString(b, schema, vals, j);
    forall i | 0 <= i < |schema| && i != j ensures ReadColumn(b, schema, 4, i) == AsGot(vals[i]) {
      if schema[i] == Varchar { PlaceInside(schema, i); PlaceInside(schema, j); SameIndexSameColumn(schema, i, j); }
      OtherColumnReads(b, schema, 3, 4, vals, i);
    }
    assert ReadsAll(b, schema, 4, vals) <==> ReadColumn(b, schema, 4, j) == AsGot(vals[j]);
  }

  lemma {:induction false} OnlyString(b: seq<byte>, schema: Schema, vals: seq<Value>, j: nat)
    requires Exceptional(b, schema, vals) && StrCount(schema) == 1 && j < |schema| && schema[j] == Varchar
    ensures Start(schema, vals, 0) == StrStart(schema) + 3
    ensures vals[j].VString? && Bodies(vals, |vals|) == vals[j].s && |vals[j].s| > 0
  {
    FirstStart(schema, vals);
    SlotsIsProduct(3, 1);
    BodyEnd(b, schema, vals, j);
    BodiesInPlace(b, schema, vals, |vals|);
    PlaceInside(schema, j);
    SameIndexSameColumn(schema, j, StrCol(schema, 0, |schema|));
    BodyBytesOf(b, schema, vals, 0);
    SlotOfNext(schema, j);
    assert b[BodyStart(schema, 3)..|b|] == vals[j].s;
  }

  /** Whatever its size, the row view reads an emitted row without NULL strings right iff it has not 2^24 bytes or survives. */
  lemma {:induction false} RowViewReadsNativeRow(b: seq<byte>, schema: Schema, vals: seq<Value>)
    requires Supported(schema) && |b| < TWO31 && Finished(b, schema, SlotWidth(schema, |b|), vals)
    requires |b| == TWO24 ==> NoNullStrings(schema, vals) && |b| >= BodyStart(schema, 4)
    ensures |b| >= BodyStart(schema, AddrLength(|b|))
    ensures |b| == TWO24 ==> |Bodies(vals, |vals|)| >= StrCount(schema)
    ensures ReadsAll(b, schema, AddrLength(|b|), vals) <==> |b| != TWO24 || Survives(schema, vals)
  {
    if |b| == TWO24 && StrCount(schema) > 0 {
      RowViewAtTheException(b, schema, vals);
    } else {
      hide ReadColumn;
      NativeRowIsEncoded(b, schema, vals);
      forall i | 0 <= i < |schema| ensures ReadColumn(b, schema, AddrLength(|b|), i) == AsGot(vals[i]) {
        RowReadsBack(b, schema, vals, i);
      }
    }
  }
}
