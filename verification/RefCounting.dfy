/**
 `RefCountedSlice`: handles on buffers, managed ones through a shared counter.  The heap object
 holds every live handle and counter, so that what each operation keeps holds in every run.
 */
module RefCounting {
  import opened Common

  /** A handle: the buffer it points at, its size, and its counter if it is managed. */
  datatype Handle = Handle(buf: nat, size: nat, refCnt: Option<nat>)

  /** A counter and the buffer that goes with it. */
  datatype Counter = Counter(cnt: int, buf: nat)

  // ----- counting handles -----

  ghost function Holders(handles: map<nat, Handle>, c: nat): set<nat> {
    set h | h in handles && handles[h].refCnt == Some(c)
  }

  lemma {:induction false} AddHolder(handles: map<nat, Handle>, h: nat, v: Handle, c: nat)
    requires h !in handles
    ensures |Holders(handles[h := v], c)| == |Holders(handles, c)| + if v.refCnt == Some(c) then 1 else 0
  {
    var before, after := Holders(handles, c), Holders(handles[h := v], c);
    assert after == before + if v.refCnt == Some(c) then {h} else {};
  }

  lemma {:induction false} RemoveHolder(handles: map<nat, Handle>, h: nat, c: nat)
    requires h in handles
    ensures |Holders(handles - {h}, c)| == |Holders(handles, c)| - if handles[h].refCnt == Some(c) then 1 else 0
  {
    var before, after := Holders(handles, c), Holders(handles - {h}, c);
    if handles[h].refCnt == Some(c) {
      assert before == after + {h} && h !in after;
    } else {
      assert before == after;
    }
  }

  /** Each count is the number of handles on its counter, and handles point at live counters. */
  ghost predicate CountsRight(hs: map<nat, Handle>, counters: map<nat, Counter>) {
    && (forall c :: c in counters ==> counters[c].cnt == |Holders(hs, c)| >= 1)
    && (forall h :: h in hs && hs[h].refCnt.Some? ==>
          hs[h].refCnt.value in counters && hs[h].buf == counters[hs[h].refCnt.value].buf)
  }

  ghost predicate Live(counters: map<nat, Counter>, b: nat) {
    exists c :: c in counters && counters[c].buf == b
  }

  /** Every managed buffer either has one counter or has been freed once. */
  ghost predicate BuffersRight(counters: map<nat, Counter>, freed: seq<nat>, managed: set<nat>) {
    && (forall c, d :: c in counters && d in counters && c != d ==> counters[c].buf != counters[d].buf)
    && (forall i, j :: 0 <= i < j < |freed| ==> freed[i] != freed[j])
    && (forall b :: b in managed <==> b in freed || Live(counters, b))
    && (forall b :: b in freed ==> !Live(counters, b))
  }

  lemma {:induction false} FreeBuffer(counters: map<nat, Counter>, freed: seq<nat>, managed: set<nat>, c: nat)
    requires BuffersRight(counters, freed, managed) && c in counters
    ensures BuffersRight(counters - {c}, freed + [counters[c].buf], managed)
  {
    var b, rest := counters[c].buf, counters - {c};
    assert Live(counters, b);
    forall x ensures Live(counters, x) <==> x == b || Live(rest, x) {
      if Live(counters, x) {
        var d :| d in counters && counters[d].buf == x;
        if d != c { assert d in rest && rest[d].buf == x; }
      }
      if Live(rest, x) {
        var d :| d in rest && rest[d].buf == x;
        assert d in counters && counters[d].buf == x;
      }
    }
    assert !Live(rest, b);
  }

  lemma {:induction false} Recount(counters: map<nat, Counter>, freed: seq<nat>, managed: set<nat>, c: nat, n: int)
    requires BuffersRight(counters, freed, managed) && c in counters
    ensures BuffersRight(counters[c := Counter(n, counters[c].buf)], freed, managed)
  {
    var after := counters[c := Counter(n, counters[c].buf)];
    forall x ensures Live(counters, x) <==> Live(after, x) {
      if Live(counters, x) {
        var d :| d in counters && counters[d].buf == x;
        assert d in after && after[d].buf == x;
      }
    }
  }

  lemma {:induction false} DropReference(hs: map<nat, Handle>, counters: map<nat, Counter>, h: nat)
    requires CountsRight(hs, counters) && h in hs
    ensures hs[h].refCnt.None? ==> CountsRight(hs - {h}, counters)
    ensures hs[h].refCnt.Some? ==>
              var c := hs[h].refCnt.value; var n := counters[c].cnt - 1;
              && (n == 0 <==> Holders(hs, c) == {h})
              && CountsRight(hs - {h}, if n == 0 then counters - {c} else counters[c := Counter(n, counters[c].buf)])
  {
    forall c | c in counters
      ensures |Holders(hs - {h}, c)| == |Holders(hs, c)| - if hs[h].refCnt == Some(c) then 1 else 0
    {
      RemoveHolder(hs, h, c);
    }
    if hs[h].refCnt.Some? {
      var c := hs[h].refCnt.value;
      assert h in Holders(hs, c);
      if |Holders(hs, c)| == 1 { OnlyOne(Holders(hs, c), h); }
    }
  }

  lemma {:induction false} OnlyOne(s: set<nat>, h: nat)
    requires h in s && |s| == 1
    ensures s == {h}
  {
    assert |s - {h}| == 0;
  }

  lemma {:induction false} AddReference(hs: map<nat, Handle>, counters: map<nat, Counter>, h: nat, src: nat)
    requires CountsRight(hs, counters) && h !in hs && src in hs
    ensures hs[src].refCnt.None? ==> CountsRight(hs[h := hs[src]], counters)
    ensures hs[src].refCnt.Some? ==>
              var c := hs[src].refCnt.value;
              CountsRight(hs[h := hs[src]], counters[c := Counter(counters[c].cnt + 1, counters[c].buf)])
  {
    var v := hs[src];
    forall c | c in counters
      ensures |Holders(hs[h := v], c)| == |Holders(hs, c)| + if v.refCnt == Some(c) then 1 else 0
    {
      AddHolder(hs, h, v, c);
    }
  }

  lemma {:induction false} NewCounter(hs: map<nat, Handle>, counters: map<nat, Counter>, h: nat, c: nat, v: Handle)
    requires CountsRight(hs, counters) && h !in hs && c !in counters && v.refCnt == Some(c)
    ensures CountsRight(hs[h := v], counters[c := Counter(1, v.buf)])
  {
    assert Holders(hs, c) == {};
    forall d ensures |Holders(hs[h := v], d)| == |Holders(hs, d)| + if d == c then 1 else 0 {
      AddHolder(hs, h, v, d);
    }
  }

  lemma {:induction false} NewBuffer(counters: map<nat, Counter>, freed: seq<nat>, managed: set<nat>, c: nat, buf: nat)
    requires BuffersRight(counters, freed, managed) && c !in counters && buf !in managed
    ensures BuffersRight(counters[c := Counter(1, buf)], freed, managed + {buf})
  {
    var after := counters[c := Counter(1, buf)];
    forall x ensures Live(after, x) <==> x == buf || Live(counters, x) {
      if x == buf { assert c in after && after[c].buf == x; }
      if Live(counters, x) {
        var d :| d in counters && counters[d].buf == x;
        assert d in after && after[d].buf == x;
      }
    }
    forall d | d in counters ensures counters[d].buf != buf { assert Live(counters, counters[d].buf); }
  }

  class SliceHeap {
    var handles: map<nat, Handle>
    var counters: map<nat, Counter>
    /** Buffers released with `free`, in order. */
    var freed: seq<nat>
    /** Every buffer ever put under management. */
    ghost var managed: set<nat>

    /** Each count is the number of live handles; each managed buffer is live or freed, and freed once. */
    ghost predicate Valid()
      reads this
    {
      CountsRight(handles, counters) && BuffersRight(counters, freed, managed)
    }

    /** Whether `h` is the only handle on its managed buffer. */
    ghost predicate LastHolder(h: nat)
      requires h in handles
      reads this
    {
      handles[h].refCnt.Some? && Holders(handles, handles[h].refCnt.value) == {h}
    }

    constructor ()
      ensures Valid() && handles == map[] && freed == [] && managed == {}
    {
      handles, counters, freed, managed := map[], map[], [], {};
    }

    /** `Create`: a handle without ownership. */
    method Create(h: nat, buf: nat, size: nat)
      requires Valid() && h !in handles
      modifies this
      ensures Valid() && handles == old(handles)[h := Handle(buf, size, None)]
      ensures counters == old(counters) && freed == old(freed) && managed == old(managed)
    {
      forall c | c in counters ensures |Holders(handles[h := Handle(buf, size, None)], c)| == |Holders(handles, c)| {
        AddHolder(handles, h, Handle(buf, size, None), c);
      }
      handles := handles[h := Handle(buf, size, None)];
    }

    /** `CreateManaged`: takes over a buffer that nobody manages yet, with a new counter `c` at one. */
    method CreateManaged(h: nat, c: nat, buf: nat, size: nat)
      requires Valid() && h !in handles && c !in counters && buf !in managed
      modifies this
      ensures Valid() && handles == old(handles)[h := Handle(buf, size, Some(c))]
      ensures counters == old(counters)[c := Counter(1, buf)]
      ensures freed == old(freed) && managed == old(managed) + {buf}
    {
      NewCounter(handles, counters, h, c, Handle(buf, size, Some(c)));
      NewBuffer(counters, freed, managed, c, buf);
      handles := handles[h := Handle(buf, size, Some(c))];
      counters := counters[c := Counter(1, buf)];
      managed := managed + {buf};
    }

    /** `Release`: drops the handle's reference; the handle itself is left dangling. */
    method Release(h: nat)
      requires Valid() && h in handles
      modifies this`counters, this`freed
      ensures CountsRight(handles - {h}, counters) && BuffersRight(counters, freed, managed)
      ensures freed == old(freed) + if old(LastHolder(h)) then [handles[h].buf] else []
    {
      hide BuffersRight;
      DropReference(handles, counters, h);
      var slot := handles[h].refCnt;
      if slot.Some? {
        var c := slot.value;
        var cnt := counters[c].cnt - 1;
        if cnt == 0 {
          FreeBuffer(counters, freed, managed, c);
          freed := freed + [handles[h].buf];
          counters := counters - {c};
        } else {
          Recount(counters, freed, managed, c, cnt);
          counters := counters[c := Counter(cnt, counters[c].buf)];
        }
      }
    }

    /** `Update`: the handle takes over the other's fields and counts one more. */
    method Update(h: nat, src: nat)
      requires h != src && src in handles
      requires CountsRight(handles - {h}, counters) && BuffersRight(counters, freed, managed)
      modifies this`handles, this`counters
      ensures Valid() && handles == old(handles)[h := old(handles)[src]]
    {
      hide BuffersRight;
      ghost var others := handles - {h};
      var v := handles[src];
      AddReference(others, counters, h, src);
      assert handles[h := v] == others[h := v] && others[src] == v;
      handles := handles[h := v];
      if v.refCnt.Some? {
        var c := v.refCnt.value;
        Recount(counters, freed, managed, c, counters[c].cnt + 1);
        counters := counters[c := Counter(counters[c].cnt + 1, counters[c].buf)];
      }
    }

    /** The destructor: the buffer is freed exactly when its last handle goes. */
    method Destroy(h: nat)
      requires Valid() && h in handles
      modifies this
      ensures Valid() && handles == old(handles) - {h}
      ensures freed == old(freed) + if old(LastHolder(h)) then [old(handles)[h].buf] else []
      ensures managed == old(managed)
    {
      Release(h);
      handles := handles - {h};
    }

    /** The copy constructor, and the move constructor, which copies as well. */
    method Copy(h: nat, src: nat)
      requires Valid() && h !in handles && src in handles
      modifies this
      ensures Valid() && handles == old(handles)[h := old(handles)[src]]
      ensures freed == old(freed) && managed == old(managed)
    {
      assert handles - {h} == handles;
      Update(h, src);
    }

    /** Assignment, copying or moving: nothing happens to a handle assigned to itself. */
    method Assign(h: nat, src: nat)
      requires Valid() && h in handles && src in handles
      modifies this
      ensures Valid() && handles == old(handles)[h := old(handles)[src]]
      ensures freed == old(freed) + if h != src && old(LastHolder(h)) then [old(handles)[h].buf] else []
      ensures managed == old(managed)
    {
      if src == h {
        return;
      }
      Release(h);
      Update(h, src);
    }

    /** A buffer shared by both sides of an assignment survives it. */
    lemma {:induction false} SharedBufferSurvives(h: nat, src: nat)
      requires Valid() && h in handles && src in handles && h != src && handles[h].refCnt == handles[src].refCnt
      ensures !LastHolder(h)
    {
      if handles[h].refCnt.Some? {
        assert src in Holders(handles, handles[h].refCnt.value);
      }
    }

    /** A buffer that some handle manages has not been freed; without handles, every managed buffer has. */
    lemma {:induction false} NoUseAfterFreeNoLeak()
      requires Valid()
      ensures forall h :: h in handles && handles[h].refCnt.Some? ==> handles[h].buf in managed && handles[h].buf !in freed
      ensures (forall h :: h in handles ==> handles[h].refCnt.None?) ==> forall b :: b in managed ==> b in freed
    {
      if forall h :: h in handles ==> handles[h].refCnt.None? {
        assert forall c :: Holders(handles, c) == {};
      }
    }
  }
}
