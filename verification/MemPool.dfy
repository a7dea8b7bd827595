/**
 `ByteMemoryPool`: a bump allocator over a list of chunks, newest first.
 */
module MemPool {

  const DEFAULT_CHUNK_SIZE := 4096

  class MemoryChunk {
    const next: MemoryChunk?
    const chunkSize: nat
    var allocatedSize: nat
    /** The number of chunks behind this one. */
    ghost const depth: nat

    constructor (next: MemoryChunk?, requestSize: nat)
      ensures this.next == next && allocatedSize == 0
      ensures chunkSize == if requestSize > 4096 then requestSize else 4096
      ensures depth == if next == null then 0 else next.depth + 1
    {
      this.next := next;
      chunkSize := if requestSize > DEFAULT_CHUNK_SIZE then requestSize else DEFAULT_CHUNK_SIZE;
      allocatedSize := 0;
      depth := if next == null then 0 else next.depth + 1;
    }

    /** The offset of the new region, or nothing if it does not fit. */
    method Alloc(requestSize: nat) returns (ok: bool, offset: nat)
      requires allocatedSize <= chunkSize
      modifies this
      ensures allocatedSize <= chunkSize
      ensures ok <==> requestSize <= chunkSize - old(allocatedSize)
      ensures ok ==> offset == old(allocatedSize) && allocatedSize == offset + requestSize
      ensures !ok ==> allocatedSize == old(allocatedSize)
    {
      if requestSize > chunkSize - allocatedSize {
        return false, 0;
      }
      offset := allocatedSize;
      allocatedSize := allocatedSize + requestSize;
      ok := true;
    }
  }

  /** Bytes handed out: `size` bytes of a chunk from `offset` on. */
  datatype Region = Region(chunk: MemoryChunk, offset: nat, size: nat)

  predicate Apart(a: Region, b: Region) {
    a.chunk != b.chunk || a.offset + a.size <= b.offset || b.offset + b.size <= a.offset
  }

  class ByteMemoryPool {
    var chunks: MemoryChunk?
    /** The regions handed out since the last reset, in order. */
    ghost var regions: seq<Region>
    /** The chunks in the list, from its head on. */
    ghost var chain: seq<MemoryChunk>
    /** The chunks that were deleted, in order. */
    ghost var deleted: seq<MemoryChunk>

    ghost predicate Valid()
      reads this, chain
    {
      && Linked(chunks, chain)
      && (forall i :: 0 <= i < |chain| ==> chain[i].allocatedSize <= chain[i].chunkSize)
      && OnceOnly(chain, deleted)
      && (forall i :: 0 <= i < |regions| ==> Inside(regions[i]))
      && (forall i, j :: 0 <= i < j < |regions| ==> Apart(regions[i], regions[j]))
    }

    /** The region lies in the allocated part of a chunk of the pool. */
    ghost predicate Inside(r: Region)
      reads this, chain
    {
      r.chunk in chain && r.offset + r.size <= r.chunk.allocatedSize <= r.chunk.chunkSize
    }

    constructor (initSize: nat)
      ensures Valid() && regions == [] && deleted == [] && chunks != null && chain == [chunks] && fresh(chunks)
      ensures chunks.chunkSize - chunks.allocatedSize >= initSize
    {
      var c := new MemoryChunk(null, initSize);
      chunks, regions, chain, deleted := c, [], [c], [];
    }

    method ExpandStorage(requestSize: nat)
      requires Valid()
      modifies this`chunks, this`chain
      ensures Valid() && chunks != null && fresh(chunks) && chain == [chunks] + old(chain)
      ensures chunks.chunkSize - chunks.allocatedSize >= requestSize
    {
      var c := new MemoryChunk(chunks, requestSize);
      AfterNew(chunks, chain, deleted, c);
      chunks := c;
      chain := [c] + chain;
    }

    /**
     Every request is served, inside one chunk and apart from every other region since the last reset;
     a chunk is added only if the first one has no room.
     */
    method Alloc(requestSize: nat) returns (r: Region)
      requires Valid()
      modifies this`chunks, this`chain, this`regions, chain
      ensures Valid() && chunks != null && r.size == requestSize && regions == old(regions) + [r]
      ensures Inside(r) && forall i :: 0 <= i < |old(regions)| ==> Apart(old(regions)[i], r)
      ensures if old(chunks != null && chunks.chunkSize - chunks.allocatedSize >= requestSize) then chain == old(chain)
              else chain == [chunks] + old(chain) && fresh(chunks)
    {
      if chunks == null || chunks.chunkSize - chunks.allocatedSize < requestSize {
        ExpandStorage(requestSize);
      }
      var ok, offset := chunks.Alloc(requestSize);
      r := Region(chunks, offset, requestSize);
      regions := regions + [r];
    }

    /** `delete`: a chunk goes once. */
    ghost method Delete(chunk: MemoryChunk)
      requires forall i :: 0 <= i < |deleted| ==> deleted[i] != chunk
      modifies this`deleted
      ensures deleted == old(deleted) + [chunk]
    {
      deleted := deleted + [chunk];
    }

    /** Deletes every chunk of the list, exactly once, and takes each link before its chunk goes. */
    method Reset()
      requires Valid()
      modifies this
      ensures Valid() && chunks == null && chain == [] && regions == []
      ensures deleted == old(deleted) + old(chain)
    {
      regions := [];
      var chunk := chunks;
      while chunk != null
        invariant chunk == chunks && Valid() && regions == []
        invariant deleted + chain == old(deleted) + old(chain)
        decreases |chain|
      {
        AfterDelete(chunk, chain, deleted);
        chunks := chunk.next;
        chain := chain[1..];
        Delete(chunk);
        chunk := chunks;
      }
    }
  }

  /** The list from `head` on is `chain`. */
  ghost predicate Linked(head: MemoryChunk?, chain: seq<MemoryChunk>) {
    if chain == [] then head == null
    else head == chain[0] && chain[0].depth == |chain| - 1 && Linked(chain[0].next, chain[1..])
  }

  /** No chunk was deleted twice, and none that was deleted is in the list. */
  ghost predicate OnceOnly(chain: seq<MemoryChunk>, deleted: seq<MemoryChunk>) {
    && (forall i, j :: 0 <= i < j < |deleted| ==> deleted[i] != deleted[j])
    && (forall i, j :: 0 <= i < |chain| && 0 <= j < |deleted| ==> chain[i] != deleted[j])
  }

  lemma {:induction false} Depths(head: MemoryChunk?, chain: seq<MemoryChunk>)
    requires Linked(head, chain)
    ensures forall i :: 0 <= i < |chain| ==> chain[i].depth < |chain|
  {
    if chain != [] {
      Depths(chain[0].next, chain[1..]);
      assert forall i :: 1 <= i < |chain| ==> chain[i] == chain[1..][i - 1];
    }
  }

  lemma {:induction false} AfterNew(head: MemoryChunk?, chain: seq<MemoryChunk>, deleted: seq<MemoryChunk>, c: MemoryChunk)
    requires Linked(head, chain) && OnceOnly(chain, deleted) && c.next == head
    requires c.depth == if head == null then 0 else head.depth + 1
    requires forall j :: 0 <= j < |deleted| ==> c != deleted[j]
    ensures Linked(c, [c] + chain) && OnceOnly([c] + chain, deleted)
  {
    assert ([c] + chain)[1..] == chain;
  }

  lemma {:induction false} AfterDelete(head: MemoryChunk, chain: seq<MemoryChunk>, deleted: seq<MemoryChunk>)
    requires Linked(head, chain) && OnceOnly(chain, deleted)
    ensures chain != [] && Linked(head.next, chain[1..]) && OnceOnly(chain[1..], deleted + [head])
    ensures (deleted + [head]) + chain[1..] == deleted + chain
    ensures forall j :: 0 <= j < |deleted| ==> deleted[j] != head
  {
    Depths(head.next, chain[1..]);
    assert chain == [head] + chain[1..];
  }
}
