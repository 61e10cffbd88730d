/** The aligned buffer pool of common/utils/AlignedBufferPool.cpp: a free list of
    indices over a fixed table of blocks. */
module BufferPool {
  import opened Basics

  ghost predicate NoDuplicates<T>(s: seq<T>) {
    forall i, j :: 0 <= i < j < |s| ==> s[i] != s[j]
  }

  /** The list 0, 1, ..., n - 1. */
  function UpTo(n: nat): (s: seq<nat>)
    ensures |s| == n && forall i :: 0 <= i < n ==> s[i] == i
  {
    seq(n, i requires 0 <= i => i)
  }

  class AlignedBufferPool {
    var buffers: seq<Ptr>
    var freeIndices: seq<nat>
    var indexByPtr: map<Ptr, nat>
    var blockSize: nat
    var alignment: nat
    var initialized: bool
    var shutdown: bool

    /** The table is one-to-one and the free list names blocks of it. Nothing in the
        code keeps the free list free of duplicates: see Exclusive. */
    ghost predicate Valid()
      reads this
    {
      && (forall p :: p in indexByPtr ==> indexByPtr[p] < |buffers| && buffers[indexByPtr[p]] == p)
      && (forall i :: 0 <= i < |buffers| ==> buffers[i] != 0 && buffers[i] in indexByPtr && indexByPtr[buffers[i]] == i)
      && (forall k :: 0 <= k < |freeIndices| ==> freeIndices[k] < |buffers|)
    }

    /** No block is on the free list twice: what callers that release each acquired
        block at most once can rely on. */
    ghost predicate Exclusive()
      reads this
    {
      Valid() && NoDuplicates(freeIndices)
    }

    ghost function Blocks(): set<Ptr>
      reads this
    {
      set p | p in buffers
    }

    /** Blocks that could be handed out. */
    ghost function Free(): set<Ptr>
      reads this
      requires Valid()
    {
      set k | 0 <= k < |freeIndices| :: buffers[freeIndices[k]]
    }

    constructor ()
      ensures Exclusive() && buffers == [] && !initialized && !shutdown && blockSize == 0 && alignment == 0
    {
      buffers, freeIndices, indexByPtr := [], [], map[];
      blockSize, alignment, initialized, shutdown := 0, 0, false, false;
    }

    method FreeAll()
      modifies this
      ensures Exclusive() && buffers == [] && freeIndices == [] && !initialized && !shutdown
      ensures blockSize == old(blockSize) && alignment == old(alignment)
    {
      buffers, freeIndices, indexByPtr := [], [], map[];
      initialized, shutdown := false, false;
    }

    /** Initialize; `mem` are the allocator's answers, None for a failure. */
    method Initialize(blockCount: nat, size: nat, align: nat, mem: seq<Option<Ptr>>) returns (ok: bool)
      requires |mem| == blockCount
      requires forall i :: 0 <= i < |mem| && mem[i].Some? ==> mem[i].value != 0
      requires forall i, j :: 0 <= i < j < |mem| && mem[i].Some? ==> mem[i] != mem[j]
      modifies this
      ensures Exclusive() && ok == initialized && !shutdown
      ensures ok == (blockCount > 0 && size > 0 && forall i :: 0 <= i < blockCount ==> mem[i].Some?)
      ensures ok ==> |buffers| == blockCount && forall i :: 0 <= i < blockCount ==> buffers[i] == mem[i].value
      ensures ok ==> Free() == Blocks() && freeIndices == UpTo(blockCount)
      ensures ok ==> blockSize == size && alignment == (if align < 64 then 64 else align)
      ensures !ok ==> buffers == []
    {
      FreeAll();
      if blockCount == 0 || size == 0 { return false; }
      alignment := if align < 64 then 64 else align;
      blockSize := size;
      assert UpTo(0) == [];
      for i := 0 to blockCount
        invariant Valid() && |buffers| == i && freeIndices == UpTo(i) && !initialized && !shutdown
        invariant forall j :: 0 <= j < i ==> mem[j].Some? && buffers[j] == mem[j].value
        invariant blockSize == size && alignment == (if align < 64 then 64 else align)
      {
        if mem[i].None? {
          FreeAll();
          return false;
        }
        assert mem[i].value !in indexByPtr;
        buffers := buffers + [mem[i].value];
        indexByPtr := indexByPtr[mem[i].value := i];
        freeIndices := freeIndices + [i];
      }
      initialized := true;
      AllFree();
      ok := true;
    }

    lemma AllFree()
      requires Valid() && freeIndices == UpTo(|buffers|)
      ensures Free() == Blocks()
    {
      forall p | p in Blocks() ensures p in Free() {
        var i :| 0 <= i < |buffers| && buffers[i] == p;
        assert freeIndices[i] == i;
      }
    }

    /** Reset: every block is free again, whoever holds it. */
    method Reset()
      requires Valid()
      modifies this`freeIndices, this`shutdown
      ensures old(Exclusive()) || initialized ==> Exclusive()
      ensures Valid()
      ensures initialized ==> Free() == Blocks() && !shutdown
      ensures !initialized ==> freeIndices == old(freeIndices) && shutdown == old(shutdown)
    {
      if !initialized { return; }
      freeIndices := [];
      for i := 0 to |buffers|
        invariant freeIndices == UpTo(i)
      {
        freeIndices := freeIndices + [i];
      }
      shutdown := false;
      AllFree();
    }

    /** Acquire, once its wait is over: `stopped` is the caller's stop flag as read
        after waking. Takes the block that was freed last. */
    method Acquire(stopped: bool) returns (block: Option<Ptr>)
      requires Valid()
      modifies this`freeIndices
      ensures Valid() && (old(Exclusive()) ==> Exclusive())
      ensures block.Some? == (!shutdown && !stopped && |old(freeIndices)| > 0)
      ensures block.None? ==> freeIndices == old(freeIndices)
      ensures block.Some? ==>
        && block.value in Blocks() && block.value in old(Free())
        && old(freeIndices) == freeIndices + [indexByPtr[block.value]]
      ensures block.Some? && old(Exclusive()) ==> Free() == old(Free()) - {block.value}
    {
      if shutdown { return None; }
      if stopped { return None; }
      if |freeIndices| == 0 { return None; }
      var last := |freeIndices| - 1;
      var index := freeIndices[last];
      freeIndices := freeIndices[..last];
      block := Some(buffers[index]);
    }

    /** Release: puts back any block of the table, also one that is already free. */
    method Release(ptr: Ptr)
      requires Valid()
      modifies this`freeIndices
      ensures Valid()
      ensures freeIndices == old(freeIndices) + if ptr in Blocks() then [indexByPtr[ptr]] else []
      ensures Free() == old(Free()) + if ptr in Blocks() then {ptr} else {}
      ensures old(Exclusive()) ==> (Exclusive() <==> ptr !in old(Free()))
    {
      if ptr == 0 { return; }
      if ptr !in indexByPtr { return; }
      ghost var before := freeIndices;
      freeIndices := freeIndices + [indexByPtr[ptr]];
      forall k | 0 <= k < |before| ensures freeIndices[k] == before[k] {}
      assert freeIndices[|before|] == indexByPtr[ptr];
    }

    /** Owns: whether the pointer is one of the table's blocks. */
    predicate Owns(ptr: Ptr)
      requires Valid()
      reads this
      ensures Owns(ptr) <==> ptr in Blocks()
    {
      ptr != 0 && ptr in indexByPtr
    }

    method Shutdown()
      modifies this`shutdown
      ensures shutdown
    {
      shutdown := true;
    }
  }

  /** After a shutdown no block is given out, until a reset of an initialized pool. */
  method ShutdownUntilReset(pool: AlignedBufferPool, stopped: bool) returns (before: Option<Ptr>, after: Option<Ptr>)
    requires pool.Valid()
    modifies pool`freeIndices, pool`shutdown
    ensures before.None?
    ensures after.Some? <==> pool.initialized && pool.buffers != [] && !stopped
  {
    pool.Shutdown();
    before := pool.Acquire(stopped);
    pool.Reset();
    if pool.initialized && pool.buffers != [] { assert pool.buffers[0] in pool.Free(); }
    assert pool.freeIndices != [] ==> pool.freeIndices[0] < |pool.buffers|;
    after := pool.Acquire(stopped);
  }

  /** Acquire followed by Release of the same block restores the free list exactly. */
  method ReleaseUndoesAcquire(pool: AlignedBufferPool, stopped: bool) returns (b: Option<Ptr>)
    requires pool.Valid() && !pool.shutdown
    modifies pool`freeIndices
    ensures b.Some? <==> !stopped && old(pool.freeIndices) != []
    ensures pool.Valid() && pool.freeIndices == old(pool.freeIndices)
  {
    b := pool.Acquire(stopped);
    if b.Some? { pool.Release(b.value); }
  }
}
