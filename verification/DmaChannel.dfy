/** The DMA channel of pcie/DmaChannelLinux.cpp: sends go zero-copy through the descriptor
    queue or by copy through the byte queue, and one worker writes both to the device. */
module DmaChannel {
  import opened Basics
  import opened Modular
  import opened ByteRing
  import opened DescriptorRing
  import opened BufferPool

  /** One write to the device: what was handed to it and what it answered. */
  datatype Write = ByDescriptor(desc: Descriptor, answer: int) | ByCopy(bytes: seq<Byte>, answer: int)

  // ---- histories ----

  /** The descriptors, the copied bytes and the byte count that a log of writes adds up to. */
  function Descriptors(log: seq<Write>): seq<Descriptor> {
    if log == [] then []
    else
      var last := log[|log| - 1];
      Descriptors(log[..|log| - 1]) + if last.ByDescriptor? then [last.desc] else []
  }

  function Copied(log: seq<Write>): seq<Byte> {
    if log == [] then []
    else
      var last := log[|log| - 1];
      Copied(log[..|log| - 1]) + if last.ByCopy? then last.bytes else []
  }

  function Total(log: seq<Write>): nat {
    if log == [] then 0
    else
      var last := log[|log| - 1];
      Total(log[..|log| - 1]) + if last.answer > 0 then last.answer else 0
  }

  /** A count in 64 bits. */
  function Wrapped64(n: nat): nat { n % WORD64 }

  lemma OneMore(log: seq<Write>, w: Write)
    ensures Descriptors(log + [w]) == Descriptors(log) + if w.ByDescriptor? then [w.desc] else []
    ensures Copied(log + [w]) == Copied(log) + if w.ByCopy? then w.bytes else []
    ensures Total(log + [w]) == Total(log) + if w.answer > 0 then w.answer else 0
    ensures w.answer >= 0 ==> Wrapped64(Wrapped64(Total(log)) + w.answer) == Wrapped64(Total(log + [w]))
    ensures w.answer < 0 ==> Total(log + [w]) == Total(log)
  {
    assert (log + [w])[..|log|] == log;
    if w.answer >= 0 { ModAdd(Total(log), w.answer, WORD64); }
  }

  /** What the device answered, in order. */
  function Answers(log: seq<Write>): (a: seq<int>)
    ensures |a| == |log|
  {
    seq(|log|, k requires 0 <= k < |log| => log[k].answer)
  }

  /** The sum of the answers that are not negative. */
  function Positive(answers: seq<int>): nat {
    if answers == [] then 0
    else
      var last := answers[|answers| - 1];
      Positive(answers[..|answers| - 1]) + if last >= 0 then last else 0
  }

  /** Since `before` was the log and `sent` the count, the device was handed more writes, which it
      answered by `answers`: they are counted, and none follows a failed one, at which the
      worker stops. */
  ghost predicate Served(before: seq<Write>, sent: nat, log: seq<Write>, total: nat, running: bool, answers: seq<int>) {
    && before <= log && Answers(log[|before|..]) == answers
    && total == Wrapped64(sent + Positive(answers))
    && (forall k :: 0 <= k < |answers| - 1 ==> answers[k] >= 0)
    && (running <==> answers == [] || answers[|answers| - 1] >= 0)
  }

  lemma ServedNone(log: seq<Write>, sent: nat)
    requires sent < WORD64
    ensures Served(log, sent, log, sent, true, [])
  {
    ModSmall(sent, WORD64);
  }

  lemma ServedOne(before: seq<Write>, sent: nat, log: seq<Write>, total: nat, answers: seq<int>, w: Write)
    requires Served(before, sent, log, total, true, answers)
    ensures Served(before, sent, log + [w], if w.answer >= 0 then Wrapped64(total + w.answer) else total, w.answer >= 0,
                   answers + [w.answer])
  {
    assert (log + [w])[|before|..] == log[|before|..] + [w];
    assert (answers + [w.answer])[..|answers|] == answers;
    if w.answer >= 0 { ModAdd(sent + Positive(answers), w.answer, WORD64); }
    hide Positive;
  }

  /** What became of an item that has left its queue. */
  datatype Fate = Written | Dropped

  /** Of the items that have left a queue, those that were written. */
  function Kept<T>(items: seq<T>, fates: seq<Fate>): seq<T>
    requires |fates| <= |items|
  {
    if fates == [] then []
    else
      var n := |fates| - 1;
      Kept(items, fates[..n]) + if fates[n].Written? then [items[n]] else []
  }

  function All(n: nat, fate: Fate): (s: seq<Fate>)
    ensures |s| == n
  {
    seq(n, _ => fate)
  }

  /** Later arrivals do not matter. */
  lemma {:induction false} KeptGrows<T>(items: seq<T>, more: seq<T>, fates: seq<Fate>)
    requires |fates| <= |items|
    ensures Kept(items + more, fates) == Kept(items, fates)
  {
    if fates != [] { KeptGrows(items, more, fates[..|fates| - 1]); }
  }

  lemma OneFate<T>(items: seq<T>, fates: seq<Fate>, n: nat, fate: Fate)
    requires |fates| + n < |items|
    ensures Kept(items, fates + All(n + 1, fate))
         == Kept(items, fates + All(n, fate)) + if fate.Written? then [items[|fates| + n]] else []
  {
    OneMoreFate(fates, n, fate);
    hide *;
    KeptNext(items, fates + All(n, fate), fate);
  }

  lemma KeptNext<T>(items: seq<T>, fates: seq<Fate>, fate: Fate)
    requires |fates| < |items|
    ensures Kept(items, fates + [fate]) == Kept(items, fates) + if fate.Written? then [items[|fates|]] else []
  {
    assert (fates + [fate])[..|fates|] == fates;
  }

  lemma OneMoreFate(fates: seq<Fate>, n: nat, fate: Fate)
    ensures fates + All(n + 1, fate) == (fates + All(n, fate)) + [fate]
  {}

  lemma NoFates(fates: seq<Fate>, fate: Fate)
    ensures fates + All(0, fate) == fates && All(1, fate) == [fate]
  {}

  /** Items that leave written are kept, in order. */
  lemma {:induction false} KeptWritten<T>(items: seq<T>, fates: seq<Fate>, n: nat)
    requires |fates| + n <= |items|
    ensures Kept(items, fates + All(n, Written)) == Kept(items, fates) + items[|fates|..|fates| + n]
  {
    hide Kept, All;
    NoFates(fates, Written);
    if n > 0 {
      KeptWritten(items, fates, n - 1);
      OneFate(items, fates, n - 1, Written);
      assert items[|fates|..|fates| + n] == items[|fates|..|fates| + n - 1] + [items[|fates| + n - 1]];
      JoinOne(Kept(items, fates), items[|fates|..|fates| + n - 1], items[|fates| + n - 1]);
    }
  }

  /** Items that are dropped are not. */
  lemma {:induction false} KeptDropped<T>(items: seq<T>, fates: seq<Fate>, n: nat)
    requires |fates| + n <= |items|
    ensures Kept(items, fates + All(n, Dropped)) == Kept(items, fates)
  {
    hide Kept, All;
    NoFates(fates, Dropped);
    if n > 0 {
      KeptDropped(items, fates, n - 1);
      OneFate(items, fates, n - 1, Dropped);
    }
  }

  /** A queue holds the end of what was accepted; of the rest, exactly what was not dropped
      was written, in order. */
  ghost predicate Accounted<T>(items: seq<T>, fates: seq<Fate>, queue: seq<T>, written: seq<T>) {
    |fates| <= |items| && queue == items[|fates|..] && written == Kept(items, fates)
  }

  lemma AccountPut<T>(items: seq<T>, fates: seq<Fate>, queue: seq<T>, written: seq<T>, more: seq<T>)
    requires Accounted(items, fates, queue, written)
    ensures Accounted(items + more, fates, queue + more, written)
  {
    KeptGrows(items, more, fates);
    hide Kept;
  }

  lemma AccountWritten<T>(items: seq<T>, fates: seq<Fate>, queue: seq<T>, written: seq<T>, n: nat)
    requires Accounted(items, fates, queue, written) && n <= |queue|
    ensures Accounted(items, fates + All(n, Written), queue[n..], written + queue[..n])
  {
    KeptWritten(items, fates, n);
    hide Kept;
    assert items[|fates|..][..n] == items[|fates|..|fates| + n];
  }

  lemma AccountDropped<T>(items: seq<T>, fates: seq<Fate>, queue: seq<T>, written: seq<T>)
    requires Accounted(items, fates, queue, written)
    ensures Accounted(items, fates + All(|queue|, Dropped), [], written)
  {
    KeptDropped(items, fates, |queue|);
    hide Kept;
  }

  lemma JoinOne<T>(a: seq<T>, b: seq<T>, x: T)
    ensures (a + b) + [x] == a + (b + [x])
  {}

  /** Up to the first item that was dropped, the written ones are a prefix. */
  lemma {:induction false} KeptPrefix<T>(items: seq<T>, fates: seq<Fate>, m: nat)
    requires m <= |fates| <= |items| && forall k :: 0 <= k < m ==> fates[k].Written?
    ensures items[..m] <= Kept(items, fates)
    ensures m == |fates| ==> Kept(items, fates) == items[..m]
    decreases |fates|
  {
    if fates != [] {
      var n := |fates| - 1;
      KeptPrefix(items, fates[..n], if m <= n then m else n);
      if m > n { assert items[..m] == items[..n] + [items[n]]; }
    }
  }

  function Drops(fates: seq<Fate>): nat {
    if fates == [] then 0 else Drops(fates[..|fates| - 1]) + if fates[|fates| - 1].Dropped? then 1 else 0
  }

  lemma {:induction false} KeptCount<T>(items: seq<T>, fates: seq<Fate>)
    requires |fates| <= |items|
    ensures |Kept(items, fates)| + Drops(fates) == |fates|
  {
    if fates != [] { KeptCount(items, fates[..|fates| - 1]); }
  }

  // ---- ownership ----

  /** A block of a pool. */
  type Key = (AlignedBufferPool, Ptr)

  ghost function KeyOf(d: Descriptor): Key
    requires d.context != null
  {
    (d.context, d.ptr)
  }

  /** Queued descriptors hold blocks that are neither free nor queued twice. */
  ghost predicate OwnedQueue(q: seq<Descriptor>, blocks: set<Key>, free: set<Key>) {
    && (forall i :: 0 <= i < |q| ==> q[i].context != null && KeyOf(q[i]) in blocks && KeyOf(q[i]) !in free)
    && forall i, j :: 0 <= i < j < |q| && q[i].context != null && q[j].context != null ==> KeyOf(q[i]) != KeyOf(q[j])
  }

  ghost predicate NotQueued(q: seq<Descriptor>, key: Key) {
    forall i :: 0 <= i < |q| && q[i].context != null ==> KeyOf(q[i]) != key
  }

  lemma OwnedAppend(q: seq<Descriptor>, d: Descriptor, blocks: set<Key>, free: set<Key>)
    requires OwnedQueue(q, blocks, free)
    requires d.context != null && NotQueued(q, KeyOf(d)) && KeyOf(d) in blocks && KeyOf(d) !in free
    ensures OwnedQueue(q + [d], blocks, free)
  {}

  lemma OwnedRelease(q: seq<Descriptor>, key: Key, blocks: set<Key>, free: set<Key>)
    requires OwnedQueue(q, blocks, free) && NotQueued(q, key)
    ensures OwnedQueue(q, blocks, free + {key})
  {}

  lemma OwnedTail(q: seq<Descriptor>, blocks: set<Key>, free: set<Key>)
    requires q != [] && OwnedQueue(q, blocks, free)
    ensures q[0].context != null && KeyOf(q[0]) in blocks && KeyOf(q[0]) !in free
    ensures OwnedQueue(q[1..], blocks, free) && NotQueued(q[1..], KeyOf(q[0]))
  {}

  /** More pools bring more blocks. */
  lemma OwnedMorePools(q: seq<Descriptor>, blocks: set<Key>, free: set<Key>, newBlocks: set<Key>, newFree: set<Key>)
    requires OwnedQueue(q, blocks, free) && blocks <= newBlocks && newFree * blocks <= free
    ensures OwnedQueue(q, newBlocks, newFree)
  {}

  ghost function BlocksOf(pools: set<AlignedBufferPool>): set<Key>
    reads pools
  {
    set p, b | p in pools && b in p.Blocks() :: (p, b)
  }

  ghost predicate AllExclusive(pools: set<AlignedBufferPool>)
    reads pools
  {
    forall p :: p in pools ==> p.Exclusive()
  }

  ghost function FreeOf(pools: set<AlignedBufferPool>): set<Key>
    requires AllExclusive(pools)
    reads pools
  {
    set p, b | p in pools && b in p.Free() :: (p, b)
  }

  class DmaChannelLinux {
    const sendQueue: SPSCMemoryQueue
    const descQueue: SPSCDescriptorQueue
    var bufferPool: AlignedBufferPool?
    var running: bool
    var totalSent: nat
    ghost var pools: set<AlignedBufferPool>  // every pool the channel was ever given
    ghost var queued: seq<Descriptor>        // descriptors accepted by Send, in order, from the start
    ghost var fates: seq<Fate>               // what became of those that have left the queue
    ghost var copied: seq<Byte>              // bytes accepted by Send for copying, in order, from the start
    ghost var byteFates: seq<Fate>
    ghost var device: seq<Write>             // all writes to the device
    ghost var base: nat                      // how many of them were before the last Reset

    /** Initialize and Start with queues just made; the pool may be null. */
    constructor (sends: SPSCMemoryQueue, descs: SPSCDescriptorQueue, pool: AlignedBufferPool?)
      requires sends.Valid() && sends.Contents() == [] && descs.Valid() && descs.Contents() == []
      requires pool != null ==> pool.Exclusive()
      ensures Valid() && Owned() && running && totalSent == 0 && device == [] && queued == [] && copied == []
      ensures sendQueue == sends && descQueue == descs && bufferPool == pool
    {
      sendQueue, descQueue, bufferPool := sends, descs, pool;
      running, totalSent := true, 0;
      pools := if pool == null then {} else {pool};
      queued, fates, copied, byteFates, device, base := [], [], [], [], [], 0;
    }

    ghost predicate QueuesValid()
      reads sendQueue, sendQueue.buffer, descQueue, descQueue.buffer
    {
      sendQueue.Valid() && descQueue.Valid()
    }

    ghost predicate Valid()
      reads this, sendQueue, sendQueue.buffer, descQueue, descQueue.buffer
    {
      && QueuesValid()
      && Accounted(queued, fates, descQueue.Contents(), Descriptors(device))
      && Accounted(copied, byteFates, sendQueue.Contents(), Copied(device))
      && base <= |device| && totalSent == Wrapped64(Total(device[base..]))
    }

    ghost predicate PoolsValid()
      reads this`pools, this`bufferPool, pools
    {
      AllExclusive(pools) && (bufferPool != null ==> bufferPool in pools)
    }

    /** Every block of the pools, and those that could be handed out. */
    ghost function Blocks(): set<Key>
      reads this`pools, pools
    {
      BlocksOf(pools)
    }

    ghost function Free(): set<Key>
      requires PoolsValid()
      reads this`pools, this`bufferPool, pools
    {
      FreeOf(pools)
    }

    ghost predicate Owned()
      requires descQueue.Valid()
      reads this`pools, this`bufferPool, descQueue, descQueue.buffer, pools
    {
      PoolsValid() && OwnedQueue(descQueue.Contents(), Blocks(), Free())
    }

    /** A block of the channel's pool that the caller may still use: not free, not queued. */
    ghost predicate HeldByCaller(data: Ptr)
      requires descQueue.Valid() && PoolsValid()
      reads this`pools, this`bufferPool, descQueue, descQueue.buffer, pools
    {
      && bufferPool != null && (bufferPool, data) in Blocks() && (bufferPool, data) !in Free()
      && NotQueued(descQueue.Contents(), (bufferPool, data))
    }

    predicate FromPool(data: Ptr)
      requires bufferPool != null ==> bufferPool.Valid()
      reads this`bufferPool, bufferPool
      ensures FromPool(data) <==> bufferPool != null && data in bufferPool.Blocks()
    {
      bufferPool != null && bufferPool.Owns(data)
    }

    /** The zero-copy path: queues a descriptor for a pool block, if there is room. */
    method TryDescriptor(data: Ptr, length: nat) returns (enqueued: bool)
      requires Valid() && Owned() && HeldByCaller(data)
      modifies this`queued, descQueue`putIndex, descQueue.buffer
      ensures Valid() && Owned()
      ensures enqueued == (|old(descQueue.Contents())| < descQueue.capacity)
      ensures queued == old(queued) + if enqueued then [Descriptor(data, length, bufferPool)] else []
      ensures !enqueued ==> HeldByCaller(data) && descQueue.Contents() == old(descQueue.Contents())
    {
      hide OwnedQueue, Accounted, BlocksOf, FreeOf, AllExclusive;
      var desc := Descriptor(data, length, bufferPool);
      OwnedAppend(descQueue.Contents(), desc, Blocks(), Free());
      AccountPut(queued, fates, descQueue.Contents(), Descriptors(device), [desc]);
      enqueued := descQueue.PutDescriptor(desc);
      assert !enqueued ==> descQueue.Contents() == old(descQueue.Contents());
      if enqueued { queued := queued + [desc]; }
    }

    /** The copy path: copies all bytes or none, and then gives the block back. */
    method TryCopy(data: Ptr, bytes: seq<Byte>, releaseAfterCopy: bool) returns (ok: bool)
      requires Valid() && Owned() && |bytes| < WORD32
      requires releaseAfterCopy ==> HeldByCaller(data)
      modifies this`copied, sendQueue`putIndex, sendQueue.buffer, pools
      ensures Valid() && Owned() && descQueue.Contents() == old(descQueue.Contents())
      ensures ok == (|old(sendQueue.Contents())| + |bytes| <= sendQueue.size)
      ensures copied == old(copied) + if ok then bytes else []
      ensures sendQueue.Contents() == old(sendQueue.Contents()) + if ok then bytes else []
      ensures !ok && releaseAfterCopy ==> HeldByCaller(data)
      ensures Blocks() == old(Blocks())
      ensures Free() == old(Free()) + if ok && releaseAfterCopy then {(bufferPool, data)} else {}
    {
      hide OwnedQueue, Accounted, BlocksOf, FreeOf, AllExclusive;
      AccountPut(copied, byteFates, sendQueue.Contents(), Copied(device), bytes);
      ok := sendQueue.PutFixedLength(bytes);
      if !ok { return; }
      copied := copied + bytes;
      if releaseAfterCopy && bufferPool != null { ReleaseHeld(bufferPool, data); }
    }

    /** Gives back a block that is neither free nor queued. */
    method ReleaseHeld(pool: AlignedBufferPool, data: Ptr)
      requires QueuesValid() && Owned() && pool in pools && NotQueued(descQueue.Contents(), (pool, data))
      requires (pool, data) in Blocks() && (pool, data) !in Free()
      modifies pool`freeIndices
      ensures Owned() && Blocks() == old(Blocks()) && Free() == old(Free()) + {(pool, data)}
    {
      hide OwnedQueue, BlocksOf, FreeOf, AllExclusive;
      OwnedRelease(descQueue.Contents(), (pool, data), Blocks(), Free());
      ReleaseTo(pool, data);
    }

    /** Release of one block, seen over all pools. */
    method ReleaseTo(pool: AlignedBufferPool, data: Ptr)
      requires AllExclusive(pools) && pool in pools && (pool, data) !in FreeOf(pools)
      modifies pool`freeIndices
      ensures AllExclusive(pools) && BlocksOf(pools) == old(BlocksOf(pools))
      ensures FreeOf(pools) == old(FreeOf(pools)) + if (pool, data) in BlocksOf(pools) then {(pool, data)} else {}
    {
      pool.Release(data);
      assert forall p :: p in pools && p != pool ==> p.Free() == old(p.Free());
    }

    ghost predicate ZeroCopy(data: Ptr)
      requires descQueue.Valid() && PoolsValid()
      reads this`pools, this`bufferPool, descQueue, descQueue.buffer, pools
    {
      FromPool(data) && |descQueue.Contents()| < descQueue.capacity
    }

    /** Whether Send finds room, on either path. */
    ghost predicate Accepts(data: Ptr, length: nat)
      requires QueuesValid() && PoolsValid()
      reads this, sendQueue, sendQueue.buffer, descQueue, descQueue.buffer, pools
    {
      running && (ZeroCopy(data) || |sendQueue.Contents()| + length <= sendQueue.size)
    }

    /** Send. Refused: nothing has changed and the caller still holds the block. Accepted: a
        pool block was queued, or its bytes were copied and the block released. */
    method Send(data: Ptr, bytes: seq<Byte>) returns (ok: bool)
      requires Valid() && Owned() && |bytes| < WORD32
      requires FromPool(data) ==> HeldByCaller(data)
      modifies this`queued, this`copied, descQueue`putIndex, descQueue.buffer, sendQueue`putIndex, sendQueue.buffer,
          pools
      ensures Valid() && Owned() && Blocks() == old(Blocks())
      ensures ok == old(Accepts(data, |bytes|))
      ensures !ok && FromPool(data) ==> HeldByCaller(data)
      ensures queued == old(queued) + if ok && old(ZeroCopy(data)) then [Descriptor(data, |bytes|, bufferPool)] else []
      ensures copied == old(copied) + if ok && !old(ZeroCopy(data)) then bytes else []
      ensures Free() == old(Free()) + if ok && old(FromPool(data) && !ZeroCopy(data)) then {(bufferPool, data)} else {}
    {
      assert bufferPool != null ==> bufferPool in pools && bufferPool.Exclusive();
      hide OwnedQueue, Accounted, BlocksOf, FreeOf, AllExclusive, Descriptors, Copied, Total, Wrapped64;
      if !running { return false; }
      var enqueued, releaseAfterCopy := false, false;
      if FromPool(data) {
        enqueued := TryDescriptor(data, |bytes|);
        releaseAfterCopy := !enqueued;
      }
      ok := true;
      if !enqueued { ok := TryCopy(data, bytes, releaseAfterCopy); }
    }

    // ---- the worker ----

    /** Where ReleaseDescriptor gives a block back to: the pool the descriptor names, or the
        channel's own if it names none and the block is one of that pool's. */
    ghost function Home(desc: Descriptor): AlignedBufferPool?
      requires bufferPool != null ==> bufferPool.Valid()
      reads this`bufferPool, bufferPool
    {
      if desc.ptr == 0 then null
      else if desc.context != null then desc.context
      else if FromPool(desc.ptr) then bufferPool
      else null
    }

    /** ReleaseDescriptor: any descriptor, also without a block or without a pool. */
    method ReleaseDescriptor(desc: Descriptor)
      requires PoolsValid() && (desc.context != null ==> desc.context in pools)
      requires bufferPool != null ==> bufferPool.Valid()
      requires Home(desc) != null ==> (Home(desc), desc.ptr) !in Free()
      modifies pools
      ensures PoolsValid() && Blocks() == old(Blocks())
      ensures var home := old(Home(desc));
        Free() == old(Free()) + if home != null && (home, desc.ptr) in Blocks() then {(home, desc.ptr)} else {}
    {
      hide BlocksOf, FreeOf, AllExclusive;
      if desc.ptr == 0 { return; }
      if desc.context != null {
        ReleaseTo(desc.context, desc.ptr);
      } else if bufferPool != null && bufferPool.Owns(desc.ptr) {
        ReleaseTo(bufferPool, desc.ptr);
      }
    }

    /** Takes the oldest descriptor out of the queue; its block is then the worker's. */
    method TakeDescriptor() returns (taken: bool, desc: Descriptor)
      requires QueuesValid() && Owned()
      modifies descQueue`getIndex
      ensures QueuesValid() && Owned() && sendQueue.Contents() == old(sendQueue.Contents())
      ensures taken == (old(descQueue.Contents()) != [])
      ensures taken ==> old(descQueue.Contents()) == [desc] + descQueue.Contents()
      ensures taken ==> desc.context != null && desc.context in pools && desc.ptr != 0
      ensures taken ==>
        KeyOf(desc) in Blocks() && KeyOf(desc) !in Free() && NotQueued(descQueue.Contents(), KeyOf(desc))
      ensures !taken ==> descQueue.Contents() == old(descQueue.Contents())
    {
      if descQueue.Contents() != [] {
        OwnedTail(descQueue.Contents(), Blocks(), Free());
        BlockIsReal(descQueue.Contents()[0]);
      }
      hide OwnedQueue, BlocksOf, FreeOf, AllExclusive;
      taken, desc := descQueue.GetDescriptor();
    }

    lemma BlockIsReal(d: Descriptor)
      requires PoolsValid() && d.context != null && KeyOf(d) in Blocks()
      ensures d.context in pools && d.ptr != 0
    {}

    /** The descriptor half of a round of SendThreadFunc: the oldest descriptor is written,
        and its block released whatever the device answers. */
    method DescriptorRound(answer: int) returns (taken: bool)
      requires Valid() && Owned()
      modifies this`running, this`totalSent, this`device, this`fates, descQueue`getIndex, pools
      ensures Valid() && Owned() && Blocks() == old(Blocks())
      ensures taken == (old(descQueue.Contents()) != [])
      ensures running == (old(running) && (taken ==> answer >= 0))
      ensures totalSent == if taken && answer >= 0 then Wrapped64(old(totalSent) + answer) else old(totalSent)
      ensures fates == old(fates) + if taken then All(1, Written) else []
      ensures device == old(device) + if taken then [ByDescriptor(old(descQueue.Contents())[0], answer)] else []
      ensures taken ==> old(descQueue.Contents())[0].context != null
      ensures Free() == old(Free()) + if taken then {KeyOf(old(descQueue.Contents())[0])} else {}
    {
      hide OwnedQueue, Descriptors, Copied, Total, Wrapped64, Accounted, BlocksOf, FreeOf, AllExclusive;
      ghost var q := descQueue.Contents();
      var desc;
      taken, desc := TakeDescriptor();
      if !taken { return; }
      ReleaseHeld(desc.context, desc.ptr);
      AccountWritten(queued, fates, q, Descriptors(device), 1);
      assert q[1..] == descQueue.Contents() && q[..1] == [desc];
      fates := fates + All(1, Written);
      Account(ByDescriptor(desc, answer), answer);
    }

    /** Counts what the device accepted; a failed write stops the worker. */
    method Account(ghost w: Write, answer: int)
      requires base <= |device| && totalSent == Wrapped64(Total(device[base..])) && w.answer == answer
      modifies this`running, this`totalSent, this`device
      ensures running == (old(running) && answer >= 0)
      ensures device == old(device) + [w] && totalSent == Wrapped64(Total(device[base..]))
      ensures totalSent == if answer >= 0 then Wrapped64(old(totalSent) + answer) else old(totalSent)
      ensures Descriptors(device) == if w.ByDescriptor? then Descriptors(old(device)) + [w.desc]
          else Descriptors(old(device))
      ensures Copied(device) == if w.ByCopy? then Copied(old(device)) + w.bytes else Copied(old(device))
    {
      hide Descriptors, Copied, Total, Wrapped64;
      OneMore(device, w);
      OneMore(device[base..], w);
      assert (device + [w])[base..] == device[base..] + [w];
      device := device + [w];
      if answer < 0 {
        running := false;
      } else {
        totalSent := Wrapped64(totalSent + answer);
      }
    }

    /** The copy half: up to a buffer's worth of bytes is taken and written. */
    method CopyRound(buffer: array<Byte>, answer: int) returns (n: nat)
      requires Valid() && Owned() && buffer != sendQueue.buffer
      modifies this`running, this`totalSent, this`device, this`byteFates, sendQueue`getIndex, buffer
      ensures Valid() && Owned()
      ensures n == if buffer.Length <= |old(sendQueue.Contents())| then buffer.Length else |old(sendQueue.Contents())|
      ensures running == (old(running) && (n > 0 ==> answer >= 0))
      ensures totalSent == if n > 0 && answer >= 0 then Wrapped64(old(totalSent) + answer) else old(totalSent)
      ensures byteFates == old(byteFates) + All(n, Written)
      ensures device == old(device) + if n > 0 then [ByCopy(old(sendQueue.Contents())[..n], answer)] else []
    {
      hide OwnedQueue, Descriptors, Copied, Total, Wrapped64, Accounted, BlocksOf, FreeOf, AllExclusive;
      ghost var c := sendQueue.Contents();
      n := sendQueue.Get(buffer, buffer.Length);
      assert c == c[..n] + c[n..];
      NoFates(byteFates, Written);
      if n == 0 { return; }
      assert c[..n] == buffer[..n] && c[n..] == sendQueue.Contents();
      AccountWritten(copied, byteFates, c, Copied(device), n);
      byteFates := byteFates + All(n, Written);
      Account(ByCopy(c[..n], answer), answer);
    }

    /** What a round writes: the oldest descriptor if there is one, or else as many bytes as the
        buffer holds. */
    ghost function NextWrite(room: nat, answer: int): Option<Write>
      requires QueuesValid()
      reads this, sendQueue, sendQueue.buffer, descQueue, descQueue.buffer
    {
      var q, c := descQueue.Contents(), sendQueue.Contents();
      var n := if room <= |c| then room else |c|;
      if q != [] then Some(ByDescriptor(q[0], answer)) else if n > 0 then Some(ByCopy(c[..n], answer)) else None
    }

    /** A round of SendThreadFunc: descriptors go first; bytes only when there is none. An answer
        is counted if it is not negative, and stops the worker if it is. */
    method SendRound(buffer: array<Byte>, answer: int) returns (wrote: bool)
      requires Valid() && Owned() && buffer != sendQueue.buffer
      modifies this`running, this`totalSent, this`device, this`fates, this`byteFates,
               descQueue`getIndex, sendQueue`getIndex, buffer, pools
      ensures Valid() && Owned()
      ensures wrote == old(NextWrite(buffer.Length, answer)).Some?
      ensures device == old(device) + if wrote then [old(NextWrite(buffer.Length, answer)).value] else []
      ensures running == (old(running) && (wrote ==> answer >= 0))
      ensures totalSent == if wrote && answer >= 0 then Wrapped64(old(totalSent) + answer) else old(totalSent)
    {
      hide OwnedQueue, Accounted, BlocksOf, FreeOf, AllExclusive, Total, Wrapped64, Descriptors, Copied;
      var taken := DescriptorRound(answer);
      if taken { return true; }
      var n := CopyRound(buffer, answer);
      wrote := n > 0;
    }

    /** SendThreadFunc, with bytes offered before each round: the device's answers are in the log
        in order, those that are not negative are counted, in 64 bits, and nothing is written
        behind the first negative one. It goes on while none was negative, and as long as there
        is something to write every round writes. */
    method SendThreadFunc(buffer: array<Byte>, offers: seq<seq<Byte>>, answers: seq<int>) returns (used: nat)
      requires Valid() && Owned() && running && buffer != sendQueue.buffer && |answers| == |offers|
      requires forall r :: 0 <= r < |offers| ==> |offers[r]| < WORD32
      modifies this`running, this`totalSent, this`device, this`fates, this`byteFates, this`copied,
               descQueue`getIndex, sendQueue`getIndex, sendQueue`putIndex, sendQueue.buffer, buffer, pools
      ensures Valid() && Owned() && used <= |answers|
      ensures old(device) <= device && Answers(device[|old(device)|..]) == answers[..used]
      ensures totalSent == Wrapped64(old(totalSent) + Positive(answers[..used]))
      ensures forall k :: 0 <= k < used - 1 ==> answers[k] >= 0
      ensures running <==> used == 0 || answers[used - 1] >= 0
      ensures running && buffer.Length > 0 && (forall r :: 0 <= r < |offers| ==> 0 < |offers[r]| <= sendQueue.size) ==>
                used == |offers|
    {
      hide *;
      CountIsWord();
      ServedNone(device, totalSent);
      used := 0;
      ghost var before, sent := device, totalSent;
      assert answers[..0] == [];
      var r := 0;
      while r < |offers| && running
        invariant r <= |offers| && used <= r && Valid() && descQueue.Valid() && Owned()
        invariant Served(before, sent, device, totalSent, running, answers[..used])
        invariant buffer.Length > 0 && (forall k :: 0 <= k < r ==> 0 < |offers[k]| <= sendQueue.size) ==> used == r
      {
        var wrote := OfferAndRound(buffer, offers[r], answers[used], before, sent, answers[..used]);
        if wrote {
          assert answers[..used + 1] == answers[..used] + [answers[used]];
          used := used + 1;
        }
        r := r + 1;
      }
      ServedMeans(before, sent, device, totalSent, running, answers[..used]);
    }

    lemma CountIsWord()
      requires Valid()
      ensures totalSent < WORD64 && descQueue.Valid()
    {}

    /** One turn of the worker, behind an offer of bytes. */
    method OfferAndRound(buffer: array<Byte>, bytes: seq<Byte>, answer: int, ghost before: seq<Write>, ghost sent: nat,
                         ghost answered: seq<int>)
      returns (wrote: bool)
      requires Valid() && Owned() && running && buffer != sendQueue.buffer && |bytes| < WORD32
      requires Served(before, sent, device, totalSent, running, answered)
      modifies this`running, this`totalSent, this`device, this`fates, this`byteFates, this`copied,
               descQueue`getIndex, sendQueue`getIndex, sendQueue`putIndex, sendQueue.buffer, buffer, pools
      ensures Valid() && descQueue.Valid() && Owned()
      ensures Served(before, sent, device, totalSent, running, if wrote then answered + [answer] else answered)
      ensures 0 < |bytes| <= sendQueue.size && buffer.Length > 0 ==> wrote
    {
      hide OwnedQueue, Accounted, BlocksOf, FreeOf, AllExclusive, Total, Wrapped64, Descriptors, Copied, Served;
      var ok := TryCopy(0, bytes, false);
      ghost var next := NextWrite(buffer.Length, answer);
      if next.Some? { ServedOne(before, sent, device, totalSent, answered, next.value); }
      ghost var log := device;
      wrote := SendRound(buffer, answer);
      assert !wrote ==> device == log;
      assert wrote ==> device == log + [next.value] && next.value.answer == answer;
    }

    /** Reset: both queues are emptied and the count restarts. Queued blocks are not given
        back: they stay off the free lists until the pools themselves are reset. */
    method Reset()
      requires Valid() && Owned()
      modifies this`totalSent, this`fates, this`byteFates, this`base, descQueue`getIndex, descQueue`putIndex,
               sendQueue`getIndex, sendQueue`putIndex
      ensures Valid() && Owned() && totalSent == 0
      ensures descQueue.Contents() == [] && sendQueue.Contents() == []
      ensures fates == old(fates + All(|descQueue.Contents()|, Dropped))
      ensures byteFates == old(byteFates + All(|sendQueue.Contents()|, Dropped))
      ensures Free() == old(Free())
    {
      hide OwnedQueue, All, Accounted, Descriptors, Copied, Total, Wrapped64, BlocksOf, FreeOf, AllExclusive;
      EmptyBytes();
      EmptyDescriptors(descQueue.Contents());
      RestartCount();
    }

    method RestartCount()
      requires Valid()
      modifies this`totalSent, this`base
      ensures Valid() && totalSent == 0 && base == |device|
    {
      assert device[|device|..] == [] && Total([]) == Wrapped64(0) == 0;
      hide Accounted, Descriptors, Copied, Total, Wrapped64;
      totalSent := 0;
      base := |device|;
    }

    /** The byte queue is emptied. */
    method EmptyBytes()
      requires Valid()
      modifies this`byteFates, sendQueue`getIndex, sendQueue`putIndex
      ensures Valid() && sendQueue.Contents() == []
      ensures byteFates == old(byteFates + All(|sendQueue.Contents()|, Dropped))
    {
      AccountDropped(copied, byteFates, sendQueue.Contents(), Copied(device));
      hide All, Accounted, Descriptors, Copied, Total, Wrapped64;
      byteFates := byteFates + All(|sendQueue.Contents()|, Dropped);
      sendQueue.Reset();
      assert sendQueue.Contents() == [];
    }

    /** The descriptor queue, which last held q, is emptied. */
    method EmptyDescriptors(ghost q: seq<Descriptor>)
      requires QueuesValid() && PoolsValid()
      requires Accounted(queued, fates, q, Descriptors(device))
      requires Accounted(copied, byteFates, sendQueue.Contents(), Copied(device))
      requires base <= |device| && totalSent == Wrapped64(Total(device[base..]))
      modifies this`fates, descQueue`getIndex, descQueue`putIndex
      ensures Valid() && Owned() && descQueue.Contents() == []
      ensures fates == old(fates) + All(|q|, Dropped)
      ensures sendQueue.Contents() == old(sendQueue.Contents())
    {
      AccountDropped(queued, fates, q, Descriptors(device));
      hide OwnedQueue, All, Accounted, Descriptors, Copied, Total, Wrapped64, BlocksOf, FreeOf, AllExclusive;
      fates := fates + All(|q|, Dropped);
      descQueue.Reset();
      assert descQueue.Contents() == [];
      EmptyIsOwned(Blocks(), Free());
    }

    /** SetBufferPool: taking the pool away drains the queue first, so that every queued block
        goes back to the pool it came from. A new pool leaves the queue as it is: the blocks
        of the old one stay queued, and go back to the old one. */
    method SetBufferPool(pool: AlignedBufferPool?)
      requires Valid() && Owned()
      requires pool != null ==> pool.Exclusive()
      modifies this`pools, this`fates, this`bufferPool, descQueue`getIndex, descQueue`putIndex, pools
      ensures Valid() && Owned() && bufferPool == pool && old(pools) <= pools
      ensures pool != null ==> descQueue.Contents() == old(descQueue.Contents()) && fates == old(fates)
      ensures pool != null ==> forall p :: p in old(pools) ==> p.Free() == old(p.Free())
      ensures pool == null ==> descQueue.Contents() == [] && pools == old(pools)
      ensures pool == null ==> Free() == old(Free()) + Keys(old(descQueue.Contents()))
    {
      hide OwnedQueue, Accounted, Keys, BlocksOf, FreeOf, Descriptors, Copied, Total, Wrapped64;
      if pool == null {
        DrainDescriptorQueue();
        bufferPool := null;
      } else {
        UsePool(pool);
      }
    }

    method UsePool(pool: AlignedBufferPool)
      requires Valid() && Owned() && pool.Exclusive()
      modifies this`pools, this`bufferPool
      ensures Valid() && Owned() && bufferPool == pool && pools == old(pools) + {pool}
    {
      hide OwnedQueue, Accounted, BlocksOf, FreeOf, Descriptors, Copied, Total, Wrapped64;
      MorePools(pools, pool);
      OwnedMorePools(descQueue.Contents(), Blocks(), Free(), BlocksOf(pools + {pool}), FreeOf(pools + {pool}));
      pools := pools + {pool};
      bufferPool := pool;
    }

    /** DrainDescriptorQueue: every queued block goes back to its pool. */
    method DrainDescriptorQueue()
      requires Valid() && Owned()
      modifies this`fates, descQueue`getIndex, descQueue`putIndex, pools
      ensures Valid() && Owned() && Blocks() == old(Blocks()) && descQueue.Contents() == []
      ensures fates == old(fates + All(|descQueue.Contents()|, Dropped))
      ensures Free() == old(Free()) + Keys(old(descQueue.Contents()))
    {
      hide OwnedQueue, All, Keys, Accounted, Descriptors, Copied, Total, Wrapped64, BlocksOf, FreeOf, AllExclusive;
      ghost var q := descQueue.Contents();
      DrainAll();
      EmptyDescriptors(q);
    }

    /** The draining loop. */
    method DrainAll()
      requires QueuesValid() && Owned()
      modifies descQueue`getIndex, pools
      ensures QueuesValid() && PoolsValid() && Blocks() == old(Blocks())
      ensures sendQueue.Contents() == old(sendQueue.Contents())
      ensures Free() == old(Free()) + Keys(old(descQueue.Contents()))
    {
      assert descQueue.Valid() && sendQueue.Valid() && PoolsValid();
      ghost var all := Free() + Keys(descQueue.Contents());
      hide *;
      var taken := true;
      while taken
        invariant QueuesValid() && descQueue.Valid() && sendQueue.Valid() && Owned() && PoolsValid()
        invariant Blocks() == old(Blocks()) && sendQueue.Contents() == old(sendQueue.Contents())
        invariant !taken ==> descQueue.Contents() == []
        invariant Free() + Keys(descQueue.Contents()) == all
        decreases |descQueue.Contents()|, taken
      {
        taken := DrainOne();
      }
      NoKeys();
    }

    /** One block from the queue to its free list. */
    method DrainOne() returns (taken: bool)
      requires QueuesValid() && Owned()
      modifies descQueue`getIndex, pools
      ensures QueuesValid() && Owned() && PoolsValid() && Blocks() == old(Blocks())
      ensures descQueue.Valid() && sendQueue.Valid() && sendQueue.Contents() == old(sendQueue.Contents())
      ensures taken == (old(descQueue.Contents()) != [])
      ensures |descQueue.Contents()| == |old(descQueue.Contents())| - if taken then 1 else 0
      ensures Free() + Keys(descQueue.Contents()) == old(Free() + Keys(descQueue.Contents()))
    {
      hide OwnedQueue, Keys, BlocksOf, FreeOf, AllExclusive;
      var desc;
      taken, desc := TakeDescriptor();
      if !taken { return; }
      KeysFirst(desc, descQueue.Contents());
      ReleaseHeld(desc.context, desc.ptr);
    }
  }

  lemma ServedMeans(before: seq<Write>, sent: nat, log: seq<Write>, total: nat, running: bool, answers: seq<int>)
    requires Served(before, sent, log, total, running, answers)
    ensures before <= log && Answers(log[|before|..]) == answers && total == Wrapped64(sent + Positive(answers))
    ensures forall k :: 0 <= k < |answers| - 1 ==> answers[k] >= 0
    ensures running <==> answers == [] || answers[|answers| - 1] >= 0
  {}

  lemma MorePools(pools: set<AlignedBufferPool>, pool: AlignedBufferPool)
    requires AllExclusive(pools) && pool.Exclusive()
    ensures AllExclusive(pools + {pool}) && BlocksOf(pools) <= BlocksOf(pools + {pool})
    ensures FreeOf(pools + {pool}) * BlocksOf(pools) <= FreeOf(pools)
  {}

  /** The blocks of a list of descriptors. */
  ghost function Keys(q: seq<Descriptor>): set<Key> {
    set i | 0 <= i < |q| && q[i].context != null :: KeyOf(q[i])
  }

  lemma KeysFirst(desc: Descriptor, rest: seq<Descriptor>)
    requires desc.context != null
    ensures Keys([desc] + rest) == {KeyOf(desc)} + Keys(rest)
  {
    var l, r := Keys([desc] + rest), {KeyOf(desc)} + Keys(rest);
    assert ([desc] + rest)[0] == desc;
    forall k | k in Keys(rest) ensures k in l {
      var i :| 0 <= i < |rest| && rest[i].context != null && KeyOf(rest[i]) == k;
      assert ([desc] + rest)[i + 1] == rest[i];
    }
  }

  lemma NoKeys()
    ensures Keys([]) == {}
  {}

  lemma EmptyIsOwned(blocks: set<Key>, free: set<Key>)
    ensures OwnedQueue([], blocks, free)
  {}

  /** At any time the device has seen, in order, exactly those accepted descriptors that left
      the queue undrained: a prefix of the accepted ones up to the first that was drained or
      reset away. The same for the copied bytes, however the copies were cut into writes. */
  lemma DeviceSeesPrefixes(c: DmaChannelLinux, m: nat, n: nat)
    requires c.Valid() && m <= |c.fates| && n <= |c.byteFates|
    requires (forall k :: 0 <= k < m ==> c.fates[k].Written?) && forall k :: 0 <= k < n ==> c.byteFates[k].Written?
    ensures c.queued[..m] <= Descriptors(c.device) && c.copied[..n] <= Copied(c.device)
    ensures m == |c.fates| ==> Descriptors(c.device) == c.queued[..m] <= c.queued
    ensures n == |c.byteFates| ==> Copied(c.device) == c.copied[..n] <= c.copied
    ensures |Descriptors(c.device)| + Drops(c.fates) + |c.descQueue.Contents()| == |c.queued|
    ensures |Copied(c.device)| + Drops(c.byteFates) + |c.sendQueue.Contents()| == |c.copied|
  {
    KeptPrefix(c.queued, c.fates, m);
    KeptPrefix(c.copied, c.byteFates, n);
    KeptCount(c.queued, c.fates);
    KeptCount(c.copied, c.byteFates);
  }

  function Lengths(descs: seq<Descriptor>): nat {
    if descs == [] then 0 else Lengths(descs[..|descs| - 1]) + descs[|descs| - 1].length
  }

  /** When the device accepts whole writes, the byte count is what both paths handed over. */
  lemma {:induction false} WholeWritesAddUp(log: seq<Write>)
    requires forall i :: 0 <= i < |log| ==>
      log[i].answer == match log[i] case ByDescriptor(d, _) => d.length case ByCopy(bytes, _) => |bytes|
    ensures Total(log) == Lengths(Descriptors(log)) + |Copied(log)|
  {
    if log != [] {
      var before, last := log[..|log| - 1], log[|log| - 1];
      WholeWritesAddUp(before);
      var d := Descriptors(before);
      if last.ByDescriptor? {
        assert (d + [last.desc])[..|d|] == d;
        assert Lengths(d + [last.desc]) == Lengths(d) + last.desc.length;
      } else {
        assert d + [] == d;
      }
    }
  }
}
