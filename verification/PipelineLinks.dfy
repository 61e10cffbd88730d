/** The pipeline's steps and the classes agree: on objects that show what a state of the
    pipeline holds, the classes' methods lead to what the state after the step holds. */
module PipelineLinks {
  import opened Basics
  import opened BufferPool
  import DR = DescriptorRing
  import OS = OrderedSlots
  import opened Modular
  import opened Pipeline
  import opened PipelineProofs

  // ---- the descriptor queue ----

  /** Entries of the pipeline's queue as descriptors; block b is at blocks[b]. */
  function Image(blocks: seq<Ptr>, pool: AlignedBufferPool?, entries: seq<Entry>): (q: seq<DR.Descriptor>)
    requires forall k :: 0 <= k < |entries| ==> entries[k].b < |blocks|
    ensures |q| == |entries|
  {
    seq(|entries|, k requires 0 <= k < |entries| => DR.Descriptor(blocks[entries[k].b], entries[k].len, pool))
  }

  ghost predicate ShowsQueue(q: DR.SPSCDescriptorQueue, c: Config, s: State, blocks: seq<Ptr>, pool: AlignedBufferPool?)
    reads q, q.buffer
  {
    && q.Valid() && q.capacity == c.descCapacity && WellFormed(c, s) && |blocks| == Slots(c)
    && q.Contents() == Image(blocks, pool, s.descs[s.taken..])
  }

  /** The state after the block in the listener's hands was queued. */
  ghost function AfterSend(s: State): State
    requires s.output.Delivering? && s.output.b < |s.owner| && s.output.b < |s.mem|
  {
    s.(descs := s.descs + [Entry(s.output.b, s.output.len)], output := Sent,
       owner := s.owner[s.output.b := InDescriptor(|s.descs|)], sent := Deliver(s, ByDescriptor))
  }

  /** Send's attempt on the descriptor queue: it succeeds exactly when the pipeline can send
      by descriptor, and then the queue shows the state after that step. */
  method PutIsSendDescriptor(q: DR.SPSCDescriptorQueue, c: Config, ghost s: State, blocks: seq<Ptr>,
                             pool: AlignedBufferPool?, desc: DR.Descriptor) returns (ok: bool)
    requires ValidConfig(c) && ShowsQueue(q, c, s, blocks, pool) && s.output.Delivering? && s.output.call.Admitted?
    requires desc == DR.Descriptor(blocks[s.output.b], s.output.len, pool)
    modifies q.buffer, q`putIndex
    ensures WellFormed(c, s)
    ensures ok ==> OutputStep(c, s, AfterSend(s), SendDescriptor)
    ensures !ok ==> forall t :: !OutputStep(c, s, t, SendDescriptor)
    ensures q.Valid() && q.capacity == c.descCapacity
    ensures q.Contents() == Image(blocks, pool, if ok then AfterSend(s).descs[s.taken..] else s.descs[s.taken..])
  {
    ghost var entry := Entry(s.output.b, s.output.len);
    assert (s.descs + [entry])[s.taken..] == s.descs[s.taken..] + [entry];
    ImageAppend(blocks, pool, s.descs[s.taken..], entry);
    hide WellFormed, Image;
    ok := q.PutDescriptor(desc);
    assert q.Contents() == old(q.Contents()) + if ok then [desc] else [];
  }

  lemma ImageAppend(blocks: seq<Ptr>, pool: AlignedBufferPool?, entries: seq<Entry>, e: Entry)
    requires e.b < |blocks| && forall k :: 0 <= k < |entries| ==> entries[k].b < |blocks|
    ensures Image(blocks, pool, entries + [e]) == Image(blocks, pool, entries)
        + [DR.Descriptor(blocks[e.b], e.len, pool)]
  {}

  /** The worker's look at the queue: it gets a descriptor exactly when the pipeline can take
      one, and then the one of that step, leaving what the state after it holds. */
  method GetIsDmaTake(q: DR.SPSCDescriptorQueue, c: Config, ghost s: State, blocks: seq<Ptr>, pool: AlignedBufferPool?)
    returns (ok: bool, desc: DR.Descriptor, ghost s': State)
    requires ValidConfig(c) && ShowsQueue(q, c, s, blocks, pool) && s.dma.DmaIdle?
    modifies q`getIndex
    ensures WellFormed(c, s)
    ensures ok ==> DmaStep(c, s, s', DmaTake) && s'.dma.b < |blocks|
                   && desc == DR.Descriptor(blocks[s'.dma.b], s'.dma.len, pool)
    ensures !ok ==> s' == s && forall t :: !DmaStep(c, s, t, DmaTake)
    ensures s'.taken <= |s'.descs| && forall k :: s'.taken <= k < |s'.descs| ==> s'.descs[k].b < |blocks|
    ensures q.Valid() && q.Contents() == Image(blocks, pool, s'.descs[s'.taken..])
  {
    s' := s;
    ghost var entries := s.descs[s.taken..];
    if entries != [] {
      var e := entries[0];
      ImageFirst(blocks, pool, entries);
      s' := s.(taken := s.taken + 1, dma := Writing(e.b, e.len), owner := s.owner[e.b := WithDma]);
      assert s.descs[s.taken + 1..] == entries[1..];
    }
    hide Image;
    ok, desc := q.GetDescriptor();
  }

  lemma ImageFirst(blocks: seq<Ptr>, pool: AlignedBufferPool?, entries: seq<Entry>)
    requires entries != [] && forall k :: 0 <= k < |entries| ==> entries[k].b < |blocks|
    ensures Image(blocks, pool, entries)[0] == DR.Descriptor(blocks[entries[0].b], entries[0].len, pool)
    ensures Image(blocks, pool, entries)[1..] == Image(blocks, pool, entries[1..])
  {}

  // ---- the pool ----

  ghost predicate ShowsPool(pool: AlignedBufferPool, c: Config, s: State)
    reads pool
  {
    pool.Valid() && WellFormed(c, s) && |pool.buffers| == Slots(c) && pool.freeIndices == s.free
  }

  /** A worker's acquire, once its wait is over: it gets a block exactly when the pipeline can
      give it one, the same one, and leaves the free list of the state after the step. */
  method AcquireIsAcquireBlock(pool: AlignedBufferPool, c: Config, ghost s: State, i: nat, stopped: bool)
    returns (block: Option<Ptr>, ghost s': State)
    requires ValidConfig(c) && ShowsPool(pool, c, s) && i < |s.workers| && s.workers[i].HasTask?
    requires stopped == s.stop && !pool.shutdown
    modifies pool`freeIndices
    ensures WellFormed(c, s)
    ensures block.Some? ==>
      && WorkerStep(c, s, s', AcquireBlock(i), i) && i < |s'.workers| && s'.workers[i].HasBuffer?
      && s'.workers[i].b < |pool.buffers| && block.value == pool.buffers[s'.workers[i].b]
    ensures block.None? ==> s' == s && forall t :: !WorkerStep(c, s, t, AcquireBlock(i), i)
    ensures pool.Valid() && pool.freeIndices == s'.free
  {
    s' := s;
    if !s.stop && |s.free| > 0 {
      s' := Acquire(c, s, WithWorker(i)).(workers := s.workers[i := HasBuffer(s.workers[i].r, Top(s))]);
    }
    block := pool.Acquire(stopped);
    if block.Some? { LastOf(s.free, pool.freeIndices, pool.indexByPtr[block.value]); }
  }

  lemma LastOf(all: seq<nat>, rest: seq<nat>, last: nat)
    requires all == rest + [last]
    ensures |all| > 0 && all[|all| - 1] == last && all[..|all| - 1] == rest
  {}

  /** The block that a step gives back, if it gives one back. */
  ghost function GivenBack(s: State, step: Step): Option<nat> {
    match step
    case WorkerStop(i) => if i < |s.workers| && s.workers[i].HasBuffer? then Some(s.workers[i].b) else None
    case ReleaseFailed(i) => if i < |s.workers| && s.workers[i].Failing? then Some(s.workers[i].b) else None
    case OutputRelease => if s.output.Releasing? then Some(s.output.b) else None
    case DmaRelease => if s.dma.DmaReleasing? then Some(s.dma.b) else None
    case DrainRelease => if s.dma.Draining? then Some(s.dma.b) else None
    case _ => None
  }

  /** Every release, by worker, listener, channel or drain, is the pool's Release of that
      block; nothing but these and an acquire changes the free list. */
  method ReleaseIsGivenBack(pool: AlignedBufferPool, c: Config, ghost s: State, ghost s': State, ghost step: Step,
                            ptr: Ptr)
    requires ValidConfig(c) && ShowsPool(pool, c, s) && NextStep(c, s, s', step)
    requires GivenBack(s, step).Some? && GivenBack(s, step).value < |pool.buffers|
    requires ptr == pool.buffers[GivenBack(s, step).value]
    modifies pool`freeIndices
    ensures pool.Valid() && pool.freeIndices == s'.free
  {
    FreeListMoves(c, s, s', step);
    hide WellFormed, NextStep;
    assert pool.indexByPtr[ptr] == GivenBack(s, step).value;
    pool.Release(ptr);
  }

  lemma FreeListMoves(c: Config, s: State, s': State, step: Step)
    requires ValidConfig(c) && WellFormed(c, s) && NextStep(c, s, s', step)
    ensures GivenBack(s, step).Some? ==> s'.free == s.free + [GivenBack(s, step).value]
    ensures GivenBack(s, step).None? && !step.AcquireBlock? ==> s'.free == s.free
  {
    hide ProducerStep, WorkerStep, OutputStep, DmaStep, WellFormed;
    if ProducerStep(c, s, s', step) {
      ProducerFree(c, s, s', step);
    } else if IsWorkerStep(step) && step.i < |s.workers| && WorkerStep(c, s, s', step, step.i) {
      WorkerFree(c, s, s', step);
    } else if OutputStep(c, s, s', step) {
      OutputFree(c, s, s', step);
    } else if DmaStep(c, s, s', step) {
      DmaFree(c, s, s', step);
    }
  }

  lemma ProducerFree(c: Config, s: State, s': State, step: Step)
    requires ValidConfig(c) && ProducerStep(c, s, s', step)
    ensures GivenBack(s, step).None? && s'.free == s.free
  {
    hide SlotIndex, Slots;
  }

  lemma WorkerFree(c: Config, s: State, s': State, step: Step)
    requires ValidConfig(c) && WellFormed(c, s)
    requires IsWorkerStep(step) && step.i < |s.workers| && WorkerStep(c, s, s', step, step.i)
    ensures GivenBack(s, step).Some? ==> s'.free == s.free + [GivenBack(s, step).value]
    ensures GivenBack(s, step).None? && !step.AcquireBlock? ==> s'.free == s.free
  {
    hide WellFormed, SlotIndex, Slots;
  }

  lemma OutputFree(c: Config, s: State, s': State, step: Step)
    requires ValidConfig(c) && WellFormed(c, s) && OutputStep(c, s, s', step)
    ensures s'.free == if GivenBack(s, step).Some? then s.free + [GivenBack(s, step).value] else s.free
  {
    hide SlotIndex, Slots;
  }

  lemma DmaFree(c: Config, s: State, s': State, step: Step)
    requires WellFormed(c, s) && DmaStep(c, s, s', step)
    ensures s'.free == if GivenBack(s, step).Some? then s.free + [GivenBack(s, step).value] else s.free
  {
    hide SlotIndex, Slots;
  }

  // ---- the slot ring ----

  function SlotEntry(s: State, blocks: seq<Ptr>, context: Ptr, j: nat): Option<OS.Entry>
    requires j < |s.filled| == |s.slotBlock| == |s.slotLen| && s.slotBlock[j] < |blocks|
  {
    if s.filled[j] then Some(OS.External(blocks[s.slotBlock[j]], s.slotLen[j], context)) else None
  }

  predicate SlotsNamed(s: State, blocks: seq<Ptr>) {
    && s.next < |s.filled| == |s.slotBlock| == |s.slotLen|
    && forall j :: 0 <= j < |s.slotBlock| ==> s.slotBlock[j] < |blocks|
  }

  /** The slot ring of a state as the processor class shows it: from the output slot on. */
  function SlotView(s: State, blocks: seq<Ptr>, context: Ptr): (v: seq<Option<OS.Entry>>)
    requires SlotsNamed(s, blocks)
    ensures |v| == |s.filled|
  {
    var n := |s.filled|;
    seq(n, k requires 0 <= k < n => SlotEntry(s, blocks, context, OS.Around(s.next, k, n)))
  }

  ghost predicate ShowsSlots(p: OS.COrderedDataProcessor, s: State, blocks: seq<Ptr>, context: Ptr)
    reads p, p.filled, p.dataLength, p.slotBlocks, p.memory
  {
    && p.Valid() && p.external && SlotsNamed(s, blocks) && (forall b :: 0 <= b < |blocks| ==> blocks[b] != 0)
    && p.filled.Length == |s.filled| && p.next == s.next && p.View() == SlotView(s, blocks, context)
  }

  /** ProcessData on a worker's block: it is accepted, and is the worker's three steps. */
  method ProcessDataIsStore(p: OS.COrderedDataProcessor, c: Config, ghost s: State, ghost i: nat,
                            ghost blocks: seq<Ptr>, ghost context: Ptr, block: OS.InputBlock)
    returns (ok: bool, ghost s1: State, ghost s2: State, ghost s3: State)
    requires Inv(c, s) && i < |s.workers| && s.workers[i].HasData?
    requires ShowsSlots(p, s, blocks, context) && |blocks| == Slots(c)
    requires var w := s.workers[i];
      && BlockHeld(w) < |blocks| && block.buffer == blocks[w.b] && block.length == w.len <= block.capacity
      && block.index == SlotIndex(w.r, Slots(c)) && block.context == context && |block.bytes| == block.length
    modifies p.filled, p.dataLength, p.slotBlocks, p.memory
    ensures ok && WellFormed(c, s) && WorkerStep(c, s, s1, CheckSlot(i), i)
    ensures WellFormed(c, s1) && i < |s1.workers| && WorkerStep(c, s1, s2, StoreSlot(i), i)
    ensures WellFormed(c, s2) && i < |s2.workers| && WorkerStep(c, s2, s3, MarkSlot(i), i)
    ensures ShowsSlots(p, s3, blocks, context)
  {
    var n, j := p.filled.Length, block.index;
    s1, s2, s3 := StoreSteps(c, s, i);
    hide Inv, WellFormed, WorkerStep;
    ModSmall(j, n);
    ghost var k := OS.Distance(p.next, j, n);
    FilledView(s, s3, k, n, blocks, context);
    ok := p.ProcessData(block);
  }

  /** The steps of a worker that found its slot empty, taken one after the other. */
  lemma StoreSteps(c: Config, s: State, i: nat) returns (s1: State, s2: State, s3: State)
    requires Inv(c, s) && i < |s.workers| && s.workers[i].HasData?
    ensures ValidConfig(c) && WellFormed(c, s) && WorkerStep(c, s, s1, CheckSlot(i), i)
    ensures WellFormed(c, s1) && i < |s1.workers| && WorkerStep(c, s1, s2, StoreSlot(i), i)
    ensures WellFormed(c, s2) && i < |s2.workers| && WorkerStep(c, s2, s3, MarkSlot(i), i)
    ensures var w, j := s.workers[i], SlotIndex(s.workers[i].r, Slots(c));
      && j < |s.filled| == |s.slotBlock| == |s.slotLen| == Slots(c) && !s.filled[j] && s3.next == s.next
      && s3.filled == s.filled[j := true] && s3.slotBlock == s.slotBlock[j := w.b]
          && s3.slotLen == s.slotLen[j := w.len]
  {
    EmptySlot(c, s, i);
    hide Counting, Staging, Filling, Working, SlotData, Owning, Logging, Bounding, SlotIndex;
    var w, j := s.workers[i], SlotIndex(s.workers[i].r, Slots(c));
    s1 := s.(workers := s.workers[i := Checked(w.r, w.b, w.len)]);
    s2 := s1.(slotBlock := s.slotBlock[j := w.b], slotLen := s.slotLen[j := w.len],
              workers := s1.workers[i := Stored(w.r, w.b, w.len)]);
    s3 := s2.(filled := s.filled[j := true], workers := s2.workers[i := Finished], stage := s.stage[w.r := AtSlot],
              owner := s.owner[w.b := InSlot(j)]);
  }

  lemma FilledView(s: State, t: State, k: nat, n: nat, blocks: seq<Ptr>, context: Ptr)
    requires SlotsNamed(s, blocks) && SlotsNamed(t, blocks) && s.next == t.next && |s.filled| == n && k < n
    requires var j := OS.Around(s.next, k, n);
      !s.filled[j] && t.filled == s.filled[j := true]
      && t.slotBlock == s.slotBlock[j := t.slotBlock[j]] && t.slotLen == s.slotLen[j := t.slotLen[j]]
    ensures SlotView(s, blocks, context)[k] == None
    ensures var j := OS.Around(s.next, k, n);
      SlotView(t, blocks, context)
        == SlotView(s, blocks, context)[k := Some(OS.External(blocks[t.slotBlock[j]], t.slotLen[j], context))]
  {
    forall m | 0 <= m < n && m != k ensures OS.Around(s.next, m, n) != OS.Around(s.next, k, n) {}
  }

  /** The listener has returned; no slot was touched. */
  ghost predicate Returned(s1: State, s2: State) {
    && s2.output.Sent? && s2.next == s1.next && s2.filled == s1.filled
    && s2.slotBlock == s1.slotBlock && s2.slotLen == s1.slotLen
  }

  /** A round of the output thread on a filled slot: the listener gets the block that the
      pipeline's step takes, and the ring then shows the state after clear and advance. */
  method RoundIsDelivery(p: OS.COrderedDataProcessor, c: Config, ghost s: State, ghost s1: State, ghost s2: State,
                         ghost s3: State, ghost s4: State, ghost blocks: seq<Ptr>, ghost context: Ptr)
    requires ValidConfig(c) && WellFormed(c, s) && WellFormed(c, s2) && WellFormed(c, s3)
    requires ShowsSlots(p, s, blocks, context)
    requires OutputStep(c, s, s1, TakeSlot) && Returned(s1, s2)
    requires OutputStep(c, s2, s3, ClearSlot) && OutputStep(c, s3, s4, Advance)
    modifies p`next, p`calls, p.filled, p.slotBlocks
    ensures s1.output.Delivering? && s1.output.b < |blocks|
    ensures p.calls == old(p.calls) + [OS.External(blocks[s1.output.b], s1.output.len, context)]
    ensures ShowsSlots(p, s4, blocks, context)
  {
    OutputRound(c, s, s1, s2, s3, s4);
    hide WellFormed, OutputStep, SlotView;
    TurnedView(s, s4, |s.filled|, blocks, context);
    FirstView(s, blocks, context);
    p.AtOutputSlot();
    ModLap(s.next, 1, |s.filled|);
    var thrown, called := p.ProcessOutputSlot(false);
  }

  lemma FirstView(s: State, blocks: seq<Ptr>, context: Ptr)
    requires SlotsNamed(s, blocks) && s.filled[s.next] && forall b :: 0 <= b < |blocks| ==> blocks[b] != 0
    ensures
      var v, e := SlotView(s, blocks, context), OS.External(blocks[s.slotBlock[s.next]], s.slotLen[s.next], context);
      v[0] == Some(e) && OS.Call(v[0]) == [e]
  {
    assert OS.Around(s.next, 0, |s.filled|) == s.next;
  }

  lemma OutputRound(c: Config, s: State, s1: State, s2: State, s3: State, s4: State)
    requires ValidConfig(c) && WellFormed(c, s) && WellFormed(c, s2) && WellFormed(c, s3)
    requires OutputStep(c, s, s1, TakeSlot) && Returned(s1, s2)
    requires OutputStep(c, s2, s3, ClearSlot) && OutputStep(c, s3, s4, Advance)
    ensures var n := |s.filled|;
      && s.next < n == Slots(c) && s.filled[s.next]
      && s1.output == Delivering(s.slotBlock[s.next], s.slotLen[s.next], Entering)
      && s4.filled == s.filled[s.next := false] && s4.slotBlock == s.slotBlock && s4.slotLen == s.slotLen
      && s4.next == if s.next + 1 < n then s.next + 1 else s.next + 1 - n
  {
    SlotIndexIsMod(s.next + 1, Slots(c));
    ModLap(s.next, 1, Slots(c));
    hide SlotIndex;
  }

  lemma TurnedView(s: State, t: State, n: nat, blocks: seq<Ptr>, context: Ptr)
    requires SlotsNamed(s, blocks) && |s.filled| == n
    requires t.filled == s.filled[s.next := false] && t.slotBlock == s.slotBlock && t.slotLen == s.slotLen
    requires t.next == if s.next + 1 < n then s.next + 1 else s.next + 1 - n
    ensures SlotsNamed(t, blocks) && SlotView(t, blocks, context) == SlotView(s, blocks, context)[1..] + [None]
  {
    forall k | 0 <= k < n ensures SlotView(t, blocks, context)[k] == (SlotView(s, blocks, context)[1..] + [None])[k] {
      OS.AroundNext(s.next, k, n);
    }
  }
}
