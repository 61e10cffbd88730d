/** What every run of the pipeline keeps: delivery order, no slot collision, single
    ownership of every pool block, intact data at the device, and the bound on pending reads. */
module PipelineProofs {
  import opened Modular
  import opened Pipeline

  // ---- derived quantities ----

  /** Blocks whose slot the output thread has passed. */
  function Delivered(s: State): int { |s.sent| - (if Told(s.output) then 1 else 0) }

  predicate Holding(p: Producer) {
    match p
    case Idle => false
    case Done(abandoned) => abandoned
    case _ => true
  }

  /** Requests put on the read queue so far. */
  function Enqueued(s: State): int { s.issued - (if Holding(s.producer) then 1 else 0) }

  /** Requests that got past the issue guard. */
  function Passed(s: State): int {
    s.issued - (if s.producer.AtGuard? || s.producer == Done(true) then 1 else 0)
  }

  /** The output thread is working on slot j. */
  predicate OutputAt(s: State, j: nat) { j == s.next && !s.output.Scanning? }

  /** The request whose data is in filled slot j. While the output thread works on a
      slot, the slot's block may already be in use for something else. */
  function RequestIn(s: State, j: nat): int
    requires j < |s.slotBlock| && s.slotBlock[j] < |s.mem|
  {
    if OutputAt(s, j) then Delivered(s) else s.mem[s.slotBlock[j]].req
  }

  // ---- the invariant, part by part ----

  ghost predicate Counting(c: Config, s: State) {
    && |s.stage| + |s.queue| == Enqueued(s)
    && (forall k :: 0 <= k < |s.queue| ==> s.queue[k] == |s.stage| + k)
    && (s.first <==> s.issued == 0)
    && (s.producer.AtGuard? || s.producer.AtCapacity? || s.producer.Ready? ==> s.producer.r == s.issued - 1)
    && (s.producer == Done(true) ==> s.issued > 0)
    && 0 <= Delivered(s) <= |s.stage|
    && (s.output.Delivering? || Told(s.output) ==> Delivered(s) < |s.stage|)
    && Passed(s) <= Delivered(s) + Slots(c)
    && Slots(c) > 0 && s.next == SlotIndex(Delivered(s), Slots(c))
  }

  ghost predicate Staging(s: State) {
    && (s.ended ==> s.output.Scanning?)
    && (forall r :: 0 <= r < Delivered(s) && r < |s.stage| ==> s.stage[r] == Gone)
    && (s.output.Cleared? ==>
         0 <= Delivered(s) < |s.stage| && s.stage[Delivered(s)] == Gone && s.next < |s.filled| && !s.filled[s.next])
    && (s.output.Delivering? || s.output.Releasing? || s.output.Sent? ==>
         0 <= Delivered(s) < |s.stage| && s.stage[Delivered(s)] == AtSlot && s.next < |s.filled| && s.filled[s.next])
    && (forall i :: 0 <= i < |s.workers| && RequestHeld(s.workers[i]) >= 0 ==>
         RequestHeld(s.workers[i]) < |s.stage| && s.stage[RequestHeld(s.workers[i])] == AtWorker(i))
  }

  ghost predicate Filling(c: Config, s: State)
    requires WellFormed(c, s)
  {
    forall j :: 0 <= j < Slots(c) && s.filled[j] ==>
      var r := RequestIn(s, j);
      0 <= r < |s.stage| && SlotIndex(r, Slots(c)) == j && s.stage[r] == AtSlot
  }

  ghost predicate WorkerData(w: Worker, j: nat, mem: seq<Payload>, filled: seq<bool>, slotBlock: seq<nat>,
                             slotLen: seq<nat>)
    requires BlockHeld(w) < |mem| && j < |filled| == |slotBlock| == |slotLen|
  {
    && (w.HasData? || w.Checked? || w.Stored? ==> mem[w.b] == Payload(w.r, w.len))
    && (w.Checked? || w.Stored? ==> !filled[j])
    && (w.Stored? ==> slotBlock[j] == w.b && slotLen[j] == w.len)
  }

  /** The slot of the request a worker holds. */
  function SlotOf(c: Config, w: Worker): (j: nat)
    requires ValidConfig(c)
    ensures j < Slots(c)
  {
    if RequestHeld(w) >= 0 then SlotIndex(RequestHeld(w), Slots(c)) else 0
  }

  ghost predicate Working(c: Config, s: State)
    requires WellFormed(c, s) && ValidConfig(c)
  {
    forall i :: 0 <= i < |s.workers| ==>
      WorkerData(s.workers[i], SlotOf(c, s.workers[i]), s.mem, s.filled, s.slotBlock, s.slotLen)
  }

  ghost predicate SlotData(c: Config, s: State)
    requires WellFormed(c, s)
  {
    && (forall j :: 0 <= j < Slots(c) && s.filled[j] && !OutputAt(s, j) ==>
         s.mem[s.slotBlock[j]].len == s.slotLen[j])
    && (s.output.Delivering? ==> s.mem[s.output.b].req == Delivered(s) && s.mem[s.output.b].len == s.output.len)
  }

  /** The whereabouts of block b, as the structures that hold blocks show them. */
  ghost predicate BlockAt(s: State, b: nat, p: Place) {
    match p
    case OnFreeList(k) => k < |s.free| && s.free[k] == b
    case WithWorker(i) => i < |s.workers| && BlockHeld(s.workers[i]) == b
    case InSlot(j) =>
      j < |s.filled| && j < |s.slotBlock| && s.filled[j] && s.slotBlock[j] == b && !OutputAt(s, j)
    case WithOutput => (s.output.Delivering? || s.output.Releasing?) && s.output.b == b
    case InDescriptor(k) => s.taken <= k < |s.descs| && s.descs[k].b == b
    case Forgotten(k) => k in s.forgotten && k < |s.descs| && s.descs[k].b == b
    case WithDma => (s.dma.Writing? || s.dma.DmaReleasing? || s.dma.Draining?) && s.dma.b == b
  }

  ghost predicate Owning(c: Config, s: State)
    requires |s.owner| == Slots(c)
  {
    forall b: nat, p :: b < Slots(c) ==> (BlockAt(s, b, p) <==> s.owner[b] == p)
  }

  /** The payloads sent by descriptor, in order. */
  function DescriptorLog(sent: seq<Delivery>): seq<Payload> {
    if sent == [] then [] else
      DescriptorLog(sent[..|sent| - 1]) +
      if sent[|sent| - 1].path.ByDescriptor? then [sent[|sent| - 1].payload] else []
  }

  ghost predicate Logging(c: Config, s: State)
    requires WellFormed(c, s)
  {
    && (forall i :: 0 <= i < |s.sent| ==> s.sent[i].payload.req == i)
    && var log := DescriptorLog(s.sent);
    && |log| == |s.descs|
    && (forall k :: s.taken <= k < |s.descs| ==>
         log[k] == Payload(s.mem[s.descs[k].b].req, s.descs[k].len))
    && (s.dma.Writing? ==> s.taken > 0 && log[s.taken - 1] == Payload(s.mem[s.dma.b].req, s.dma.len))
    && |s.device| <= s.taken && s.device == log[..|s.device|]
    && (s.dma.DmaIdle? || (s.dma.DmaReleasing? && !s.dma.failed) ==> |s.device| == s.taken)
    && (s.dma.Writing? ==> |s.device| == s.taken - 1)
  }

  predicate IsBusy(w: Worker) { !w.Waiting? && !w.Exited? }

  function Busy(ws: seq<Worker>): nat {
    if ws == [] then 0 else Busy(ws[..|ws| - 1]) + if IsBusy(ws[|ws| - 1]) then 1 else 0
  }

  ghost predicate Bounding(c: Config, s: State) {
    && s.pending == |s.queue| + Busy(s.workers)
    && s.pending + (if s.producer.Ready? then 1 else 0) <= c.softLimit
  }

  ghost predicate Inv(c: Config, s: State) {
    && ValidConfig(c) && WellFormed(c, s)
    && Counting(c, s) && Staging(s) && Filling(c, s)
    && Working(c, s) && SlotData(c, s) && Owning(c, s) && Logging(c, s) && Bounding(c, s)
  }

  // ---- initially ----

  lemma {:induction false} NobodyBusy(ws: seq<Worker>)
    requires forall i :: 0 <= i < |ws| ==> ws[i].Waiting?
    ensures Busy(ws) == 0
  {
    if ws != [] { NobodyBusy(ws[..|ws| - 1]); }
  }

  lemma InitInv(c: Config, s: State)
    requires ValidConfig(c) && Init(c, s)
    ensures Inv(c, s)
  {
    NobodyBusy(s.workers);
    InitOwning(c, s);
  }

  lemma InitOwning(c: Config, s: State)
    requires ValidConfig(c) && Init(c, s)
    ensures Owning(c, s)
  {
    forall b: nat, p | b < Slots(c) ensures BlockAt(s, b, p) <==> s.owner[b] == p {
      if p.WithWorker? && p.i < |s.workers| { assert s.workers[p.i].Waiting?; }
    }
  }

  // ---- helpers ----

  lemma SlotDistinct(r: nat, q: nat, n: nat)
    requires n > 0 && r < q < r + n
    ensures SlotIndex(r, n) != SlotIndex(q, n)
  {
    SlotIndexIsMod(r, n);
    SlotIndexIsMod(q, n);
    ModDistinct(r, q, n);
  }

  /** Outstanding requests that share a slot are the same request. */
  lemma SameSlotSameRequest(c: Config, s: State, r: nat, q: nat)
    requires ValidConfig(c) && Counting(c, s) && Staging(s)
    requires r < |s.stage| && q < |s.stage|
    requires s.stage[r] != Gone && (s.stage[q] != Gone || q == Delivered(s))
    requires SlotIndex(r, Slots(c)) == SlotIndex(q, Slots(c))
    ensures r == q
  {
    if r < q { SlotDistinct(r, q, Slots(c)); }
    if q < r { SlotDistinct(q, r, Slots(c)); }
  }

  lemma {:induction false} BusyUpdate(ws: seq<Worker>, i: nat, w: Worker)
    requires i < |ws|
    ensures Busy(ws[i := w]) == Busy(ws)
              - (if IsBusy(ws[i]) then 1 else 0)
              + (if IsBusy(w) then 1 else 0)
  {
    var n := |ws| - 1;
    if i == n {
      assert ws[i := w][..n] == ws[..n];
    } else {
      BusyUpdate(ws[..n], i, w);
      assert ws[i := w][..n] == ws[..n][i := w];
    }
  }

  /** The issue guard lets a request through exactly when it is ahead of the output
      thread by less than one lap. */
  lemma GuardWindow(c: Config, s: State)
    requires ValidConfig(c) && Counting(c, s) && s.producer.AtGuard?
    ensures SlotIndex(s.producer.r, Slots(c)) != s.next <==> 0 < s.producer.r - Delivered(s) < Slots(c)
    ensures 0 <= s.producer.r - Delivered(s) <= Slots(c)
  {
    var d, r, n := Delivered(s), s.producer.r, Slots(c);
    if d < r < d + n { SlotDistinct(d, r, n); }
  }

  ghost predicate Base(c: Config, s: State) {
    ValidConfig(c) && WellFormed(c, s) && Counting(c, s) && Staging(s)
  }

  // ---- producer steps ----

  /** s' differs from s only in what the producer and the stop flags own. */
  ghost predicate FrontOnly(s: State, s': State) {
    s' == s.(issued := s'.issued, first := s'.first, producer := s'.producer, queue := s'.queue,
             pending := s'.pending, stop := s'.stop, quit := s'.quit)
  }

  lemma FrontFrame(c: Config, s: State, s': State)
    requires ValidConfig(c) && WellFormed(c, s) && Staging(s) && Filling(c, s) && Working(c, s) && SlotData(c, s)
    requires FrontOnly(s, s')
    ensures WellFormed(c, s') && Staging(s') && Filling(c, s') && Working(c, s') && SlotData(c, s')
  {}

  lemma FrontFrameOwning(c: Config, s: State, s': State)
    requires WellFormed(c, s) && Owning(c, s) && Logging(c, s) && FrontOnly(s, s')
    ensures WellFormed(c, s') && Owning(c, s') && Logging(c, s')
  {
    forall b: nat, p | b < Slots(c) ensures BlockAt(s', b, p) <==> s'.owner[b] == p {
      assert BlockAt(s, b, p) <==> s.owner[b] == p;
    }
  }

  lemma ProducerCounting(c: Config, s: State, s': State, step: Step)
    requires Base(c, s) && ProducerStep(c, s, s', step)
    ensures FrontOnly(s, s') && Counting(c, s')
  {
    hide WellFormed, Staging;
    if step.GuardPass? { GuardWindow(c, s); }
  }

  lemma ProducerBounding(c: Config, s: State, s': State, step: Step)
    requires ValidConfig(c) && Bounding(c, s) && ProducerStep(c, s, s', step)
    ensures Bounding(c, s')
  {}

  lemma ProducerInv(c: Config, s: State, s': State, step: Step)
    requires Inv(c, s) && ProducerStep(c, s, s', step)
    ensures Inv(c, s')
  {
    hide WellFormed, Counting, Staging, Filling, Working, SlotData, Owning, Logging, Bounding, ProducerStep;
    ProducerCounting(c, s, s', step);
    ProducerBounding(c, s, s', step);
    FrontFrame(c, s, s');
    FrontFrameOwning(c, s, s');
  }

  lemma StopInv(c: Config, s: State, s': State)
    requires Inv(c, s) && s' == s.(stop := s'.stop, quit := s'.quit)
    ensures Inv(c, s')
  {
    FrontFrame(c, s, s');
    FrontFrameOwning(c, s, s');
  }

  // ---- worker steps ----

  lemma WorkerBounding(c: Config, s: State, s': State, step: Step)
    requires ValidConfig(c) && WellFormed(c, s) && Bounding(c, s)
    requires IsWorkerStep(step) && step.i < |s.workers| && WorkerStep(c, s, s', step, step.i)
    ensures Bounding(c, s')
  {
    hide Bounding;
    WorkerPending(c, s, s', step);
    BusyUpdate(s.workers, step.i, s'.workers[step.i]);
    PendingBalance(c, s, s');
  }

  /** pending_tasks_ follows what a worker takes and finishes. */
  ghost predicate PendingFollows(s: State, s': State, i: nat)
    requires i < |s.workers|
  {
    && |s'.workers| == |s.workers| && s'.workers == s.workers[i := s'.workers[i]] && s'.producer == s.producer
    && s'.pending - |s'.queue| - (if IsBusy(s'.workers[i]) then 1 else 0)
       == s.pending - |s.queue| - (if IsBusy(s.workers[i]) then 1 else 0)
    && s'.pending <= s.pending
  }

  lemma WorkerPending(c: Config, s: State, s': State, step: Step)
    requires ValidConfig(c) && WellFormed(c, s)
    requires IsWorkerStep(step) && step.i < |s.workers| && WorkerStep(c, s, s', step, step.i)
    ensures PendingFollows(s, s', step.i)
  {
    hide WellFormed, SlotIndex, Slots;
    if step.AcquireBlock? || step.WorkerStop? || step.ReleaseFailed? {
      hide PendingFollows;
      PoolStepPending(c, s, s', step);
    }
  }

  lemma PoolStepPending(c: Config, s: State, s': State, step: Step)
    requires ValidConfig(c) && WellFormed(c, s) && (step.AcquireBlock? || step.WorkerStop? || step.ReleaseFailed?)
    requires step.i < |s.workers| && WorkerStep(c, s, s', step, step.i)
    ensures PendingFollows(s, s', step.i)
  {
    hide WellFormed, SlotIndex, Slots;
  }

  lemma PendingBalance(c: Config, s: State, s': State)
    requires Bounding(c, s) && s'.producer == s.producer && s'.pending <= s.pending
    requires s'.pending - |s'.queue| - Busy(s'.workers) == s.pending - |s.queue| - Busy(s.workers)
    ensures Bounding(c, s')
  {
    hide Busy;
  }

  /** s' differs from s only in what workers own. */
  ghost predicate WorkersOnly(s: State, s': State) {
    s' == s.(queue := s'.queue, pending := s'.pending, workers := s'.workers, stage := s'.stage, free := s'.free,
             owner := s'.owner, mem := s'.mem, filled := s'.filled, slotBlock := s'.slotBlock, slotLen := s'.slotLen)
  }

  lemma WorkerKeeps(c: Config, s: State, s': State, step: Step)
    requires ValidConfig(c) && WellFormed(c, s)
    requires IsWorkerStep(step) && step.i < |s.workers| && WorkerStep(c, s, s', step, step.i)
    ensures WorkersOnly(s, s')
  {
    hide WellFormed, SlotIndex, Slots;
    if step.AcquireBlock? || step.WorkerStop? || step.ReleaseFailed? { PoolStepKeeps(c, s, s', step); }
  }

  lemma PoolStepKeeps(c: Config, s: State, s': State, step: Step)
    requires ValidConfig(c) && WellFormed(c, s) && (step.AcquireBlock? || step.WorkerStop? || step.ReleaseFailed?)
    requires step.i < |s.workers| && WorkerStep(c, s, s', step, step.i)
    ensures WorkersOnly(s, s')
  {
    hide WellFormed, SlotIndex, Slots;
  }

  /** Worker i changes phase and keeps what it holds. */
  ghost predicate Phase(c: Config, s: State, s': State, i: nat, w: Worker)
    requires WellFormed(c, s) && i < |s.workers|
  {
    && BlockHeld(w) == BlockHeld(s.workers[i]) && RequestHeld(w) == RequestHeld(s.workers[i])
    && s' == s.(workers := s.workers[i := w], pending := s'.pending,
                mem := s'.mem, slotBlock := s'.slotBlock, slotLen := s'.slotLen)
    && |s'.mem| == |s.mem| && |s'.slotBlock| == |s.slotBlock| == |s'.slotLen|
    && forall j :: 0 <= j < |s'.slotBlock| ==> s'.slotBlock[j] < Slots(c)
  }

  lemma PhaseBase(c: Config, s: State, s': State, i: nat, w: Worker)
    requires Base(c, s) && i < |s.workers| && Phase(c, s, s', i, w)
    ensures Base(c, s')
  {}

  /** Blocks stay where they are if the slots of filled entries do. */
  lemma PhaseOwning(c: Config, s: State, s': State, i: nat, w: Worker)
    requires WellFormed(c, s) && Owning(c, s) && i < |s.workers| && Phase(c, s, s', i, w)
    requires forall j :: 0 <= j < Slots(c) && s.filled[j] ==> s'.slotBlock[j] == s.slotBlock[j]
    ensures Owning(c, s')
  {
    forall b: nat, p | b < Slots(c) ensures BlockAt(s', b, p) <==> s'.owner[b] == p {
      assert BlockAt(s, b, p) <==> s.owner[b] == p;
    }
  }

  lemma QuietInv(c: Config, s: State, s': State, step: Step)
    requires Inv(c, s) && (step.ReadFail? || step.CheckSlot? || step.FinishTask?)
    requires step.i < |s.workers| && WorkerStep(c, s, s', step, step.i)
    ensures Inv(c, s')
  {
    hide Counting, Staging, Filling, Working, SlotData, Owning, Logging, Bounding;
    WorkerBounding(c, s, s', step);
    PhaseBase(c, s, s', step.i, s'.workers[step.i]);
    PhaseOwning(c, s, s', step.i, s'.workers[step.i]);
    QuietData(c, s, s', step);
  }

  lemma QuietData(c: Config, s: State, s': State, step: Step)
    requires Base(c, s) && Filling(c, s) && Working(c, s) && SlotData(c, s) && Logging(c, s)
    requires step.ReadFail? || step.CheckSlot? || step.FinishTask?
    requires step.i < |s.workers| && WorkerStep(c, s, s', step, step.i) && WellFormed(c, s')
    ensures Filling(c, s') && Working(c, s') && SlotData(c, s') && Logging(c, s')
  {
    var w' := s'.workers[step.i];
    assert WorkerData(s.workers[step.i], SlotOf(c, s.workers[step.i]), s.mem, s.filled, s.slotBlock, s.slotLen);
    assert WorkerData(w', SlotOf(c, w'), s.mem, s.filled, s.slotBlock, s.slotLen);
    WorkersFrame(c, s, s', step.i, w');
  }

  /** Replacing one worker leaves the ring and the log alone. */
  lemma WorkersFrame(c: Config, s: State, s': State, i: nat, w: Worker)
    requires ValidConfig(c) && WellFormed(c, s) && WellFormed(c, s')
    requires Filling(c, s) && Working(c, s) && SlotData(c, s) && Logging(c, s)
    requires i < |s.workers|
    requires s' == s.(workers := s.workers[i := w], pending := s'.pending, queue := s'.queue,
                      free := s'.free, owner := s'.owner, stage := s'.stage)
    requires forall r :: 0 <= r < |s.stage| && s.stage[r] == AtSlot ==> r < |s'.stage| && s'.stage[r] == AtSlot
    requires BlockHeld(w) < |s.mem| && WorkerData(w, SlotOf(c, w), s.mem, s.filled, s.slotBlock, s.slotLen)
    ensures Filling(c, s') && Working(c, s') && SlotData(c, s') && Logging(c, s')
  {}

  // A read overwrites a block that only the reading worker has.

  lemma ReadInv(c: Config, s: State, s': State, i: nat, n: nat)
    requires Inv(c, s) && i < |s.workers| && WorkerStep(c, s, s', Read(i, n), i)
    ensures Inv(c, s')
  {
    WorkerBounding(c, s, s', Read(i, n));
    PhaseBase(c, s, s', i, s'.workers[i]);
    PhaseOwning(c, s, s', i, s'.workers[i]);
    ReadRing(c, s, s', i, n);
    ReadWorking(c, s, s', i, n);
    ReadLogging(c, s, s', i, n);
  }

  lemma ReadRing(c: Config, s: State, s': State, i: nat, n: nat)
    requires ValidConfig(c) && WellFormed(c, s) && Filling(c, s) && SlotData(c, s) && Owning(c, s)
    requires i < |s.workers| && WorkerStep(c, s, s', Read(i, n), i) && WellFormed(c, s')
    ensures Filling(c, s') && SlotData(c, s')
  {
    var b := s.workers[i].b;
    assert BlockAt(s, b, WithWorker(i));
    forall j | 0 <= j < Slots(c) && s.filled[j] && !OutputAt(s, j) ensures s.slotBlock[j] != b {
      assert BlockAt(s, s.slotBlock[j], InSlot(j));
    }
    if s.output.Delivering? { assert BlockAt(s, s.output.b, WithOutput); }
  }

  lemma ReadWorking(c: Config, s: State, s': State, i: nat, n: nat)
    requires ValidConfig(c) && WellFormed(c, s) && Working(c, s) && Owning(c, s)
    requires i < |s.workers| && WorkerStep(c, s, s', Read(i, n), i) && WellFormed(c, s')
    ensures Working(c, s')
  {
    var b := s.workers[i].b;
    assert BlockAt(s, b, WithWorker(i));
    forall k | 0 <= k < |s.workers| && k != i && BlockHeld(s.workers[k]) >= 0 ensures BlockHeld(s.workers[k]) != b {
      assert BlockAt(s, BlockHeld(s.workers[k]), WithWorker(k));
    }
  }

  lemma ReadLogging(c: Config, s: State, s': State, i: nat, n: nat)
    requires ValidConfig(c) && WellFormed(c, s) && Logging(c, s) && Owning(c, s)
    requires i < |s.workers| && WorkerStep(c, s, s', Read(i, n), i) && WellFormed(c, s')
    ensures Logging(c, s')
  {
    var b := s.workers[i].b;
    assert BlockAt(s, b, WithWorker(i));
    forall k | s.taken <= k < |s.descs| ensures s.descs[k].b != b {
      assert BlockAt(s, s.descs[k].b, InDescriptor(k));
    }
    if s.dma.Writing? { assert BlockAt(s, s.dma.b, WithDma); }
  }

  // Storing into a slot that was seen empty.

  lemma StoreSlotInv(c: Config, s: State, s': State, i: nat)
    requires Inv(c, s) && i < |s.workers| && WorkerStep(c, s, s', StoreSlot(i), i)
    ensures Inv(c, s')
  {
    WorkerBounding(c, s, s', StoreSlot(i));
    StoreSlotEmpty(c, s, i);
    PhaseBase(c, s, s', i, s'.workers[i]);
    PhaseOwning(c, s, s', i, s'.workers[i]);
    StoreSlotRing(c, s, s', i);
    StoreSlotWorking(c, s, s', i);
  }

  lemma StoreSlotEmpty(c: Config, s: State, i: nat)
    requires ValidConfig(c) && WellFormed(c, s) && Working(c, s) && i < |s.workers|
    requires s.workers[i].Checked? || s.workers[i].Stored?
    ensures !s.filled[SlotIndex(s.workers[i].r, Slots(c))]
  {
    assert WorkerData(s.workers[i], SlotOf(c, s.workers[i]), s.mem, s.filled, s.slotBlock, s.slotLen);
  }

  lemma StoreSlotRing(c: Config, s: State, s': State, i: nat)
    requires ValidConfig(c) && WellFormed(c, s) && Filling(c, s) && SlotData(c, s) && Logging(c, s)
    requires i < |s.workers| && WorkerStep(c, s, s', StoreSlot(i), i) && WellFormed(c, s')
    requires !s.filled[SlotIndex(s.workers[i].r, Slots(c))]
    ensures Filling(c, s') && SlotData(c, s') && Logging(c, s')
  {}

  /** Two workers never hold requests for the same slot. */
  lemma DistinctSlots(c: Config, s: State, i: nat, k: nat)
    requires Base(c, s) && i < |s.workers| && k < |s.workers| && i != k
    requires RequestHeld(s.workers[i]) >= 0 && RequestHeld(s.workers[k]) >= 0
    ensures SlotOf(c, s.workers[i]) != SlotOf(c, s.workers[k])
  {
    if SlotOf(c, s.workers[i]) == SlotOf(c, s.workers[k]) {
      SameSlotSameRequest(c, s, RequestHeld(s.workers[i]), RequestHeld(s.workers[k]));
    }
  }

  lemma StoreSlotWorking(c: Config, s: State, s': State, i: nat)
    requires Base(c, s) && Working(c, s)
    requires i < |s.workers| && WorkerStep(c, s, s', StoreSlot(i), i) && WellFormed(c, s')
    ensures Working(c, s')
  {
    forall k | 0 <= k < |s.workers|
      ensures WorkerData(s'.workers[k], SlotOf(c, s'.workers[k]), s'.mem, s'.filled, s'.slotBlock, s'.slotLen)
    {
      assert WorkerData(s.workers[k], SlotOf(c, s.workers[k]), s.mem, s.filled, s.slotBlock, s.slotLen);
      if k != i && s.workers[k].Stored? { DistinctSlots(c, s, i, k); }
    }
  }

  // Marking the slot passes the block from the worker to the ring.

  lemma MarkSlotInv(c: Config, s: State, s': State, i: nat)
    requires Inv(c, s) && i < |s.workers| && WorkerStep(c, s, s', MarkSlot(i), i)
    ensures Inv(c, s')
  {
    WorkerBounding(c, s, s', MarkSlot(i));
    StoreSlotEmpty(c, s, i);
    MarkSlotNotOutput(c, s, i);
    MarkSlotBase(c, s, s', i);
    MarkSlotRing(c, s, s', i);
    MarkSlotWorking(c, s, s', i);
    MarkSlotOwning(c, s, s', i);
  }

  /** The slot about to be marked is not the one the output thread is working on. */
  lemma MarkSlotNotOutput(c: Config, s: State, i: nat)
    requires Base(c, s) && i < |s.workers| && s.workers[i].Stored?
    requires !s.filled[SlotIndex(s.workers[i].r, Slots(c))]
    ensures !OutputAt(s, SlotIndex(s.workers[i].r, Slots(c)))
  {
    if s.output.Cleared? && SlotIndex(s.workers[i].r, Slots(c)) == s.next {
      SameSlotSameRequest(c, s, s.workers[i].r, Delivered(s));
    }
  }

  lemma MarkSlotBase(c: Config, s: State, s': State, i: nat)
    requires Base(c, s) && i < |s.workers| && WorkerStep(c, s, s', MarkSlot(i), i)
    requires !OutputAt(s, SlotIndex(s.workers[i].r, Slots(c)))
    ensures Base(c, s')
  {
    assert s.stage[s.workers[i].r] == AtWorker(i) by { assert RequestHeld(s.workers[i]) >= 0; }
    MarkSlotStaging(c, s, s', i);
    hide Staging, SlotIndex;
  }

  lemma MarkSlotStaging(c: Config, s: State, s': State, i: nat)
    requires Base(c, s) && i < |s.workers| && WorkerStep(c, s, s', MarkSlot(i), i)
    requires !OutputAt(s, SlotIndex(s.workers[i].r, Slots(c))) && s.stage[s.workers[i].r] == AtWorker(i)
    ensures Staging(s')
  {}

  lemma MarkSlotRing(c: Config, s: State, s': State, i: nat)
    requires Base(c, s) && Filling(c, s) && Working(c, s) && SlotData(c, s) && Logging(c, s)
    requires i < |s.workers| && WorkerStep(c, s, s', MarkSlot(i), i) && WellFormed(c, s')
    requires !OutputAt(s, SlotIndex(s.workers[i].r, Slots(c)))
    ensures Filling(c, s') && SlotData(c, s') && Logging(c, s')
  {
    hide Counting, Staging, Filling, SlotData;
    var w := s.workers[i];
    assert WorkerData(w, SlotOf(c, w), s.mem, s.filled, s.slotBlock, s.slotLen);
    MarkSlotFilling(c, s, s', i, w);
    MarkSlotData(c, s, s', i, w);
  }

  lemma MarkSlotFilling(c: Config, s: State, s': State, i: nat, w: Worker)
    requires Base(c, s) && Filling(c, s) && WellFormed(c, s')
    requires i < |s.workers| && w == s.workers[i] && WorkerStep(c, s, s', MarkSlot(i), i)
    requires s.slotBlock[SlotIndex(w.r, Slots(c))] == w.b && s.mem[w.b].req == w.r
    requires !OutputAt(s, SlotIndex(w.r, Slots(c)))
    ensures Filling(c, s')
  {
    hide Counting;
    assert RequestHeld(w) == w.r < |s.stage|;
  }

  lemma MarkSlotData(c: Config, s: State, s': State, i: nat, w: Worker)
    requires ValidConfig(c) && WellFormed(c, s) && SlotData(c, s) && WellFormed(c, s')
    requires i < |s.workers| && w == s.workers[i] && WorkerStep(c, s, s', MarkSlot(i), i)
    requires var j := SlotIndex(w.r, Slots(c)); s.slotBlock[j] == w.b && s.mem[w.b].len == w.len == s.slotLen[j]
    ensures SlotData(c, s')
  {}

  lemma MarkSlotWorking(c: Config, s: State, s': State, i: nat)
    requires Base(c, s) && Working(c, s)
    requires i < |s.workers| && WorkerStep(c, s, s', MarkSlot(i), i) && WellFormed(c, s')
    ensures Working(c, s')
  {
    forall k | 0 <= k < |s.workers|
      ensures WorkerData(s'.workers[k], SlotOf(c, s'.workers[k]), s'.mem, s'.filled, s'.slotBlock, s'.slotLen)
    {
      assert WorkerData(s.workers[k], SlotOf(c, s.workers[k]), s.mem, s.filled, s.slotBlock, s.slotLen);
      if k != i && RequestHeld(s.workers[k]) >= 0 { DistinctSlots(c, s, i, k); }
    }
  }

  lemma MarkSlotOwning(c: Config, s: State, s': State, i: nat)
    requires ValidConfig(c) && WellFormed(c, s) && Owning(c, s) && Working(c, s)
    requires i < |s.workers| && WorkerStep(c, s, s', MarkSlot(i), i)
    requires !OutputAt(s, SlotIndex(s.workers[i].r, Slots(c)))
    ensures Owning(c, s')
  {
    var b0, j := s.workers[i].b, SlotIndex(s.workers[i].r, Slots(c));
    assert WorkerData(s.workers[i], SlotOf(c, s.workers[i]), s.mem, s.filled, s.slotBlock, s.slotLen);
    assert BlockAt(s, b0, WithWorker(i));
    forall b: nat, p | b < Slots(c) ensures BlockAt(s', b, p) <==> s'.owner[b] == p {
      assert BlockAt(s, b, p) <==> s.owner[b] == p;
    }
  }

  // Taking a task and acquiring a block.

  lemma TakeTaskInv(c: Config, s: State, s': State, i: nat)
    requires Inv(c, s) && i < |s.workers| && WorkerStep(c, s, s', TakeTask(i), i)
    ensures Inv(c, s')
  {
    WorkerBounding(c, s, s', TakeTask(i));
    TakeTaskBase(c, s, s', i);
    WorkersFrame(c, s, s', i, s'.workers[i]);
    TakeTaskOwning(c, s, s', i);
  }

  lemma TakeTaskBase(c: Config, s: State, s': State, i: nat)
    requires Base(c, s) && i < |s.workers| && WorkerStep(c, s, s', TakeTask(i), i)
    ensures Base(c, s')
  {}

  lemma TakeTaskOwning(c: Config, s: State, s': State, i: nat)
    requires ValidConfig(c) && WellFormed(c, s) && Owning(c, s)
    requires i < |s.workers| && WorkerStep(c, s, s', TakeTask(i), i)
    ensures Owning(c, s')
  {
    forall b: nat, p | b < Slots(c) ensures BlockAt(s', b, p) <==> s'.owner[b] == p {
      assert BlockAt(s, b, p) <==> s.owner[b] == p;
    }
  }

  lemma AcquireInv(c: Config, s: State, s': State, i: nat)
    requires Inv(c, s) && i < |s.workers| && WorkerStep(c, s, s', AcquireBlock(i), i)
    ensures Inv(c, s')
  {
    WorkerBounding(c, s, s', AcquireBlock(i));
    AcquireBase(c, s, s', i);
    WorkersFrame(c, s, s', i, s'.workers[i]);
    AcquireOwning(c, s, s', i);
  }

  lemma AcquireBase(c: Config, s: State, s': State, i: nat)
    requires Base(c, s) && i < |s.workers| && WorkerStep(c, s, s', AcquireBlock(i), i)
    ensures Base(c, s')
  {}

  lemma AcquireOwning(c: Config, s: State, s': State, i: nat)
    requires ValidConfig(c) && WellFormed(c, s) && Owning(c, s)
    requires i < |s.workers| && WorkerStep(c, s, s', AcquireBlock(i), i)
    ensures Owning(c, s')
  {
    assert BlockAt(s, Top(s), OnFreeList(|s.free| - 1));
    forall b: nat, p | b < Slots(c) ensures BlockAt(s', b, p) <==> s'.owner[b] == p {
      assert BlockAt(s, b, p) <==> s.owner[b] == p;
    }
  }

  // Giving up a request: stopped or failed.

  lemma LeaveInv(c: Config, s: State, s': State, step: Step)
    requires Inv(c, s) && (step.WorkerStop? || step.ReleaseFailed?)
    requires step.i < |s.workers| && WorkerStep(c, s, s', step, step.i)
    ensures Inv(c, s')
  {
    hide Counting, Staging, Filling, Working, SlotData, Owning, Logging, Bounding;
    WorkerBounding(c, s, s', step);
    LeaveBase(c, s, s', step.i, s'.workers[step.i]);
    WorkersFrame(c, s, s', step.i, s'.workers[step.i]);
    LeaveOwning(c, s, s', step);
  }

  lemma LeaveBase(c: Config, s: State, s': State, i: nat, w: Worker)
    requires Base(c, s) && i < |s.workers| && RequestHeld(s.workers[i]) >= 0
    requires RequestHeld(w) == BlockHeld(w) == -1
    requires s' == s.(workers := s.workers[i := w], pending := s'.pending, free := s'.free, owner := s'.owner,
                      stage := s.stage[RequestHeld(s.workers[i]) := Gone])
    requires |s'.owner| == |s.owner| && forall k :: 0 <= k < |s'.free| ==> s'.free[k] < Slots(c)
    ensures Base(c, s')
    ensures s.stage[RequestHeld(s.workers[i])] == AtWorker(i)
  {}

  lemma LeaveOwning(c: Config, s: State, s': State, step: Step)
    requires ValidConfig(c) && WellFormed(c, s) && Owning(c, s) && (step.WorkerStop? || step.ReleaseFailed?)
    requires step.i < |s.workers| && WorkerStep(c, s, s', step, step.i)
    ensures Owning(c, s')
  {
    var w := s.workers[step.i];
    if BlockHeld(w) >= 0 {
      LeaveWithBlock(c, s, s', step.i, s'.workers[step.i]);
    } else {
      forall b: nat, p | b < Slots(c) ensures BlockAt(s', b, p) <==> s'.owner[b] == p {
        assert BlockAt(s, b, p) <==> s.owner[b] == p;
      }
    }
  }

  lemma LeaveWithBlock(c: Config, s: State, s': State, i: nat, w: Worker)
    requires WellFormed(c, s) && Owning(c, s) && i < |s.workers| && BlockHeld(s.workers[i]) >= 0 && BlockHeld(w) == -1
    requires s' == Release(s, BlockHeld(s.workers[i])).(workers := s.workers[i := w], pending := s'.pending,
                                                        stage := s'.stage)
    ensures Owning(c, s')
  {
    assert BlockAt(s, BlockHeld(s.workers[i]), WithWorker(i));
    forall b: nat, p | b < Slots(c) ensures BlockAt(s', b, p) <==> s'.owner[b] == p {
      assert BlockAt(s, b, p) <==> s.owner[b] == p;
    }
  }

  // ---- output steps ----

  // Taking the output slot: the block in it holds the next request in order.

  lemma TakeSlotIsNext(c: Config, s: State)
    requires Base(c, s) && Filling(c, s) && s.output.Scanning? && s.filled[s.next]
    ensures s.mem[s.slotBlock[s.next]].req == Delivered(s) < |s.stage| && s.stage[Delivered(s)] == AtSlot
  {
    var r := s.mem[s.slotBlock[s.next]].req;
    assert r == RequestIn(s, s.next);
    assert Delivered(s) <= r < Delivered(s) + Slots(c);
    if Delivered(s) < r { SlotDistinct(Delivered(s), r, Slots(c)); }
  }

  lemma TakeSlotInv(c: Config, s: State, s': State)
    requires Inv(c, s) && OutputStep(c, s, s', TakeSlot)
    ensures Inv(c, s')
  {
    TakeSlotIsNext(c, s);
    TakeSlotBase(c, s, s');
    TakeSlotData(c, s, s');
    TakeSlotOwning(c, s, s');
  }

  lemma TakeSlotBase(c: Config, s: State, s': State)
    requires Base(c, s) && OutputStep(c, s, s', TakeSlot)
    requires Delivered(s) < |s.stage| && s.stage[Delivered(s)] == AtSlot
    ensures Base(c, s')
  {}

  lemma TakeSlotData(c: Config, s: State, s': State)
    requires Base(c, s) && Filling(c, s) && Working(c, s) && SlotData(c, s) && Logging(c, s)
    requires OutputStep(c, s, s', TakeSlot) && WellFormed(c, s')
    requires s.mem[s.slotBlock[s.next]].req == Delivered(s)
    ensures Filling(c, s') && Working(c, s') && SlotData(c, s') && Logging(c, s')
  {}

  lemma TakeSlotOwning(c: Config, s: State, s': State)
    requires WellFormed(c, s) && Owning(c, s) && ValidConfig(c) && OutputStep(c, s, s', TakeSlot)
    ensures Owning(c, s')
  {
    assert BlockAt(s, s.slotBlock[s.next], InSlot(s.next));
    forall b: nat, p | b < Slots(c) ensures BlockAt(s', b, p) <==> s'.owner[b] == p {
      assert BlockAt(s, b, p) <==> s.owner[b] == p;
    }
  }

  // A listener call ends: the block is a descriptor, or must be released.

  lemma DescriptorLogSnoc(sent: seq<Delivery>, d: Delivery)
    ensures DescriptorLog(sent + [d]) == DescriptorLog(sent) + if d.path.ByDescriptor? then [d.payload] else []
  {
    assert (sent + [d])[..|sent|] == sent;
  }

  lemma SendBase(c: Config, s: State, s': State, step: Step)
    requires Base(c, s)
    requires (step.SendDescriptor? || step.SendCopy? || step.GiveUp?) && OutputStep(c, s, s', step)
    ensures Base(c, s') && Delivered(s') == Delivered(s) && Told(s'.output)
  {}

  /** The ring and the workers are as they were, and so is the request being delivered. */
  lemma OutputFrame(c: Config, s: State, s': State)
    requires ValidConfig(c) && WellFormed(c, s) && WellFormed(c, s') && Filling(c, s) && Working(c, s) && SlotData(c, s)
    requires s' == s.(descs := s'.descs, free := s'.free, owner := s'.owner, sent := s'.sent, output := s'.output)
    requires Delivered(s') == Delivered(s) && !s.output.Scanning? && Told(s'.output)
    ensures Filling(c, s') && Working(c, s') && SlotData(c, s')
  {}

  lemma SendLogging(c: Config, s: State, s': State, step: Step)
    requires Base(c, s) && SlotData(c, s) && Logging(c, s) && WellFormed(c, s')
    requires (step.SendDescriptor? || step.SendCopy? || step.GiveUp?) && OutputStep(c, s, s', step)
    ensures Logging(c, s')
  {
    hide Staging;
    DescriptorLogSnoc(s.sent, s'.sent[|s.sent|]);
    if step.SendDescriptor? { SendDescriptorLogging(c, s, s'); } else { SendOtherLogging(c, s, s', step); }
  }

  lemma SendDescriptorLogging(c: Config, s: State, s': State)
    requires WellFormed(c, s) && ValidConfig(c) && SlotData(c, s) && Logging(c, s) && WellFormed(c, s')
    requires OutputStep(c, s, s', SendDescriptor)
    requires DescriptorLog(s'.sent) == DescriptorLog(s.sent) + [s'.sent[|s.sent|].payload]
    ensures Logging(c, s')
  {}

  lemma SendOtherLogging(c: Config, s: State, s': State, step: Step)
    requires WellFormed(c, s) && ValidConfig(c) && SlotData(c, s) && Logging(c, s) && WellFormed(c, s')
    requires (step.SendCopy? || step.GiveUp?) && OutputStep(c, s, s', step)
    requires DescriptorLog(s'.sent) == DescriptorLog(s.sent)
    ensures Logging(c, s')
  {}

  lemma SendOwning(c: Config, s: State, s': State, step: Step)
    requires WellFormed(c, s) && Owning(c, s) && ValidConfig(c)
    requires (step.SendDescriptor? || step.SendCopy? || step.GiveUp?) && OutputStep(c, s, s', step)
    ensures Owning(c, s')
  {
    assert BlockAt(s, s.output.b, WithOutput);
    forall b: nat, p | b < Slots(c) ensures BlockAt(s', b, p) <==> s'.owner[b] == p {
      assert BlockAt(s, b, p) <==> s.owner[b] == p;
    }
  }

  lemma SendInv(c: Config, s: State, s': State, step: Step)
    requires Inv(c, s) && (step.SendDescriptor? || step.SendCopy? || step.GiveUp?) && OutputStep(c, s, s', step)
    ensures Inv(c, s')
  {
    SendBase(c, s, s', step);
    OutputFrame(c, s, s');
    SendLogging(c, s, s', step);
    SendOwning(c, s, s', step);
  }

  /** Asking, failing and trying again only change how far the call has come. */
  predicate IsCallStep(step: Step) { step.SeeRunning? || step.SendFails? || step.Retry? || step.OutputEnds? }

  lemma CallInv(c: Config, s: State, s': State, step: Step)
    requires Inv(c, s) && IsCallStep(step) && OutputStep(c, s, s', step)
    ensures Inv(c, s')
  {
    CallOnly(c, s, s', step);
    CallFrame(c, s, s');
    CallOwning(c, s, s');
    hide OutputStep;
  }

  /** s' differs from s only in the call of Send, or in that the output thread has ended. */
  ghost predicate SameButCall(s: State, s': State) {
    && s' == s.(output := s'.output, ended := s'.ended)
    && (s.output.Delivering? || s'.output == s.output)
    && (s.output.Delivering? ==> s'.output.Delivering? && s'.output == s.output.(call := s'.output.call))
    && (s'.ended && !s.ended ==> s'.output.Scanning?)
  }

  lemma CallOnly(c: Config, s: State, s': State, step: Step)
    requires ValidConfig(c) && WellFormed(c, s) && IsCallStep(step) && OutputStep(c, s, s', step)
    ensures SameButCall(s, s')
  {}

  lemma CallFrame(c: Config, s: State, s': State)
    requires ValidConfig(c) && WellFormed(c, s) && SameButCall(s, s')
    requires Counting(c, s) && Staging(s) && Filling(c, s) && Working(c, s) && SlotData(c, s) && Logging(c, s)
    ensures WellFormed(c, s') && Counting(c, s') && Staging(s') && Filling(c, s') && Working(c, s')
    ensures SlotData(c, s') && Logging(c, s')
  {
    CallBase(c, s, s');
    hide Counting, Staging;
  }

  lemma CallBase(c: Config, s: State, s': State)
    requires Base(c, s) && SameButCall(s, s')
    ensures Base(c, s')
  {}

  lemma CallOwning(c: Config, s: State, s': State)
    requires WellFormed(c, s) && Owning(c, s) && SameButCall(s, s')
    ensures Owning(c, s')
  {
    forall b: nat, p | b < Slots(c) ensures BlockAt(s', b, p) <==> s'.owner[b] == p {
      assert BlockAt(s, b, p) <==> s.owner[b] == p;
    }
  }

  // Releasing, clearing and advancing.

  lemma OutputReleaseInv(c: Config, s: State, s': State)
    requires Inv(c, s) && OutputStep(c, s, s', OutputRelease)
    ensures Inv(c, s')
  {
    OutputReleaseBase(c, s, s');
    OutputReleaseLogging(c, s, s');
    OutputFrame(c, s, s');
    OutputReleaseOwning(c, s, s');
  }

  lemma OutputReleaseBase(c: Config, s: State, s': State)
    requires Base(c, s) && OutputStep(c, s, s', OutputRelease)
    ensures Base(c, s')
  {}

  lemma OutputReleaseLogging(c: Config, s: State, s': State)
    requires WellFormed(c, s) && ValidConfig(c) && WellFormed(c, s') && Logging(c, s)
        && OutputStep(c, s, s', OutputRelease)
    ensures Logging(c, s')
  {}

  lemma OutputReleaseOwning(c: Config, s: State, s': State)
    requires WellFormed(c, s) && Owning(c, s) && ValidConfig(c) && OutputStep(c, s, s', OutputRelease)
    ensures Owning(c, s')
  {
    assert BlockAt(s, s.output.b, WithOutput);
    forall b: nat, p | b < Slots(c) ensures BlockAt(s', b, p) <==> s'.owner[b] == p {
      assert BlockAt(s, b, p) <==> s.owner[b] == p;
    }
  }

  lemma ClearSlotInv(c: Config, s: State, s': State)
    requires Inv(c, s) && OutputStep(c, s, s', ClearSlot)
    ensures Inv(c, s')
  {
    ClearSlotBase(c, s, s');
    ClearSlotData(c, s, s');
    ClearOrAdvanceOwning(c, s, s', ClearSlot);
  }

  lemma ClearSlotBase(c: Config, s: State, s': State)
    requires Base(c, s) && OutputStep(c, s, s', ClearSlot)
    ensures Base(c, s')
  {}

  lemma ClearSlotData(c: Config, s: State, s': State)
    requires Base(c, s) && Filling(c, s) && Working(c, s) && SlotData(c, s) && Logging(c, s)
    requires OutputStep(c, s, s', ClearSlot) && WellFormed(c, s')
    ensures Filling(c, s') && Working(c, s') && SlotData(c, s') && Logging(c, s')
  {}

  lemma ClearOrAdvanceOwning(c: Config, s: State, s': State, step: Step)
    requires WellFormed(c, s) && Owning(c, s) && ValidConfig(c) && Staging(s)
    requires (step.ClearSlot? || step.Advance?) && OutputStep(c, s, s', step)
    ensures Owning(c, s')
  {
    forall b: nat, p | b < Slots(c) ensures BlockAt(s', b, p) <==> s'.owner[b] == p {
      assert BlockAt(s, b, p) <==> s.owner[b] == p;
    }
  }

  lemma AdvanceInv(c: Config, s: State, s': State)
    requires Inv(c, s) && OutputStep(c, s, s', Advance)
    ensures Inv(c, s')
  {
    AdvanceBase(c, s, s');
    AdvanceData(c, s, s');
    ClearOrAdvanceOwning(c, s, s', Advance);
  }

  lemma NextSlot(d: nat, n: nat)
    requires n > 0
    ensures SlotIndex(SlotIndex(d, n) + 1, n) == SlotIndex(d + 1, n)
  {
    SlotIndexIsMod(d, n);
    SlotIndexIsMod(d + 1, n);
    SlotIndexIsMod(SlotIndex(d, n) + 1, n);
    ModAdd(d, 1, n);
  }

  lemma AdvanceBase(c: Config, s: State, s': State)
    requires Base(c, s) && OutputStep(c, s, s', Advance)
    ensures Base(c, s')
  {
    NextSlot(Delivered(s), Slots(c));
    AdvanceStaging(c, s, s');
    hide SlotIndex, Slots, Staging;
  }

  lemma AdvanceStaging(c: Config, s: State, s': State)
    requires Base(c, s) && OutputStep(c, s, s', Advance)
    ensures Staging(s') && Delivered(s') == Delivered(s) + 1
  {
    hide SlotIndex, Slots, Counting;
  }

  lemma AdvanceData(c: Config, s: State, s': State)
    requires Base(c, s) && Filling(c, s) && Working(c, s) && SlotData(c, s) && Logging(c, s)
    requires OutputStep(c, s, s', Advance) && WellFormed(c, s')
    ensures Filling(c, s') && Working(c, s') && SlotData(c, s') && Logging(c, s')
  {
    forall j | 0 <= j < Slots(c) && s'.filled[j] ensures RequestIn(s', j) == RequestIn(s, j) {
      assert j != s.next;
    }
  }

  // ---- DMA steps ----

  /** s' differs from s only in what the channel's worker owns. */
  ghost predicate ChannelOnly(s: State, s': State) {
    s' == s.(descs := s'.descs, taken := s'.taken, running := s'.running, dma := s'.dma,
             device := s'.device, forgotten := s'.forgotten, free := s'.free, owner := s'.owner)
  }

  lemma ChannelFrame(c: Config, s: State, s': State)
    requires ValidConfig(c) && WellFormed(c, s) && WellFormed(c, s') && ChannelOnly(s, s')
    requires Counting(c, s) && Staging(s) && Filling(c, s) && Working(c, s) && SlotData(c, s)
    ensures Counting(c, s') && Staging(s') && Filling(c, s') && Working(c, s') && SlotData(c, s')
  {}

  lemma DmaWellFormed(c: Config, s: State, s': State, step: Step)
    requires WellFormed(c, s) && DmaStep(c, s, s', step)
    ensures WellFormed(c, s') && ChannelOnly(s, s')
  {
    hide DmaStep, WellFormed;
    if step.QueueReset? {
      ResetWellFormed(c, s, s');
    } else if step.DmaTake? || step.Drain? {
      DmaTakeWellFormed(c, s, s', step);
    } else if step.DmaRelease? || step.DrainRelease? {
      DmaReleaseWellFormed(c, s, s', step);
    } else {
      QuietShape(c, s, s', step);
      QuietWellFormed(c, s, s');
    }
  }

  /** The block that the channel's worker, or the drain, is working on. */
  function DmaBlock(d: Dma): int {
    match d
    case Writing(b, _) => b
    case DmaReleasing(b, _) => b
    case Draining(b) => b
    case _ => -1
  }

  predicate MovesBlocks(step: Step) {
    step.DmaTake? || step.Drain? || step.DmaRelease? || step.DrainRelease? || step.QueueReset?
  }

  /** Other steps of the channel leave all blocks where they are. */
  ghost predicate NothingMoved(s: State, s': State) {
    s' == s.(dma := s'.dma, running := s'.running, device := s'.device) && DmaBlock(s'.dma) == DmaBlock(s.dma)
  }

  lemma QuietShape(c: Config, s: State, s': State, step: Step)
    requires WellFormed(c, s) && DmaStep(c, s, s', step) && !MovesBlocks(step)
    ensures NothingMoved(s, s')
  {
    hide WellFormed;
  }

  lemma QuietWellFormed(c: Config, s: State, s': State)
    requires WellFormed(c, s) && NothingMoved(s, s')
    ensures WellFormed(c, s') && ChannelOnly(s, s')
  {}

  lemma ResetWellFormed(c: Config, s: State, s': State)
    requires WellFormed(c, s) && DmaStep(c, s, s', QueueReset)
    ensures WellFormed(c, s') && ChannelOnly(s, s')
  {}

  lemma DmaTakeWellFormed(c: Config, s: State, s': State, step: Step)
    requires WellFormed(c, s) && (step.DmaTake? || step.Drain?) && DmaStep(c, s, s', step)
    ensures WellFormed(c, s') && ChannelOnly(s, s')
  {}

  lemma DmaReleaseWellFormed(c: Config, s: State, s': State, step: Step)
    requires WellFormed(c, s) && (step.DmaRelease? || step.DrainRelease?) && DmaStep(c, s, s', step)
    ensures WellFormed(c, s') && ChannelOnly(s, s')
  {}

  lemma DmaLogging(c: Config, s: State, s': State, step: Step)
    requires WellFormed(c, s) && Logging(c, s) && DmaStep(c, s, s', step) && WellFormed(c, s')
    ensures Logging(c, s')
  {
    hide DmaStep, WellFormed, Logging;
    if step.DmaTake? || step.Drain? {
      DmaTakeLogging(c, s, s', step);
    } else if step.DmaRelease? || step.DrainRelease? {
      DmaReleaseLogging(c, s, s', step);
    } else if step.DmaWrite? || step.QueueReset? {
      DmaWriteLogging(c, s, s', step);
    } else {
      QuietLogging(c, s, s', step);
    }
  }

  lemma DmaWriteLogging(c: Config, s: State, s': State, step: Step)
    requires WellFormed(c, s) && Logging(c, s) && DmaStep(c, s, s', step) && WellFormed(c, s')
    requires step.DmaWrite? || step.QueueReset?
    ensures Logging(c, s')
  {}

  lemma QuietLogging(c: Config, s: State, s': State, step: Step)
    requires WellFormed(c, s) && Logging(c, s) && DmaStep(c, s, s', step) && WellFormed(c, s')
    requires !MovesBlocks(step) && !step.DmaWrite?
    ensures Logging(c, s')
  {
    QuietDma(c, s, s', step);
    hide DmaStep, DescriptorLog;
  }

  lemma QuietDma(c: Config, s: State, s': State, step: Step)
    requires WellFormed(c, s) && DmaStep(c, s, s', step) && !MovesBlocks(step) && !step.DmaWrite?
    ensures s' == s.(dma := s'.dma, running := s'.running) && !s'.dma.DmaIdle? && !s'.dma.Writing?
    ensures s'.dma.DmaReleasing? ==> s'.dma.failed
  {
    hide WellFormed;
  }

  lemma DmaReleaseLogging(c: Config, s: State, s': State, step: Step)
    requires WellFormed(c, s) && Logging(c, s) && DmaStep(c, s, s', step) && WellFormed(c, s')
    requires step.DmaRelease? || step.DrainRelease?
    ensures Logging(c, s')
  {}

  lemma DmaTakeLogging(c: Config, s: State, s': State, step: Step)
    requires WellFormed(c, s) && Logging(c, s) && DmaStep(c, s, s', step) && WellFormed(c, s')
    requires step.DmaTake? || step.Drain?
    ensures Logging(c, s')
  {}

  lemma DmaOwning(c: Config, s: State, s': State, step: Step)
    requires WellFormed(c, s) && WellFormed(c, s') && Owning(c, s) && DmaStep(c, s, s', step)
    ensures Owning(c, s')
  {
    hide BlockAt, DmaStep, WellFormed;
    if step.DmaTake? || step.Drain? {
      DmaTakeOwning(c, s, s', step);
    } else if step.DmaRelease? || step.DrainRelease? {
      DmaReleaseOwning(c, s, s', step);
    } else if step.QueueReset? {
      ResetOwning(c, s, s');
    } else {
      QuietShape(c, s, s', step);
      QuietOwning(c, s, s');
    }
  }

  lemma QuietOwning(c: Config, s: State, s': State)
    requires WellFormed(c, s) && WellFormed(c, s') && Owning(c, s) && NothingMoved(s, s')
    ensures Owning(c, s')
  {
    hide BlockAt;
    forall b: nat, p | b < Slots(c) ensures BlockAt(s', b, p) <==> s'.owner[b] == p {
      QuietBlock(s, s', b, p);
      assert BlockAt(s, b, p) <==> s.owner[b] == p;
    }
  }

  lemma QuietBlock(s: State, s': State, b: nat, p: Place)
    requires NothingMoved(s, s')
    ensures BlockAt(s', b, p) <==> BlockAt(s, b, p)
  {}

  lemma ResetOwning(c: Config, s: State, s': State)
    requires WellFormed(c, s) && Owning(c, s) && DmaStep(c, s, s', QueueReset)
    ensures Owning(c, s')
  {
    forall b: nat, p | b < Slots(c) ensures BlockAt(s', b, p) <==> s'.owner[b] == p {
      ResetMoves(c, s, s', b, p);
      assert BlockAt(s, b, p) <==> s.owner[b] == p;
      if p.Forgotten? { assert BlockAt(s, b, InDescriptor(p.k)) <==> s.owner[b] == InDescriptor(p.k); }
      assert s'.owner[b] == if s.owner[b].InDescriptor? then Forgotten(s.owner[b].k) else s.owner[b];
      hide BlockAt, WellFormed, DmaStep, Owning;
    }
  }

  /** The reset moves what is in a descriptor to forgotten, and nothing else. */
  lemma ResetMoves(c: Config, s: State, s': State, b: nat, p: Place)
    requires WellFormed(c, s) && DmaStep(c, s, s', QueueReset)
    ensures BlockAt(s', b, p) <==>
      (!p.InDescriptor? && BlockAt(s, b, p)) || (p.Forgotten? && BlockAt(s, b, InDescriptor(p.k)))
  {}

  lemma DmaTakeOwning(c: Config, s: State, s': State, step: Step)
    requires WellFormed(c, s) && Owning(c, s) && (step.DmaTake? || step.Drain?) && DmaStep(c, s, s', step)
    ensures Owning(c, s')
  {
    assert BlockAt(s, s.descs[s.taken].b, InDescriptor(s.taken));
    forall b: nat, p | b < Slots(c) ensures BlockAt(s', b, p) <==> s'.owner[b] == p {
      assert BlockAt(s, b, p) <==> s.owner[b] == p;
    }
  }

  lemma DmaReleaseOwning(c: Config, s: State, s': State, step: Step)
    requires WellFormed(c, s) && Owning(c, s) && (step.DmaRelease? || step.DrainRelease?) && DmaStep(c, s, s', step)
    ensures Owning(c, s')
  {
    assert BlockAt(s, s.dma.b, WithDma);
    forall b: nat, p | b < Slots(c) ensures BlockAt(s', b, p) <==> s'.owner[b] == p {
      assert BlockAt(s, b, p) <==> s.owner[b] == p;
    }
  }

  lemma DmaInv(c: Config, s: State, s': State, step: Step)
    requires Inv(c, s) && DmaStep(c, s, s', step)
    ensures Inv(c, s')
  {
    hide Counting, Staging, Filling, Working, SlotData, Owning, Logging, DmaStep;
    DmaWellFormed(c, s, s', step);
    ChannelFrame(c, s, s');
    DmaLogging(c, s, s', step);
    DmaOwning(c, s, s', step);
  }

  // ---- every step, every run ----

  lemma WorkerInv(c: Config, s: State, s': State, step: Step)
    requires Inv(c, s) && IsWorkerStep(step) && step.i < |s.workers| && WorkerStep(c, s, s', step, step.i)
    ensures Inv(c, s')
  {
    hide Inv, WorkerStep;
    match step
    case TakeTask(i) => TakeTaskInv(c, s, s', i);
    case AcquireBlock(i) => AcquireInv(c, s, s', i);
    case WorkerStop(_) | ReleaseFailed(_) => LeaveInv(c, s, s', step);
    case Read(i, n) => ReadInv(c, s, s', i, n);
    case ReadFail(_) | CheckSlot(_) | FinishTask(_) => QuietInv(c, s, s', step);
    case StoreSlot(i) => StoreSlotInv(c, s, s', i);
    case MarkSlot(i) => MarkSlotInv(c, s, s', i);
  }

  lemma OutputInv(c: Config, s: State, s': State, step: Step)
    requires Inv(c, s) && OutputStep(c, s, s', step)
    ensures Inv(c, s')
  {
    hide Inv;
    match step
    case TakeSlot => TakeSlotInv(c, s, s');
    case SendDescriptor | SendCopy | GiveUp => SendInv(c, s, s', step);
    case SeeRunning | SendFails | Retry | OutputEnds => CallInv(c, s, s', step);
    case OutputRelease => OutputReleaseInv(c, s, s');
    case ClearSlot => ClearSlotInv(c, s, s');
    case Advance => AdvanceInv(c, s, s');
  }

  lemma StepInv(c: Config, s: State, s': State, step: Step)
    requires Inv(c, s) && NextStep(c, s, s', step)
    ensures Inv(c, s')
  {
    hide Counting, Staging, Filling, Working, SlotData, Owning, Logging, Bounding, ProducerStep, WorkerStep,
        OutputStep, DmaStep;
    if ProducerStep(c, s, s', step) {
      ProducerInv(c, s, s', step);
    } else if s' == s.(stop := s'.stop, quit := s'.quit) {
      StopInv(c, s, s');
    } else if IsWorkerStep(step) && step.i < |s.workers| && WorkerStep(c, s, s', step, step.i) {
      WorkerInv(c, s, s', step);
    } else if OutputStep(c, s, s', step) {
      OutputInv(c, s, s', step);
    } else {
      DmaInv(c, s, s', step);
    }
  }

  lemma {:induction false} RunInv(c: Config, tr: seq<State>, i: nat)
    requires ValidConfig(c) && Run(c, tr) && i < |tr|
    ensures Inv(c, tr[i])
    decreases i, 0
  {
    hide Inv, Init, NextStep;
    if i == 0 {
      InitInv(c, tr[0]);
    } else {
      var step := StepAt(c, tr, i - 1);
      StepInv(c, tr[i - 1], tr[i], step);
    }
  }

  lemma StepAt(c: Config, tr: seq<State>, i: nat) returns (step: Step)
    requires ValidConfig(c) && Run(c, tr) && i < |tr| - 1
    ensures Inv(c, tr[i]) && NextStep(c, tr[i], tr[i + 1], step)
    decreases i, 1
  {
    hide Inv, NextStep, Init;
    RunInv(c, tr, i);
    assert Next(c, tr[i], tr[i + 1]);
    step :| NextStep(c, tr[i], tr[i + 1], step);
  }

  // ---- what runs guarantee ----

  /** The listener is called for requests 0, 1, 2, ... in order, once each, and sees
      the bytes that were read for the request, however reads were reordered. */
  lemma DeliveredInOrder(c: Config, tr: seq<State>, i: nat)
    requires ValidConfig(c) && Run(c, tr) && i < |tr|
    ensures forall k :: 0 <= k < |tr[i].sent| ==> tr[i].sent[k].payload.req == k
    ensures tr[i].output.Delivering? ==>
      tr[i].output.b < |tr[i].mem| && tr[i].mem[tr[i].output.b] == Payload(|tr[i].sent|, tr[i].output.len)
  {
    RunInv(c, tr, i);
  }

  /** Requests past the guard and not yet delivered number at most one lap and occupy
      distinct slots. */
  lemma OutstandingFitRing(c: Config, tr: seq<State>, i: nat, r: nat, q: nat)
    requires ValidConfig(c) && Run(c, tr) && i < |tr|
    requires Delivered(tr[i]) <= r < q < Passed(tr[i])
    ensures Passed(tr[i]) - Delivered(tr[i]) <= Slots(c)
    ensures SlotIndex(r, Slots(c)) != SlotIndex(q, Slots(c))
  {
    RunInv(c, tr, i);
    SlotDistinct(r, q, Slots(c));
  }

  /** ProcessData never meets an occupied slot. */
  lemma SlotIsEmpty(c: Config, tr: seq<State>, i: nat, k: nat)
    requires ValidConfig(c) && Run(c, tr) && i < |tr| && k < |tr[i].workers| && tr[i].workers[k].HasData?
    ensures var s := tr[i]; var j := SlotIndex(s.workers[k].r, Slots(c)); j < |s.filled| && !s.filled[j]
  {
    RunInv(c, tr, i);
    EmptySlot(c, tr[i], k);
  }

  lemma EmptySlot(c: Config, s: State, k: nat)
    requires Inv(c, s) && k < |s.workers| && s.workers[k].HasData?
    ensures !s.filled[SlotIndex(s.workers[k].r, Slots(c))]
  {
    var j := SlotIndex(s.workers[k].r, Slots(c));
    if s.filled[j] {
      assert RequestHeld(s.workers[k]) >= 0;
      SameSlotSameRequest(c, s, s.workers[k].r, RequestIn(s, j));
    }
  }

  // What the drain forgets.

  /** Step j queues the n-th descriptor while the drain, having found the queue empty, has yet
      to reset it. */
  ghost predicate LateSend(c: Config, tr: seq<State>, j: nat, n: nat)
    requires ValidConfig(c)
  {
    && j + 1 < |tr| && WellFormed(c, tr[j]) && OutputStep(c, tr[j], tr[j + 1], SendDescriptor)
    && tr[j].dma.Looked? && |tr[j].descs| == n
  }

  ghost predicate ResetAt(c: Config, tr: seq<State>, m: nat) {
    m + 1 < |tr| && WellFormed(c, tr[m]) && DmaStep(c, tr[m], tr[m + 1], QueueReset)
  }

  ghost predicate SentLate(c: Config, tr: seq<State>, i: nat, n: nat)
    requires ValidConfig(c)
  {
    exists j :: 0 <= j < i && LateSend(c, tr, j, n)
  }

  /** The n-th descriptor was sent between an empty look and the reset that followed it. */
  ghost predicate SentBeforeReset(c: Config, tr: seq<State>, i: nat, n: nat)
    requires ValidConfig(c)
  {
    exists m :: 0 <= m < i && ResetAt(c, tr, m) && SentLate(c, tr, m, n)
  }

  /** Descriptor n is forgotten, or will be by the reset that is due. */
  predicate Doomed(s: State, n: nat) {
    n in s.forgotten || (s.dma.Looked? && s.taken <= n < |s.descs|)
  }

  lemma DoomedStep(c: Config, s: State, s': State, step: Step, n: nat)
    requires ValidConfig(c) && WellFormed(c, s) && NextStep(c, s, s', step)
    ensures Doomed(s', n) <==>
      Doomed(s, n) || (OutputStep(c, s, s', SendDescriptor) && s.dma.Looked? && |s.descs| == n)
    ensures n in s'.forgotten <==> n in s.forgotten || (DmaStep(c, s, s', QueueReset) && Doomed(s, n))
  {
    KindOfStep(c, s, s', step);
    hide *;
    if ProducerStep(c, s, s', step) {
      ProducerDooms(c, s, s', step, n);
    } else if SameButStops(s, s') {
      StopDooms(c, s, s', n);
    } else if IsWorkerStep(step) && step.i < |s.workers| && WorkerStep(c, s, s', step, step.i) {
      WorkerDooms(c, s, s', step, n);
    } else if OutputStep(c, s, s', step) {
      OutputDooms(c, s, s', step, n);
    } else {
      DmaDooms(c, s, s', step, n);
    }
  }

  ghost predicate SameButStops(s: State, s': State) {
    s' == s.(stop := s.stop || s'.stop, quit := s.quit || s'.quit)
  }

  lemma KindOfStep(c: Config, s: State, s': State, step: Step)
    requires ValidConfig(c) && WellFormed(c, s) && NextStep(c, s, s', step)
    ensures ProducerStep(c, s, s', step) || SameButStops(s, s') || OutputStep(c, s, s', step)
      || DmaStep(c, s, s', step) || (IsWorkerStep(step) && step.i < |s.workers| && WorkerStep(c, s, s', step, step.i))
  {
    hide ProducerStep, WorkerStep, OutputStep, DmaStep, WellFormed;
  }

  /** Nothing was queued, taken or reset. */
  lemma SameQueueDooms(c: Config, s: State, s': State, n: nat)
    requires ValidConfig(c) && WellFormed(c, s)
    requires s'.descs == s.descs && s'.taken == s.taken && s'.forgotten == s.forgotten && s'.dma == s.dma
    ensures !OutputStep(c, s, s', SendDescriptor) && !DmaStep(c, s, s', QueueReset)
    ensures Doomed(s', n) == Doomed(s, n)
  {
    hide SlotIndex, Slots;
  }

  lemma ProducerDooms(c: Config, s: State, s': State, step: Step, n: nat)
    requires ValidConfig(c) && WellFormed(c, s) && ProducerStep(c, s, s', step)
    ensures !OutputStep(c, s, s', SendDescriptor) && !DmaStep(c, s, s', QueueReset)
    ensures Doomed(s', n) == Doomed(s, n) && s'.forgotten == s.forgotten
  {
    SameQueueDooms(c, s, s', n) by { hide SlotIndex, Slots; }
    hide *;
  }

  lemma StopDooms(c: Config, s: State, s': State, n: nat)
    requires ValidConfig(c) && WellFormed(c, s) && SameButStops(s, s')
    ensures !OutputStep(c, s, s', SendDescriptor) && !DmaStep(c, s, s', QueueReset)
    ensures Doomed(s', n) == Doomed(s, n) && s'.forgotten == s.forgotten
  {
    SameQueueDooms(c, s, s', n);
    hide OutputStep, DmaStep, WellFormed, Doomed;
  }

  lemma WorkerDooms(c: Config, s: State, s': State, step: Step, n: nat)
    requires ValidConfig(c) && WellFormed(c, s)
    requires IsWorkerStep(step) && step.i < |s.workers| && WorkerStep(c, s, s', step, step.i)
    ensures !OutputStep(c, s, s', SendDescriptor) && !DmaStep(c, s, s', QueueReset)
    ensures Doomed(s', n) == Doomed(s, n) && s'.forgotten == s.forgotten
  {
    hide OutputStep, DmaStep, WellFormed, Doomed, SlotIndex, Slots;
    WorkerKeeps(c, s, s', step);
    SameQueueDooms(c, s, s', n);
  }

  lemma OutputDooms(c: Config, s: State, s': State, step: Step, n: nat)
    requires ValidConfig(c) && WellFormed(c, s) && OutputStep(c, s, s', step)
    ensures Doomed(s', n) <==>
      Doomed(s, n) || (OutputStep(c, s, s', SendDescriptor) && s.dma.Looked? && |s.descs| == n)
    ensures !DmaStep(c, s, s', QueueReset) && s'.forgotten == s.forgotten
  {
    hide SlotIndex, Slots;
    if !step.SendDescriptor? { SameQueueDooms(c, s, s', n); }
  }

  lemma DmaDooms(c: Config, s: State, s': State, step: Step, n: nat)
    requires WellFormed(c, s) && ValidConfig(c) && DmaStep(c, s, s', step)
    ensures !OutputStep(c, s, s', SendDescriptor) && Doomed(s', n) == Doomed(s, n)
    ensures n in s'.forgotten <==> n in s.forgotten || (DmaStep(c, s, s', QueueReset) && Doomed(s, n))
  {
    hide SlotIndex, Slots;
  }

  /** A descriptor is forgotten, or about to be, exactly if it was sent after an empty look
      of the drain and before the reset. */
  lemma {:induction false} DoomedIff(c: Config, tr: seq<State>, i: nat, n: nat)
    requires ValidConfig(c) && Run(c, tr) && i < |tr|
    ensures Doomed(tr[i], n) <==> SentLate(c, tr, i, n)
    decreases i
  {
    hide Run, NextStep, Inv, OutputStep, WellFormed, DmaStep;
    if i == 0 {
      assert Init(c, tr[0]) by { RunStarts(c, tr); }
    } else {
      DoomedIff(c, tr, i - 1, n);
      var step := StepAt(c, tr, i - 1);
      InvWellFormed(c, tr[i - 1]);
      DoomedStep(c, tr[i - 1], tr[i], step, n);
      hide Doomed;
      assert LateSend(c, tr, i - 1, n) <==>
        OutputStep(c, tr[i - 1], tr[i], SendDescriptor) && tr[i - 1].dma.Looked? && |tr[i - 1].descs| == n;
    }
  }

  lemma RunStarts(c: Config, tr: seq<State>)
    requires ValidConfig(c) && Run(c, tr)
    ensures Init(c, tr[0])
  {}

  /** The drain loses a descriptor exactly if it was sent after an empty look and before
      the reset that follows the look. */
  lemma {:induction false} ForgottenIff(c: Config, tr: seq<State>, i: nat, n: nat)
    requires ValidConfig(c) && Run(c, tr) && i < |tr|
    ensures n in tr[i].forgotten <==> SentBeforeReset(c, tr, i, n)
    decreases i
  {
    hide Run, NextStep, Inv, OutputStep, WellFormed, DmaStep;
    if i == 0 {
      assert Init(c, tr[0]) by { RunStarts(c, tr); }
    } else {
      ForgottenIff(c, tr, i - 1, n);
      DoomedIff(c, tr, i - 1, n);
      var step := StepAt(c, tr, i - 1);
      InvWellFormed(c, tr[i - 1]);
      DoomedStep(c, tr[i - 1], tr[i], step, n);
      hide Doomed, SentLate;
      assert ResetAt(c, tr, i - 1) <==> DmaStep(c, tr[i - 1], tr[i], QueueReset);
    }
  }

  /** Block b is in the n-th descriptor, which was sent too late and forgotten. */
  ghost predicate LostAs(c: Config, tr: seq<State>, i: nat, b: nat, n: nat)
    requires ValidConfig(c) && i < |tr|
  {
    n < |tr[i].descs| && tr[i].descs[n].b == b && SentBeforeReset(c, tr, i, n)
  }

  /** Every pool block is in exactly one place; it is lost, which is the last of the places,
      exactly if a descriptor of it was sent between an empty look of the drain and the reset. */
  lemma BlockConservation(c: Config, tr: seq<State>, i: nat, b: nat) returns (p: Place)
    requires ValidConfig(c) && Run(c, tr) && i < |tr| && b < Slots(c)
    ensures BlockAt(tr[i], b, p) && forall q :: BlockAt(tr[i], b, q) ==> q == p
    ensures p.Forgotten? <==> exists n :: LostAs(c, tr, i, b, n)
  {
    RunInv(c, tr, i);
    p := tr[i].owner[b];
    assert BlockAt(tr[i], b, p);
    forall q | BlockAt(tr[i], b, q) ensures q == p {}
    hide Run, Inv, SentBeforeReset;
    if p.Forgotten? {
      ForgottenIff(c, tr, i, p.k);
      assert LostAs(c, tr, i, b, p.k);
    } else {
      forall n ensures !LostAs(c, tr, i, b, n) {
        ForgottenIff(c, tr, i, n);
        assert !BlockAt(tr[i], b, Forgotten(n));
      }
    }
  }

  /** Stopped in the order of the program, in which the output thread has ended before the
      channel drains its queue, the channel loses nothing. */
  lemma NothingLostInOrder(c: Config, tr: seq<State>, i: nat, b: nat) returns (p: Place)
    requires ValidConfig(c) && Run(c, tr) && i < |tr| && b < Slots(c)
    requires forall k :: 0 <= k < i && tr[k].dma.Looked? ==> tr[k].ended
    ensures BlockAt(tr[i], b, p) && !p.Forgotten? && forall q :: BlockAt(tr[i], b, q) ==> q == p
  {
    p := BlockConservation(c, tr, i, b);
    forall j: nat, n: nat | j < i ensures !LateSend(c, tr, j, n) {
      RunInv(c, tr, j);
      if tr[j].ended { assert tr[j].output.Scanning?; }
    }
    hide BlockAt, Run, LateSend;
  }

  /** The free list never holds a block twice, so no block is ever released twice
      without being acquired in between. */
  lemma FreeListDistinct(c: Config, tr: seq<State>, i: nat, k: nat, l: nat)
    requires ValidConfig(c) && Run(c, tr) && i < |tr| && k < l < |tr[i].free|
    ensures tr[i].free[k] != tr[i].free[l]
  {
    RunInv(c, tr, i);
    assert BlockAt(tr[i], tr[i].free[k], OnFreeList(k));
    assert BlockAt(tr[i], tr[i].free[l], OnFreeList(l));
  }

  /** What the device got by descriptor is a prefix of what was sent by descriptor: in
      order, nothing lost in between, and with the contents of the time of sending. */
  lemma DeviceSeesSentData(c: Config, tr: seq<State>, i: nat)
    requires ValidConfig(c) && Run(c, tr) && i < |tr|
    ensures tr[i].device <= DescriptorLog(tr[i].sent)
  {
    RunInv(c, tr, i);
  }

  /** Read by descriptor, the requests at the device are strictly increasing. */
  lemma {:induction false} DescriptorLogIncreasing(sent: seq<Delivery>, k: nat, l: nat)
    requires forall i :: 0 <= i < |sent| ==> sent[i].payload.req == i
    requires k < l < |DescriptorLog(sent)|
    ensures DescriptorLog(sent)[k].req < DescriptorLog(sent)[l].req
  {
    var init := sent[..|sent| - 1];
    DescriptorLogBounded(init);
    if l < |DescriptorLog(init)| { DescriptorLogIncreasing(init, k, l); }
  }

  lemma {:induction false} DescriptorLogBounded(sent: seq<Delivery>)
    requires forall i :: 0 <= i < |sent| ==> sent[i].payload.req == i
    ensures forall k :: 0 <= k < |DescriptorLog(sent)| ==> DescriptorLog(sent)[k].req < |sent|
  {
    if sent != [] { DescriptorLogBounded(sent[..|sent| - 1]); }
  }

  // What becomes of the block that the listener is called with.

  /** The descriptor queue has no room. */
  predicate QueueFull(c: Config, s: State) { |s.descs| - s.taken >= c.descCapacity }

  predicate QueueBounded(c: Config, s: State) { |s.descs| - s.taken <= c.descCapacity }

  /** How a call of Send may go on: from a to b, in state s. */
  predicate CallMoves(c: Config, s: State, a: Call, b: Call) {
    match a
    case Entering => b == (if s.running then Admitted else Rejected)
    case Admitted => b.Rejected? && QueueFull(c, s)
    case Rejected => b.Entering? && !s.quit
  }

  /** How a step may treat deliveries: it begins one, moves the call of Send on, or logs one. */
  ghost predicate DeliveryMoves(c: Config, s: State, s': State) {
    && (s'.sent == s.sent ==>
         s'.output == s.output || !s'.output.Delivering? || (s.output.Scanning? && s'.output.call.Entering?)
         || (s.output.Delivering? && CallMoves(c, s, s.output.call, s'.output.call)))
    && (s'.sent == s.sent ==> s.output.Delivering? ==> s'.output.Delivering?)
    && (s'.sent != s.sent ==>
         && s.output.Delivering? && !s'.output.Delivering? && |s'.sent| == |s.sent| + 1 && s.sent <= s'.sent
         && match s'.sent[|s.sent|].path
            case Dropped => s.output.call.Rejected? && s.quit
            case ByCopy => s.output.call.Admitted? && QueueFull(c, s)
            case ByDescriptor => s.output.call.Admitted? && !QueueFull(c, s))
    && (s.quit ==> s'.quit) && (QueueBounded(c, s) ==> QueueBounded(c, s'))
  }

  /** Other threads leave the listener's call alone, and queue no descriptor. */
  ghost predicate SameDelivery(s: State, s': State) {
    && s'.sent == s.sent && s'.output == s.output && (s.quit ==> s'.quit)
    && s'.descs == s.descs && s'.taken >= s.taken
  }

  lemma DeliveryStep(c: Config, s: State, s': State, step: Step)
    requires ValidConfig(c) && WellFormed(c, s) && NextStep(c, s, s', step)
    ensures DeliveryMoves(c, s, s')
  {
    hide *;
    KindOfStep(c, s, s', step);
    if OutputStep(c, s, s', step) {
      OutputMoves(c, s, s', step);
    } else {
      OtherMoves(c, s, s', step);
    }
  }

  lemma OutputMoves(c: Config, s: State, s': State, step: Step)
    requires ValidConfig(c) && WellFormed(c, s) && OutputStep(c, s, s', step)
    ensures DeliveryMoves(c, s, s')
  {
    hide WellFormed, SlotIndex, Slots;
  }

  lemma OtherMoves(c: Config, s: State, s': State, step: Step)
    requires ValidConfig(c) && WellFormed(c, s)
    requires ProducerStep(c, s, s', step) || SameButStops(s, s') || DmaStep(c, s, s', step)
      || (IsWorkerStep(step) && step.i < |s.workers| && WorkerStep(c, s, s', step, step.i))
    ensures DeliveryMoves(c, s, s')
  {
    hide ProducerStep, DmaStep, WorkerStep, WellFormed;
    if ProducerStep(c, s, s', step) {
      ProducerSame(c, s, s', step);
    } else if SameButStops(s, s') {
    } else if DmaStep(c, s, s', step) {
      DmaSame(c, s, s', step);
    } else {
      WorkerKeeps(c, s, s', step);
    }
    assert SameDelivery(s, s');
  }

  lemma ProducerSame(c: Config, s: State, s': State, step: Step)
    requires ValidConfig(c) && ProducerStep(c, s, s', step)
    ensures SameDelivery(s, s')
  {
    hide SlotIndex, Slots;
  }

  lemma DmaSame(c: Config, s: State, s': State, step: Step)
    requires WellFormed(c, s) && DmaStep(c, s, s', step)
    ensures SameDelivery(s, s')
  {
    hide SlotIndex, Slots;
  }

  lemma MovesAt(c: Config, tr: seq<State>, i: nat)
    requires ValidConfig(c) && Run(c, tr) && i < |tr| - 1
    ensures DeliveryMoves(c, tr[i], tr[i + 1])
  {
    hide *;
    var step := StepAt(c, tr, i);
    InvWellFormed(c, tr[i]);
    DeliveryStep(c, tr[i], tr[i + 1], step);
    InvValid(c, tr[i]);
  }

  lemma InvValid(c: Config, s: State)
    requires Inv(c, s)
    ensures ValidConfig(c)
  {}

  /** In step j delivery k is logged. */
  ghost predicate LoggedAt(tr: seq<State>, j: nat, k: nat) {
    j + 1 < |tr| && |tr[j].sent| == k < |tr[j + 1].sent|
  }

  /** The listener is told of a block that the channel refused only after it was told to give
      up; without that, no run ever drops a block. */
  lemma {:induction false} DroppedOnlyAfterQuit(c: Config, tr: seq<State>, i: nat, k: nat)
    requires ValidConfig(c) && Run(c, tr) && i < |tr| && k < |tr[i].sent| && tr[i].sent[k].path.Dropped?
    ensures exists j :: 0 <= j < i && LoggedAt(tr, j, k) && tr[j].quit
    ensures tr[i].quit
    decreases i
  {
    hide *;
    FreshDelivery(c, tr);
    if i > 0 {
      MovesAt(c, tr, i - 1);
      DropLogged(c, tr, i - 1, k);
      if k < |tr[i - 1].sent| { DroppedOnlyAfterQuit(c, tr, i - 1, k); }
    }
  }

  lemma FreshDelivery(c: Config, tr: seq<State>)
    requires ValidConfig(c) && Run(c, tr)
    ensures |tr| > 0 && tr[0].sent == [] && tr[0].output.Scanning? && QueueBounded(c, tr[0])
  {}

  lemma DropLogged(c: Config, tr: seq<State>, i: nat, k: nat)
    requires i + 1 < |tr| && DeliveryMoves(c, tr[i], tr[i + 1])
    requires k < |tr[i + 1].sent| && tr[i + 1].sent[k].path.Dropped?
    ensures k < |tr[i].sent| ==> tr[i].sent[k].path.Dropped?
    ensures k >= |tr[i].sent| ==> LoggedAt(tr, i, k) && tr[i].quit
    ensures tr[i].quit ==> tr[i + 1].quit
  {}

  /** Once the listener was told to give up, a refused call is not tried again: as long as the
      listener has not returned it stands still, and then the block was dropped. */
  lemma {:induction false} NotRetriedAfterQuit(c: Config, tr: seq<State>, i: nat, j: nat)
    requires ValidConfig(c) && Run(c, tr) && i <= j < |tr|
    requires tr[i].quit && tr[i].output.Delivering? && tr[i].output.call.Rejected?
    ensures tr[j].quit
    ensures (tr[j].output == tr[i].output && tr[j].sent == tr[i].sent)
      || (|tr[i].sent| < |tr[j].sent| && tr[j].sent[|tr[i].sent|].path.Dropped?)
    decreases j
  {
    hide Run;
    if i < j {
      NotRetriedAfterQuit(c, tr, i, j - 1);
      MovesAt(c, tr, j - 1);
    }
  }

  /** Before that, a refused call is always tried again: while nobody asked the listener to give
      up, it returns only with the block sent. */
  lemma {:induction false} RetriedUntilQuit(c: Config, tr: seq<State>, i: nat, j: nat)
    requires ValidConfig(c) && Run(c, tr) && i <= j < |tr| && tr[i].output.Delivering? && !tr[j].quit
    ensures |tr[i].sent| < |tr[j].sent| ==> !tr[j].sent[|tr[i].sent|].path.Dropped?
    ensures |tr[i].sent| == |tr[j].sent| ==> tr[j].output.Delivering?
    ensures |tr[i].sent| <= |tr[j].sent|
    decreases j
  {
    hide Run;
    if i < j {
      MovesAt(c, tr, j - 1);
      RetriedUntilQuit(c, tr, i, j - 1);
    }
  }

  /** While the listener had block k, the channel was seen running; or it was not running, or
      its descriptor queue was full. */
  ghost predicate RanDuring(tr: seq<State>, i: nat, k: nat) {
    exists m :: 0 <= m < i < |tr| && |tr[m].sent| == k && tr[m].output.Delivering? && tr[m].running
  }

  ghost predicate RefusedDuring(c: Config, tr: seq<State>, i: nat, k: nat) {
    exists m :: 0 <= m < i < |tr| && |tr[m].sent| == k && tr[m].output.Delivering?
      && (!tr[m].running || QueueFull(c, tr[m]))
  }

  lemma {:induction false} CallExplained(c: Config, tr: seq<State>, i: nat)
    requires ValidConfig(c) && Run(c, tr) && i < |tr| && tr[i].output.Delivering?
    ensures tr[i].output.call.Admitted? ==> RanDuring(tr, i, |tr[i].sent|)
    ensures tr[i].output.call.Rejected? ==> RefusedDuring(c, tr, i, |tr[i].sent|)
    decreases i
  {
    hide *;
    FreshDelivery(c, tr);
    if i > 0 {
      MovesAt(c, tr, i - 1);
      CallStep(c, tr, i - 1);
      if tr[i - 1].output.Delivering? {
        CallExplained(c, tr, i - 1);
        DuringLater(c, tr, i - 1, |tr[i].sent|);
      }
    }
  }

  lemma DuringLater(c: Config, tr: seq<State>, i: nat, k: nat)
    requires i + 1 < |tr| && tr[i].output.Delivering? && |tr[i].sent| == k
    ensures RanDuring(tr, i, k) || tr[i].running ==> RanDuring(tr, i + 1, k)
    ensures RefusedDuring(c, tr, i, k) || !tr[i].running || QueueFull(c, tr[i]) ==> RefusedDuring(c, tr, i + 1, k)
  {
    hide QueueFull;
  }

  lemma CallStep(c: Config, tr: seq<State>, i: nat)
    requires i + 1 < |tr| && DeliveryMoves(c, tr[i], tr[i + 1]) && tr[i + 1].output.Delivering?
    ensures tr[i].output.Delivering? ==> |tr[i + 1].sent| == |tr[i].sent|
    ensures tr[i + 1].output.call.Admitted? ==>
      tr[i].output.Delivering? && (tr[i].output.call.Admitted? || tr[i].running)
    ensures tr[i + 1].output.call.Rejected? ==>
      tr[i].output.Delivering? && (tr[i].output.call.Rejected? || !tr[i].running || QueueFull(c, tr[i]))
  {
    hide QueueFull, QueueBounded;
  }

  /** A block goes by descriptor only while the queue has room, and by copy only while it has
      none, in a call that saw the channel running; it is dropped only after a call that was
      refused, because the channel did not run or the descriptor queue was full. */
  lemma PathExplained(c: Config, tr: seq<State>, j: nat, k: nat)
    requires ValidConfig(c) && Run(c, tr) && LoggedAt(tr, j, k)
    ensures |tr[j + 1].sent| == k + 1
    ensures match tr[j + 1].sent[k].path
      case ByDescriptor => RanDuring(tr, j, k) && !QueueFull(c, tr[j])
      case ByCopy => RanDuring(tr, j, k) && QueueFull(c, tr[j])
      case Dropped => RefusedDuring(c, tr, j, k) && tr[j].quit
  {
    hide Run, RanDuring, RefusedDuring;
    MovesAt(c, tr, j);
    CallExplained(c, tr, j);
  }

  /** The channel never holds more descriptors than its queue has room for. */
  lemma {:induction false} DescriptorsFit(c: Config, tr: seq<State>, i: nat)
    requires ValidConfig(c) && Run(c, tr) && i < |tr|
    ensures |tr[i].descs| - tr[i].taken <= c.descCapacity
    decreases i
  {
    hide Run, Inv;
    FreshDelivery(c, tr);
    if i > 0 {
      DescriptorsFit(c, tr, i - 1);
      MovesAt(c, tr, i - 1);
    }
  }

  /** pending_tasks_ counts queued and in-progress tasks and respects the soft limit. */
  lemma TasksBounded(c: Config, tr: seq<State>, i: nat)
    requires ValidConfig(c) && Run(c, tr) && i < |tr|
    ensures tr[i].pending == |tr[i].queue| + Busy(tr[i].workers) <= c.softLimit
  {
    RunInv(c, tr, i);
  }

  /** A request waits at the guard exactly when the ring is full ahead of it or when
      everything before it has been delivered. */
  lemma GuardBlocks(c: Config, tr: seq<State>, i: nat)
    requires ValidConfig(c) && Run(c, tr) && i < |tr| && tr[i].producer.AtGuard?
    ensures SlotIndex(tr[i].producer.r, Slots(c)) == tr[i].next <==>
      tr[i].producer.r == Delivered(tr[i]) || tr[i].producer.r == Delivered(tr[i]) + Slots(c)
  {
    RunInv(c, tr, i);
    GuardWindow(c, tr[i]);
  }

  ghost predicate Drained(s: State) {
    s.producer.AtGuard? && s.producer.r == Delivered(s)
  }

  lemma DrainedStep(c: Config, s: State, s': State, step: Step)
    requires Inv(c, s) && Drained(s) && !s.stop && NextStep(c, s, s', step) && !s'.stop
    ensures Drained(s') && s'.sent == s.sent
  {
    GuardWindow(c, s);
    if s.output.Scanning? && s.filled[s.next] { TakeSlotIsNext(c, s); }
    DrainedFront(c, s, s', step);
  }

  lemma DrainedFront(c: Config, s: State, s': State, step: Step)
    requires ValidConfig(c) && WellFormed(c, s) && Drained(s) && !s.stop && NextStep(c, s, s', step)
    requires SlotIndex(s.producer.r, Slots(c)) == s.next && s.output.Scanning? && !s.filled[s.next]
    ensures s'.producer == s.producer && s'.sent == s.sent && s'.output == s.output
  {
    hide ProducerStep, WorkerStep, OutputStep, DmaStep, WellFormed;
    if ProducerStep(c, s, s', step) {
      DrainedProducer(c, s, s', step);
    } else if IsWorkerStep(step) && step.i < |s.workers| && WorkerStep(c, s, s', step, step.i) {
      WorkerKeeps(c, s, s', step);
    } else if OutputStep(c, s, s', step) {
      DrainedOutput(c, s, s', step);
    } else if DmaStep(c, s, s', step) {
      DrainedDma(c, s, s', step);
    }
  }

  lemma DrainedProducer(c: Config, s: State, s': State, step: Step)
    requires ValidConfig(c) && Drained(s) && !s.stop && ProducerStep(c, s, s', step)
    ensures SlotIndex(s.producer.r, Slots(c)) != s.next
  {}

  lemma DrainedOutput(c: Config, s: State, s': State, step: Step)
    requires ValidConfig(c) && WellFormed(c, s) && s.output.Scanning? && !s.stop && OutputStep(c, s, s', step)
    ensures s.filled[s.next]
  {}

  lemma DrainedDma(c: Config, s: State, s': State, step: Step)
    requires WellFormed(c, s) && DmaStep(c, s, s', step)
    ensures s'.producer == s.producer && s'.sent == s.sent && s'.output == s.output
  {
    DmaWellFormed(c, s, s', step);
    hide DmaStep, WellFormed;
  }

  /** A producer that reaches the guard after everything was delivered never gets past
      it, and nothing more is ever delivered, until a stop is requested. */
  lemma {:induction false} DrainedProducerStalls(c: Config, tr: seq<State>, i: nat, j: nat)
    requires ValidConfig(c) && Run(c, tr) && i <= j < |tr|
    requires Drained(tr[i]) && forall k :: i <= k <= j ==> !tr[k].stop
    ensures Drained(tr[j]) && tr[j].sent == tr[i].sent
    decreases j
  {
    hide Inv, NextStep, Run, Drained;
    if i < j {
      DrainedProducerStalls(c, tr, i, j - 1);
      var step := StepAt(c, tr, j - 1);
      DrainedStep(c, tr[j - 1], tr[j], step);
    }
  }

  // ---- the stall is reachable ----

  lemma Extend(c: Config, tr: seq<State>, s: State, step: Step) returns (tr': seq<State>)
    requires ValidConfig(c) && Run(c, tr) && Inv(c, tr[|tr| - 1]) && NextStep(c, tr[|tr| - 1], s, step)
    ensures tr' == tr + [s] && Run(c, tr') && Inv(c, s)
  {
    hide Inv, Init, NextStep;
    StepInv(c, tr[|tr| - 1], s, step);
    tr' := tr + [s];
    assert WellFormed(c, tr[|tr| - 1]) by { InvWellFormed(c, tr[|tr| - 1]); }
    forall i | 0 <= i < |tr'| - 1 ensures Next(c, tr'[i], tr'[i + 1]) {
      if i < |tr| - 1 { assert Next(c, tr[i], tr[i + 1]); }
    }
  }

  lemma InvWellFormed(c: Config, s: State)
    requires Inv(c, s)
    ensures WellFormed(c, s)
  {}

  /** From any fresh start, reading one block and delivering it before the second
      request reaches the guard stalls the producer for good. */
  lemma StallIsReachable(c: Config, s0: State) returns (tr: seq<State>)
    requires ValidConfig(c) && Init(c, s0) && |s0.workers| >= 1
    ensures Run(c, tr) && tr[0] == s0 && Drained(tr[|tr| - 1]) && !tr[|tr| - 1].stop
    ensures tr[|tr| - 1].issued == 2
  {
    hide Inv, Run;
    tr := ReadFirst(c, s0);
    tr := DeliverFirst(c, tr);
    tr := ClaimSecond(c, tr);
  }

  /** The first request is claimed, read and stored. */
  lemma ReadFirst(c: Config, s0: State) returns (tr: seq<State>)
    requires ValidConfig(c) && Init(c, s0) && |s0.workers| >= 1
    ensures |tr| > 0 && Run(c, tr) && tr[0] == s0 && Inv(c, tr[|tr| - 1]) && FirstRound(tr[|tr| - 1])
    ensures var s := tr[|tr| - 1]; |s.filled| > 0 && s.filled[0] && |s.stage| == 1
  {
    hide Inv, Run;
    InitInv(c, s0);
    tr := [s0];
    assert Run(c, tr) by { SingletonRun(c, s0); }
    var s1 := s0.(issued := 1, first := false, producer := AtCapacity(0));
    InvWellFormed(c, s0);
    tr := Extend(c, tr, s1, Claim);
    InvWellFormed(c, s1);
    var s2 := s1.(producer := Ready(0));
    tr := Extend(c, tr, s2, CapacityPass);
    InvWellFormed(c, s2);
    var s3 := s2.(queue := s2.queue + [0], pending := 1, producer := Idle);
    tr := Extend(c, tr, s3, Enqueue);
    tr := WorkFirst(c, tr);
    tr := StoreFirst(c, tr);
  }

  lemma SingletonRun(c: Config, s: State)
    requires ValidConfig(c) && Init(c, s)
    ensures Run(c, [s])
  {}

  /** One request was issued and nothing was delivered yet; nobody is stopping. */
  ghost predicate FirstRound(s: State) {
    && s.issued == 1 && !s.first && s.producer.Idle? && !s.stop && s.next == 0 && s.output.Scanning?
    && s.sent == [] && s.running && s.descs == [] && s.taken == 0 && !s.ended && s.dma.DmaIdle?
  }

  lemma WorkFirst(c: Config, tr: seq<State>) returns (tr': seq<State>)
    requires ValidConfig(c) && |tr| > 0 && Run(c, tr) && Inv(c, tr[|tr| - 1]) && FirstRound(tr[|tr| - 1])
    requires var s := tr[|tr| - 1];
      s.queue == [0] && |s.workers| >= 1 && s.workers[0].Waiting? && |s.free| > 0 && s.stage == []
    ensures Run(c, tr') && |tr'| > |tr| && tr'[0] == tr[0] && Inv(c, tr'[|tr'| - 1]) && FirstRound(tr'[|tr'| - 1])
    ensures var s := tr'[|tr'| - 1]; |s.workers| >= 1 && s.workers[0].HasData? && s.workers[0].r == 0 && |s.stage| == 1
  {
    hide Inv, Run;
    var s0 := tr[|tr| - 1];
    InvWellFormed(c, s0);
    var s1 := s0.(queue := [], workers := s0.workers[0 := HasTask(0)], stage := [AtWorker(0)]);
    tr' := Extend(c, tr, s1, TakeTask(0));
    InvWellFormed(c, s1);
    var b := Top(s1);
    var s2 := Acquire(c, s1, WithWorker(0)).(workers := s1.workers[0 := HasBuffer(0, b)]);
    tr' := Extend(c, tr', s2, AcquireBlock(0));
    InvWellFormed(c, s2);
    var s3 := s2.(mem := s2.mem[b := Payload(0, 1)], workers := s2.workers[0 := HasData(0, b, 1)]);
    tr' := Extend(c, tr', s3, Read(0, 1));
  }

  lemma StoreFirst(c: Config, tr: seq<State>) returns (tr': seq<State>)
    requires ValidConfig(c) && |tr| > 0 && Run(c, tr) && Inv(c, tr[|tr| - 1]) && FirstRound(tr[|tr| - 1])
    requires var s := tr[|tr| - 1]; |s.workers| >= 1 && s.workers[0].HasData? && s.workers[0].r == 0 && |s.stage| == 1
    ensures Run(c, tr') && |tr'| > |tr| && tr'[0] == tr[0] && Inv(c, tr'[|tr'| - 1]) && FirstRound(tr'[|tr'| - 1])
    ensures var s := tr'[|tr'| - 1]; |s.filled| > 0 && s.filled[0] && |s.stage| == 1
  {
    hide Inv, Run;
    var s3 := tr[|tr| - 1];
    InvWellFormed(c, s3);
    assert SlotIndex(0, Slots(c)) == 0;
    assert !s3.filled[0] by { EmptySlot(c, s3, 0); }
    var w := s3.workers[0];
    var s4 := s3.(workers := s3.workers[0 := Checked(0, w.b, w.len)]);
    tr' := Extend(c, tr, s4, CheckSlot(0));
    InvWellFormed(c, s4);
    var s5 := s4.(slotBlock := s4.slotBlock[0 := w.b], slotLen := s4.slotLen[0 := w.len],
                  workers := s4.workers[0 := Stored(0, w.b, w.len)]);
    tr' := Extend(c, tr', s5, StoreSlot(0));
    InvWellFormed(c, s5);
    var s6 := s5.(filled := s5.filled[0 := true], workers := s5.workers[0 := Finished],
                  stage := s5.stage[0 := AtSlot], owner := s5.owner[w.b := InSlot(0)]);
    tr' := Extend(c, tr', s6, MarkSlot(0));
  }

  /** From any fresh start, a stop of the channel while the first block is being sent can
      lose that block. */
  lemma LossIsReachable(c: Config, s0: State) returns (tr: seq<State>, b: nat)
    requires ValidConfig(c) && Init(c, s0) && |s0.workers| >= 1
    ensures Run(c, tr) && tr[0] == s0 && BlockAt(tr[|tr| - 1], b, Forgotten(0))
  {
    hide Inv, Run;
    tr := ReadFirst(c, s0);
    tr, b := AdmitFirst(c, tr);
    tr := LookFirst(c, tr);
    tr := ForgetFirst(c, tr, b);
  }

  /** The first call of Send is under way, and nothing was queued yet. */
  ghost predicate FirstAdmitted(s: State, b: nat) {
    s.output.Delivering? && s.output.b == b && s.output.call.Admitted? && s.descs == [] && s.taken == 0
  }

  lemma LookFirst(c: Config, tr: seq<State>) returns (tr': seq<State>)
    requires ValidConfig(c) && |tr| > 0 && Run(c, tr) && Inv(c, tr[|tr| - 1])
    requires var s := tr[|tr| - 1]; s.dma.DmaIdle? && s.descs == [] && s.taken == 0
    ensures Run(c, tr') && |tr'| > |tr| && tr'[0] == tr[0] && Inv(c, tr'[|tr'| - 1])
    ensures tr'[|tr'| - 1] == tr[|tr| - 1].(dma := Looked)
  {
    hide Inv, Run;
    var s := tr[|tr| - 1];
    InvWellFormed(c, s);
    var s1 := s.(dma := DmaExited);
    tr' := Extend(c, tr, s1, ChannelStop);
    InvWellFormed(c, s1);
    tr' := Extend(c, tr', s1.(dma := Looked), DrainLook);
  }

  lemma ForgetFirst(c: Config, tr: seq<State>, b: nat) returns (tr': seq<State>)
    requires ValidConfig(c) && |tr| > 0 && Run(c, tr) && Inv(c, tr[|tr| - 1])
    requires FirstAdmitted(tr[|tr| - 1], b) && tr[|tr| - 1].dma.Looked?
    ensures Run(c, tr') && |tr'| > |tr| && tr'[0] == tr[0] && BlockAt(tr'[|tr'| - 1], b, Forgotten(0))
  {
    hide Inv, Run;
    tr' := SendFirst(c, tr, b);
    var s := tr'[|tr'| - 1];
    InvWellFormed(c, s);
    tr' := Extend(c, tr', Reset(s), QueueReset);
  }

  lemma SendFirst(c: Config, tr: seq<State>, b: nat) returns (tr': seq<State>)
    requires ValidConfig(c) && |tr| > 0 && Run(c, tr) && Inv(c, tr[|tr| - 1]) && FirstAdmitted(tr[|tr| - 1], b)
    ensures Run(c, tr') && |tr'| > |tr| && tr'[0] == tr[0] && Inv(c, tr'[|tr'| - 1])
    ensures var s, s' := tr[|tr| - 1], tr'[|tr'| - 1];
      && |s'.descs| == 1 && s'.descs[0].b == b && |s'.sent| == |s.sent| + 1
      && s' == s.(descs := s'.descs, output := Sent, owner := s'.owner, sent := s'.sent)
  {
    hide Inv, Run;
    var s := tr[|tr| - 1];
    InvWellFormed(c, s);
    var s1 := s.(descs := [Entry(b, s.output.len)], output := Sent, owner := s.owner[b := InDescriptor(0)],
                 sent := Deliver(s, ByDescriptor));
    tr' := Extend(c, tr, s1, SendDescriptor);
  }

  ghost function Reset(s: State): State
    requires s.taken <= |s.descs|
  {
    s.(taken := |s.descs|, dma := WasReset, forgotten := s.forgotten + Range(s.taken, |s.descs|),
       owner := Discarded(s.owner))
  }

  ghost predicate FirstSent(s: State) {
    && s.output.Sent? && |s.sent| == |s.stage| == s.issued == 1
    && s.next == 0 && s.producer.Idle? && !s.first && !s.stop
  }

  lemma DeliverFirst(c: Config, tr: seq<State>) returns (tr': seq<State>)
    requires ValidConfig(c) && |tr| > 0 && Run(c, tr) && Inv(c, tr[|tr| - 1]) && FirstRound(tr[|tr| - 1])
    requires var s := tr[|tr| - 1]; |s.filled| > 0 && s.filled[0] && |s.stage| == 1
    ensures Run(c, tr') && |tr'| > |tr| && tr'[0] == tr[0] && Inv(c, tr'[|tr'| - 1])
    ensures FirstSent(tr'[|tr'| - 1])
  {
    hide Inv, Run;
    var b;
    tr', b := AdmitFirst(c, tr);
    tr' := SendFirst(c, tr', b);
  }

  /** The listener is called with the first block, and finds the channel running. */
  lemma AdmitFirst(c: Config, tr: seq<State>) returns (tr': seq<State>, b: nat)
    requires ValidConfig(c) && |tr| > 0 && Run(c, tr) && Inv(c, tr[|tr| - 1]) && FirstRound(tr[|tr| - 1])
    requires var s := tr[|tr| - 1]; |s.filled| > 0 && s.filled[0] && |s.stage| == 1
    ensures Run(c, tr') && |tr'| > |tr| && tr'[0] == tr[0] && Inv(c, tr'[|tr'| - 1])
    ensures FirstAdmitted(tr'[|tr'| - 1], b) && FirstRound(tr'[|tr'| - 1].(output := Scanning))
    ensures |tr'[|tr'| - 1].filled| > 0 && tr'[|tr'| - 1].filled[0] && |tr'[|tr'| - 1].stage| == 1
  {
    hide Inv, Run;
    var s0 := tr[|tr| - 1];
    InvWellFormed(c, s0);
    b := s0.slotBlock[0];
    var len := s0.slotLen[0];
    var s1 := s0.(output := Delivering(b, len, Entering), owner := s0.owner[b := WithOutput]);
    tr' := Extend(c, tr, s1, TakeSlot);
    InvWellFormed(c, s1);
    var s2 := s1.(output := Delivering(b, len, Admitted));
    tr' := Extend(c, tr', s2, SeeRunning);
  }

  lemma ClaimSecond(c: Config, tr: seq<State>) returns (tr': seq<State>)
    requires ValidConfig(c) && |tr| > 0 && Run(c, tr) && Inv(c, tr[|tr| - 1])
    requires FirstSent(tr[|tr| - 1])
    ensures Run(c, tr') && |tr'| > |tr| && tr'[0] == tr[0] && Drained(tr'[|tr'| - 1])
    ensures !tr'[|tr'| - 1].stop && tr'[|tr'| - 1].issued == 2
  {
    hide Inv, Run;
    var s2 := tr[|tr| - 1];
    InvWellFormed(c, s2);
    var s3 := s2.(filled := s2.filled[0 := false], output := Cleared, stage := s2.stage[0 := Gone]);
    tr' := Extend(c, tr, s3, ClearSlot);
    InvWellFormed(c, s3);
    var s4 := s3.(next := SlotIndex(1, Slots(c)), output := Scanning);
    tr' := Extend(c, tr', s4, Advance);
    InvWellFormed(c, s4);
    var s5 := s4.(issued := 2, producer := AtGuard(1));
    tr' := Extend(c, tr', s5, Claim);
  }
}
