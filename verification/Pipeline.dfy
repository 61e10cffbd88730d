/** The file-to-DMA pipeline as a transition system: the POSIX producer and its workers,
    the slot ring that puts blocks back in order, the listener that hands them to the
    DMA channel, the channel's worker, and the buffer pool they share. Any thread may run
    next. A step is one access to shared state, except that reading a filled slot and an
    operation of the descriptor queue are one step each: RingProtocol splits the latter
    further and shows that it acts on the queue at one moment. A run may also stand still
    for a step, as when a thread does something that is not part of this model. */
module Pipeline {
  import opened Basics
  import opened Modular

  /** io is io_request_num; softLimit is the producer's bound on pending tasks. */
  datatype Config = Config(io: nat, softLimit: nat, descCapacity: nat)

  ghost predicate ValidConfig(c: Config) {
    c.io >= 1 && c.softLimit >= 1 && c.descCapacity >= 1
  }

  /** Slots of the ring, and blocks of the pool. */
  function Slots(c: Config): nat { MAX_DISORDER_GROUPS * c.io }

  /** The slot of a request index: r % n, by repeated subtraction (see SlotIndexIsMod). */
  function SlotIndex(r: nat, n: nat): (j: nat)
    requires n > 0
    ensures j < n
  {
    if r < n then r else SlotIndex(r - n, n)
  }

  lemma {:induction false} SlotIndexIsMod(r: nat, n: nat)
    requires n > 0
    ensures SlotIndex(r, n) == r % n
  {
    if r < n {
      ModSmall(r, n);
    } else {
      SlotIndexIsMod(r - n, n);
      ModLapDown(r, n);
    }
  }

  /** What a block holds: len bytes read for request req. */
  datatype Payload = Payload(req: nat, len: nat)

  datatype Producer =
    | Idle
    | AtGuard(r: nat)      // request claimed, waiting for its slot to differ from the output slot
    | AtCapacity(r: nat)   // waiting for pending tasks to drop below the soft limit
    | Ready(r: nat)        // about to enqueue
    | Done(abandoned: bool)

  datatype Worker =
    | Waiting
    | HasTask(r: nat)
    | HasBuffer(r: nat, b: nat)
    | HasData(r: nat, b: nat, len: nat)
    | Checked(r: nat, b: nat, len: nat)   // its slot was seen empty
    | Stored(r: nat, b: nat, len: nat)    // block and length are in the slot, not yet marked
    | Failing(r: nat, b: nat)             // read failed or slot occupied: must release
    | Finished                            // must decrement pending_tasks_
    | Exited

  /** How far a call of Send has come: it is about to ask whether the channel runs, it has
      seen it run and goes on to the queues, or it has failed. */
  datatype Call = Entering | Admitted | Rejected

  datatype Output =
    | Scanning
    | Delivering(b: nat, len: nat, call: Call)   // inside the listener, which calls Send
    | Releasing(b: nat)                          // copied or given up: must release the block
    | Sent                                       // listener returned: must clear the slot
    | Cleared                                    // slot marked empty: must advance the output slot

  /** A descriptor in the queue: a block of the pool, and its length. */
  datatype Entry = Entry(b: nat, len: nat)

  datatype Dma =
    | DmaIdle
    | Writing(b: nat, len: nat)
    | DmaReleasing(b: nat, failed: bool)
    | DmaFailed              // a write failed and its block is free: must report the error
    | DmaExited              // the worker has ended; Stop drains the queue
    | Draining(b: nat)
    | Looked                 // the drain found the queue empty and will reset its indices
    | WasReset               // must mark the channel as stopped
    | DmaStopped

  datatype Path = ByDescriptor | ByCopy | Dropped

  datatype Delivery = Delivery(payload: Payload, path: Path)

  /** Where a block is: with somebody who may use it, or lost. */
  datatype Place =
    | OnFreeList(k: nat) | WithWorker(i: nat) | InSlot(j: nat) | WithOutput | InDescriptor(k: nat) | WithDma
    | Forgotten(k: nat)   // its descriptor, the k-th, was in the queue when the queue was reset

  /** Where a dequeued request is. */
  datatype Stage = AtWorker(i: nat) | AtSlot | Gone

  datatype State = State(
    issued: nat, first: bool, producer: Producer,
    queue: seq<nat>, pending: int, workers: seq<Worker>, stop: bool, quit: bool,
    filled: seq<bool>, slotBlock: seq<nat>, slotLen: seq<nat>, next: nat, output: Output,
    ended: bool,   // the output thread has returned
    free: seq<nat>, mem: seq<Payload>,
    descs: seq<Entry>, taken: nat, running: bool, dma: Dma,
    // histories
    sent: seq<Delivery>,     // what became of each listener call, in order
    device: seq<Payload>,    // contents written to the device by descriptor
    forgotten: set<nat>,     // descriptors that a reset of the queue discarded
    owner: seq<Place>, stage: seq<Stage>)

  datatype Step =
    | Claim | GuardPass | CapacityPass | Enqueue | ProducerStop
    | StopRequest   // the input is told to stop
    | QuitRequest   // the listener is told to give up, which is done first
    | TakeTask(i: nat) | AcquireBlock(i: nat) | WorkerStop(i: nat)
    | Read(i: nat, n: nat) | ReadFail(i: nat) | CheckSlot(i: nat) | StoreSlot(i: nat) | MarkSlot(i: nat)
    | ReleaseFailed(i: nat) | FinishTask(i: nat)
    | TakeSlot | SeeRunning | SendDescriptor | SendCopy | SendFails | Retry | GiveUp | OutputRelease | ClearSlot
    | Advance | OutputEnds
    | DmaTake | DmaWrite | DmaFail | DmaRelease | DmaError | ChannelStop
    | Drain | DrainRelease | DrainLook | QueueReset | ChannelStopped | DrainAgain
    | StandStill

  ghost predicate Init(c: Config, s: State) {
    && s.issued == 0 && s.first && s.producer.Idle? && s.queue == [] && s.pending == 0
    && (forall i :: 0 <= i < |s.workers| ==> s.workers[i].Waiting?) && !s.stop && !s.quit
    && |s.filled| == |s.slotBlock| == |s.slotLen| == Slots(c)
    && (forall j :: 0 <= j < Slots(c) ==> !s.filled[j] && s.slotBlock[j] == 0)
    && s.next == 0 && s.output.Scanning? && !s.ended
    && |s.free| == |s.mem| == |s.owner| == Slots(c)
    && (forall k :: 0 <= k < Slots(c) ==> s.free[k] == k && s.owner[k] == OnFreeList(k))
    && s.descs == [] && s.taken == 0 && s.running && s.dma.DmaIdle?
    && s.sent == [] && s.device == [] && s.forgotten == {} && s.stage == []
  }

  // ---- shape ----

  function BlockHeld(w: Worker): (r: int)
    ensures r >= -1
  {
    match w
    case HasBuffer(_, b) => b
    case HasData(_, b, _) => b
    case Checked(_, b, _) => b
    case Stored(_, b, _) => b
    case Failing(_, b) => b
    case _ => -1
  }

  function RequestHeld(w: Worker): (r: int)
    ensures r >= -1
  {
    match w
    case HasTask(r) => r
    case HasBuffer(r, _) => r
    case HasData(r, _, _) => r
    case Checked(r, _, _) => r
    case Stored(r, _, _) => r
    case Failing(r, _) => r
    case _ => -1
  }

  /** The listener has been told of the block in the output slot. */
  predicate Told(o: Output) { o.Releasing? || o.Sent? || o.Cleared? }

  /** Array bounds of the steps below. Holds in every reachable state (see Inv). */
  ghost predicate WellFormed(c: Config, s: State) {
    && |s.filled| == |s.slotBlock| == |s.slotLen| == |s.mem| == |s.owner| == Slots(c) > s.next
    && (forall j :: 0 <= j < |s.slotBlock| ==> s.slotBlock[j] < Slots(c))
    && (forall k :: 0 <= k < |s.free| ==> s.free[k] < Slots(c))
    && (forall k :: 0 <= k < |s.descs| ==> s.descs[k].b < Slots(c))
    && s.taken <= |s.descs| && (forall k :: k in s.forgotten ==> k < s.taken)
    && (forall i :: 0 <= i < |s.workers| ==>
         BlockHeld(s.workers[i]) < Slots(c) && RequestHeld(s.workers[i]) < |s.stage|)
    && (s.output.Delivering? || s.output.Releasing? ==> s.output.b < Slots(c))
    && (Told(s.output) ==> 0 < |s.sent| <= |s.stage|)
    && (s.dma.Writing? || s.dma.DmaReleasing? || s.dma.Draining? ==> s.dma.b < Slots(c))
  }

  // ---- pool operations ----

  /** The block the pool would hand out: the one freed last. */
  ghost function Top(s: State): nat
    requires |s.free| > 0
  {
    s.free[|s.free| - 1]
  }

  ghost function Acquire(c: Config, s: State, p: Place): State
    requires WellFormed(c, s) && |s.free| > 0
  {
    s.(free := s.free[..|s.free| - 1], owner := s.owner[Top(s) := p])
  }

  /** Release pushes the block whether or not it is free already. */
  ghost function Release(s: State, b: nat): State
    requires b < |s.owner|
  {
    s.(free := s.free + [b], owner := s.owner[b := OnFreeList(|s.free|)])
  }

  // ---- steps ----

  ghost predicate ProducerStep(c: Config, s: State, s': State, step: Step)
    requires ValidConfig(c)
  {
    match step
    case Claim =>
      && s.producer.Idle?
      && s' == s.(issued := s.issued + 1, first := false,
                  producer := if s.first then AtCapacity(s.issued) else AtGuard(s.issued))
    case GuardPass =>
      && s.producer.AtGuard? && SlotIndex(s.producer.r, Slots(c)) != s.next
      && s' == s.(producer := AtCapacity(s.producer.r))
    case CapacityPass =>
      && s.producer.AtCapacity? && s.pending < c.softLimit
      && s' == s.(producer := Ready(s.producer.r))
    case Enqueue =>
      && s.producer.Ready?
      && s' == s.(queue := s.queue + [s.producer.r], pending := s.pending + 1, producer := Idle)
    case ProducerStop =>
      && (s.producer.Idle? || (s.stop && (s.producer.AtGuard? || s.producer.AtCapacity?)))
      && s' == s.(producer := Done(!s.producer.Idle?))
    case _ => false
  }

  ghost predicate WorkerStep(c: Config, s: State, s': State, step: Step, i: nat)
    requires ValidConfig(c) && WellFormed(c, s) && i < |s.workers|
  {
    var w := s.workers[i];
    match step
    case TakeTask(_) =>
      && w.Waiting? && |s.queue| > 0
      && s' == s.(queue := s.queue[1..], workers := s.workers[i := HasTask(s.queue[0])],
                  stage := s.stage + [AtWorker(i)])
    case AcquireBlock(_) =>
      && w.HasTask? && !s.stop && |s.free| > 0
      && s' == Acquire(c, s, WithWorker(i)).(workers := s.workers[i := HasBuffer(w.r, Top(s))])
    case WorkerStop(_) =>
      && s.stop && (w.HasTask? || w.HasBuffer?)
      && s' == (if w.HasBuffer? then Release(s, w.b) else s)
                 .(workers := s.workers[i := Exited], pending := s.pending - 1, stage := s.stage[w.r := Gone])
    case Read(_, n) =>
      && w.HasBuffer? && n > 0
      && s' == s.(mem := s.mem[w.b := Payload(w.r, n)], workers := s.workers[i := HasData(w.r, w.b, n)])
    case ReadFail(_) =>
      && w.HasBuffer?
      && s' == s.(workers := s.workers[i := Failing(w.r, w.b)])
    case CheckSlot(_) =>
      && w.HasData?
      && s' == s.(workers := s.workers[i := if s.filled[SlotIndex(w.r, Slots(c))] then Failing(w.r, w.b)
                                       else Checked(w.r, w.b, w.len)])
    case StoreSlot(_) =>
      && w.Checked?
      && s' == s.(slotBlock := s.slotBlock[SlotIndex(w.r, Slots(c)) := w.b],
                  slotLen := s.slotLen[SlotIndex(w.r, Slots(c)) := w.len],
                  workers := s.workers[i := Stored(w.r, w.b, w.len)])
    case MarkSlot(_) =>
      && w.Stored?
      && s' == s.(filled := s.filled[SlotIndex(w.r, Slots(c)) := true], workers := s.workers[i := Finished],
                  stage := s.stage[w.r := AtSlot], owner := s.owner[w.b := InSlot(SlotIndex(w.r, Slots(c)))])
    case ReleaseFailed(_) =>
      && w.Failing?
      && s' == Release(s, w.b).(workers := s.workers[i := Finished], stage := s.stage[w.r := Gone])
    case FinishTask(_) =>
      && w.Finished?
      && s' == s.(workers := s.workers[i := Waiting], pending := s.pending - 1)
    case _ => false
  }

  ghost function Deliver(s: State, path: Path): seq<Delivery>
    requires s.output.Delivering? && s.output.b < |s.mem|
  {
    s.sent + [Delivery(Payload(s.mem[s.output.b].req, s.output.len), path)]
  }

  ghost predicate OutputStep(c: Config, s: State, s': State, step: Step)
    requires ValidConfig(c) && WellFormed(c, s)
  {
    match step
    case TakeSlot =>
      && s.output.Scanning? && !s.ended && s.filled[s.next]
      && s' == s.(output := Delivering(s.slotBlock[s.next], s.slotLen[s.next], Entering),
                  owner := s.owner[s.slotBlock[s.next] := WithOutput])
    case SeeRunning =>
      && s.output.Delivering? && s.output.call.Entering?
      && s' == s.(output := s.output.(call := if s.running then Admitted else Rejected))
    case SendDescriptor =>
      && s.output.Delivering? && s.output.call.Admitted? && |s.descs| < s.taken + c.descCapacity
      && s' == s.(descs := s.descs + [Entry(s.output.b, s.output.len)], output := Sent,
                  owner := s.owner[s.output.b := InDescriptor(|s.descs|)], sent := Deliver(s, ByDescriptor))
    case SendCopy =>
      && s.output.Delivering? && s.output.call.Admitted? && |s.descs| >= s.taken + c.descCapacity
      && s' == s.(output := Releasing(s.output.b), sent := Deliver(s, ByCopy))
    case SendFails =>
      && s.output.Delivering? && s.output.call.Admitted? && |s.descs| >= s.taken + c.descCapacity
      && s' == s.(output := s.output.(call := Rejected))
    case Retry =>
      && s.output.Delivering? && s.output.call.Rejected? && !s.quit
      && s' == s.(output := s.output.(call := Entering))
    case GiveUp =>
      && s.output.Delivering? && s.output.call.Rejected? && s.quit
      && s' == s.(output := Releasing(s.output.b), sent := Deliver(s, Dropped))
    case OutputRelease =>
      && s.output.Releasing?
      && s' == Release(s, s.output.b).(output := Sent)
    case ClearSlot =>
      && s.output.Sent?
      && s' == s.(filled := s.filled[s.next := false], output := Cleared, stage := s.stage[|s.sent| - 1 := Gone])
    case Advance =>
      && s.output.Cleared?
      && s' == s.(next := SlotIndex(s.next + 1, Slots(c)), output := Scanning)
    case OutputEnds =>
      && s.output.Scanning? && s.stop
      && s' == s.(ended := true)
    case _ => false
  }

  function Range(lo: nat, hi: nat): (r: set<nat>)
    requires lo <= hi
    ensures forall k :: k in r <==> lo <= k < hi
    decreases hi - lo
  {
    if lo == hi then {} else {lo} + Range(lo + 1, hi)
  }

  /** Blocks that were in the queue are in a forgotten descriptor. */
  ghost function Discarded(owner: seq<Place>): (out: seq<Place>)
    ensures |out| == |owner|
  {
    seq(|owner|, b requires 0 <= b < |owner| => if owner[b].InDescriptor? then Forgotten(owner[b].k) else owner[b])
  }

  ghost predicate DmaStep(c: Config, s: State, s': State, step: Step)
    requires WellFormed(c, s)
  {
    match step
    case DmaTake =>
      && s.dma.DmaIdle? && s.taken < |s.descs|
      && s' == s.(taken := s.taken + 1, dma := Writing(s.descs[s.taken].b, s.descs[s.taken].len),
                  owner := s.owner[s.descs[s.taken].b := WithDma])
    case DmaWrite =>
      && s.dma.Writing?
      && s' == s.(device := s.device + [Payload(s.mem[s.dma.b].req, s.dma.len)], dma := DmaReleasing(s.dma.b, false))
    case DmaFail =>
      && s.dma.Writing?
      && s' == s.(dma := DmaReleasing(s.dma.b, true))
    case DmaRelease =>
      && s.dma.DmaReleasing?
      && s' == Release(s, s.dma.b).(dma := if s.dma.failed then DmaFailed else DmaIdle)
    case DmaError =>
      && s.dma.DmaFailed?
      && s' == s.(dma := DmaExited, running := false)
    case ChannelStop =>
      && s.dma.DmaIdle?
      && s' == s.(dma := DmaExited)
    case Drain =>
      && s.dma.DmaExited? && s.taken < |s.descs|
      && s' == s.(taken := s.taken + 1, dma := Draining(s.descs[s.taken].b),
                  owner := s.owner[s.descs[s.taken].b := WithDma])
    case DrainRelease =>
      && s.dma.Draining?
      && s' == Release(s, s.dma.b).(dma := DmaExited)
    case DrainLook =>
      && s.dma.DmaExited? && s.taken == |s.descs|
      && s' == s.(dma := Looked)
    case QueueReset =>
      && s.dma.Looked?
      && s' == s.(taken := |s.descs|, dma := WasReset,
                  forgotten := s.forgotten + Range(s.taken, |s.descs|), owner := Discarded(s.owner))
    case ChannelStopped =>
      && s.dma.WasReset?
      && s' == s.(dma := DmaStopped, running := false)
    case DrainAgain =>
      && s.dma.DmaStopped?
      && s' == s.(dma := DmaExited)
    case _ => false
  }

  predicate IsWorkerStep(step: Step) {
    step.TakeTask? || step.AcquireBlock? || step.WorkerStop? || step.Read? || step.ReadFail? ||
    step.CheckSlot? || step.StoreSlot? || step.MarkSlot? || step.ReleaseFailed? || step.FinishTask?
  }

  ghost predicate NextStep(c: Config, s: State, s': State, step: Step)
    requires ValidConfig(c) && WellFormed(c, s)
  {
    || ProducerStep(c, s, s', step)
    || (step.StandStill? && s' == s)
    || (step.StopRequest? && s' == s.(stop := true))
    || (step.QuitRequest? && s' == s.(quit := true))
    || (IsWorkerStep(step) && step.i < |s.workers| && WorkerStep(c, s, s', step, step.i))
    || OutputStep(c, s, s', step)
    || DmaStep(c, s, s', step)
  }

  ghost predicate Next(c: Config, s: State, s': State)
    requires ValidConfig(c)
  {
    WellFormed(c, s) && exists step :: NextStep(c, s, s', step)
  }

  ghost predicate Run(c: Config, tr: seq<State>)
    requires ValidConfig(c)
  {
    && |tr| > 0 && Init(c, tr[0])
    && forall i :: 0 <= i < |tr| - 1 ==> Next(c, tr[i], tr[i + 1])
  }
}
