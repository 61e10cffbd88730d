/** The streaming reader of common/InOutputData/InputDataFromFileUsePOSIX.cpp: one thread that
    claims, reads and stores. It is the pipeline with one worker but for one step. A worker
    looks at the stop flag between acquiring a block and reading; the streaming loop does not.
    If the pool answers an acquire with a stop, the loop reads into a buffer of its own, puts
    that into the slot, and frees it when it returns, while the output thread still runs. */
module StreamingReader {
  import opened Pipeline
  import opened PipelineProofs

  /** What became of the loop's own buffer, used for request r. */
  datatype Own =
    | Unused
    | Refused(r: nat)               // the acquire for r was answered by the stop
    | Filled(r: nat, len: nat)      // the read returned data
    | Unread(r: nat)                // the read failed, or the slot was occupied
    | OwnInSlot(r: nat, len: nat)
    | Heard(r: nat, len: nat)       // the listener has it
    | HeardOut(r: nat, len: nat)    // the listener returned

  /** The pipeline, the loop's own buffer, whether that is still allocated, and whether it
      was at each of the listener calls that got it. */
  datatype Stream = Stream(pipe: State, own: Own, alive: bool, calls: seq<bool>)

  datatype Turn =
    | InPipe(step: Step)
    | Refuse | OwnRead(len: nat) | OwnFail | OwnStore
    | OwnHeard | OwnDone
    | Cleanup

  ghost predicate StreamInit(c: Config, s: Stream) {
    Init(c, s.pipe) && |s.pipe.workers| == 1 && s.own.Unused? && s.alive && s.calls == []
  }

  ghost predicate Shaped(c: Config, s: Stream) {
    ValidConfig(c) && WellFormed(c, s.pipe) && |s.pipe.workers| == 1
  }

  /** The thread is not in the middle of a request. */
  ghost predicate Between(s: Stream)
    requires |s.pipe.workers| == 1
  {
    && s.pipe.queue == [] && (s.pipe.workers[0].Waiting? || s.pipe.workers[0].Exited?)
    && !s.own.Refused? && !s.own.Filled?
  }

  predicate IsClaim(step: Step) { step.Claim? || step.GuardPass? || step.CapacityPass? || step.Enqueue? }

  predicate IsOutput(step: Step) {
    step.TakeSlot? || step.SeeRunning? || step.SendDescriptor? || step.SendCopy? || step.SendFails? || step.Retry? ||
    step.GiveUp? || step.OutputRelease? || step.ClearSlot? || step.Advance? || step.OutputEnds?
  }

  /** When the streaming loop takes a step of the pipeline: it claims the next request only
      between two, and after its own buffer was used it only leaves; a stop between acquire
      and read goes unseen. */
  ghost predicate Allowed(s: Stream, step: Step)
    requires |s.pipe.workers| == 1
  {
    && (IsClaim(step) ==> Between(s) && s.own.Unused?)
    && (step.ProducerStop? ==> Between(s))
    && !step.WorkerStop?
    && (IsOutput(step) ==> !s.own.Heard?)
  }

  ghost predicate StreamStep(c: Config, s: Stream, s': Stream, turn: Turn)
    requires Shaped(c, s)
  {
    match turn
    case InPipe(step) =>
      Allowed(s, step) && NextStep(c, s.pipe, s'.pipe, step) && s' == s.(pipe := s'.pipe)
    case Refuse =>
      && s.own.Unused? && s.pipe.workers[0].HasTask? && s.pipe.stop
      && NextStep(c, s.pipe, s'.pipe, WorkerStop(0))
      && s' == s.(pipe := s'.pipe, own := Refused(s.pipe.workers[0].r))
    case OwnRead(len) => s.own.Refused? && len > 0 && s' == s.(own := Filled(s.own.r, len))
    case OwnFail => s.own.Refused? && s' == s.(own := Unread(s.own.r))
    case OwnStore =>
      && s.own.Filled?
      && s' == s.(own := if s.pipe.filled[SlotIndex(s.own.r, Slots(c))] then Unread(s.own.r)
                  else OwnInSlot(s.own.r, s.own.len))
    case OwnHeard =>
      && s.own.OwnInSlot? && s.pipe.output.Scanning? && !s.pipe.ended && s.pipe.next == SlotIndex(s.own.r, Slots(c))
      && s' == s.(own := Heard(s.own.r, s.own.len), calls := s.calls + [s.alive])
    case OwnDone => s.own.Heard? && s' == s.(own := HeardOut(s.own.r, s.own.len))
    case Cleanup => s.pipe.producer.Done? && Between(s) && s' == s.(alive := false)
  }

  ghost predicate StreamNext(c: Config, s: Stream, s': Stream) {
    Shaped(c, s) && exists turn :: StreamStep(c, s, s', turn)
  }

  ghost predicate StreamRun(c: Config, tr: seq<Stream>) {
    && ValidConfig(c) && |tr| > 0 && StreamInit(c, tr[0])
    && forall i :: 0 <= i < |tr| - 1 ==> StreamNext(c, tr[i], tr[i + 1])
  }

  // ---- the invariant ----

  /** Request r was given up and is not behind the output thread: its slot stays empty. */
  ghost predicate Vacant(s: State, r: nat) {
    r < |s.stage| && s.stage[r] == Gone && Delivered(s) <= r && (!s.output.Scanning? ==> Delivered(s) < r)
  }

  ghost predicate StreamInv(c: Config, s: Stream) {
    && Inv(c, s.pipe) && |s.pipe.workers| == 1
    && (!s.own.Unused? ==> s.pipe.stop && s.pipe.workers[0].Exited? && Vacant(s.pipe, s.own.r))
    && (s.own.Heard? || s.own.HeardOut? <==> s.calls != []) && |s.calls| <= 1
  }

  lemma StreamInitInv(c: Config, s: Stream)
    requires ValidConfig(c) && StreamInit(c, s)
    ensures StreamInv(c, s)
  {
    InitInv(c, s.pipe);
    hide Inv, Init;
  }

  /** No block of the pool is in the slot of a vacant request. */
  lemma VacantSlot(c: Config, s: State, r: nat)
    requires Inv(c, s) && Vacant(s, r)
    ensures WellFormed(c, s) && !s.filled[SlotIndex(r, Slots(c))]
  {
    var j := SlotIndex(r, Slots(c));
    if s.filled[j] {
      var q := RequestIn(s, j);
      assert 0 <= q < |s.stage| && SlotIndex(q, Slots(c)) == j && s.stage[q] == AtSlot;
      if r < q { SlotDistinct(r, q, Slots(c)); } else if q < r { SlotDistinct(q, r, Slots(c)); }
    }
  }

  /** A request that its worker gives up becomes vacant. */
  lemma BecomesVacant(c: Config, s: State, s': State)
    requires Inv(c, s) && |s.workers| == 1 && s.workers[0].HasTask? && NextStep(c, s, s', WorkerStop(0))
    ensures Vacant(s', s.workers[0].r) && s'.workers == [Exited] && s'.stop == s.stop
  {
    assert RequestHeld(s.workers[0]) >= 0;
    assert s.stage[s.workers[0].r] == AtWorker(0);
    hide Owning, Logging, Working, SlotData, Filling, Bounding, SlotIndex;
  }

  /** It stays vacant: the output thread cannot pass its empty slot. */
  lemma StaysVacant(c: Config, s: State, s': State, step: Step, r: nat)
    requires Inv(c, s) && |s.workers| == 1 && s.workers[0].Exited? && Vacant(s, r) && NextStep(c, s, s', step)
    ensures Vacant(s', r) && s'.workers == s.workers && (s.stop ==> s'.stop)
  {
    if s.output.Scanning? && s.filled[s.next] { TakeSlotIsNext(c, s); }
    assert WellFormed(c, s) && Staging(s);
    hide *;
    KindOfStep(c, s, s', step);
    if ProducerStep(c, s, s', step) {
      VacantProducer(c, s, s', step, r);
    } else if SameButStops(s, s') {
      VacantStop(s, s', r);
    } else if IsWorkerStep(step) && step.i < |s.workers| && WorkerStep(c, s, s', step, step.i) {
      VacantWorker(c, s, s', step);
    } else if OutputStep(c, s, s', step) {
      VacantOutput(c, s, s', step, r);
    } else {
      VacantDma(c, s, s', step);
      SameVacant(s, s', r);
    }
  }

  lemma VacantStop(s: State, s': State, r: nat)
    requires Vacant(s, r) && SameButStops(s, s')
    ensures Vacant(s', r) && s'.workers == s.workers && (s.stop ==> s'.stop)
  {}

  lemma SameVacant(s: State, s': State, r: nat)
    requires Vacant(s, r) && s'.stage == s.stage && s'.sent == s.sent && s'.output == s.output
    ensures Vacant(s', r)
  {}

  lemma VacantProducer(c: Config, s: State, s': State, step: Step, r: nat)
    requires ValidConfig(c) && Vacant(s, r) && ProducerStep(c, s, s', step)
    ensures Vacant(s', r) && s'.workers == s.workers && s'.stop == s.stop
  {
    hide SlotIndex, Slots;
  }

  lemma VacantWorker(c: Config, s: State, s': State, step: Step)
    requires ValidConfig(c) && WellFormed(c, s) && |s.workers| == 1 && s.workers[0].Exited?
    requires IsWorkerStep(step) && step.i < |s.workers|
    ensures !WorkerStep(c, s, s', step, step.i)
  {
    hide WellFormed, SlotIndex, Slots;
  }

  lemma VacantOutput(c: Config, s: State, s': State, step: Step, r: nat)
    requires ValidConfig(c) && WellFormed(c, s) && Staging(s) && Vacant(s, r) && OutputStep(c, s, s', step)
    requires s.output.Scanning? && s.filled[s.next] ==> Delivered(s) < |s.stage| && s.stage[Delivered(s)] == AtSlot
    ensures Vacant(s', r) && s'.workers == s.workers && s'.stop == s.stop
  {
    hide SlotIndex, Slots;
  }

  lemma VacantDma(c: Config, s: State, s': State, step: Step)
    requires WellFormed(c, s) && DmaStep(c, s, s', step)
    ensures s'.workers == s.workers && s'.stop == s.stop && s'.stage == s.stage && s'.sent == s.sent
        && s'.output == s.output
  {
    DmaWellFormed(c, s, s', step);
    hide DmaStep, WellFormed;
  }

  lemma StreamStepInv(c: Config, s: Stream, s': Stream, turn: Turn)
    requires StreamInv(c, s) && Shaped(c, s) && StreamStep(c, s, s', turn)
    ensures StreamInv(c, s')
  {
    hide Inv, NextStep, WellFormed, Vacant;
    match turn
    case InPipe(step) =>
      StepInv(c, s.pipe, s'.pipe, step);
      OneWorker(c, s.pipe, s'.pipe, step);
      if !s.own.Unused? { StaysVacant(c, s.pipe, s'.pipe, step, s.own.r); }
    case Refuse =>
      StepInv(c, s.pipe, s'.pipe, WorkerStop(0));
      BecomesVacant(c, s.pipe, s'.pipe);
    case _ =>
  }

  lemma OneWorker(c: Config, s: State, s': State, step: Step)
    requires ValidConfig(c) && WellFormed(c, s) && |s.workers| == 1 && NextStep(c, s, s', step)
    ensures |s'.workers| == 1
  {
    hide ProducerStep, WorkerStep, OutputStep, DmaStep, WellFormed;
    if ProducerStep(c, s, s', step) {
      ProducerKeeps(c, s, s', step);
    } else if IsWorkerStep(step) && step.i < |s.workers| && WorkerStep(c, s, s', step, step.i) {
      WorkerPending(c, s, s', step);
    } else if OutputStep(c, s, s', step) {
      OutputKeeps(c, s, s', step);
    } else if DmaStep(c, s, s', step) {
      VacantDma(c, s, s', step);
    }
  }

  lemma ProducerKeeps(c: Config, s: State, s': State, step: Step)
    requires ValidConfig(c) && ProducerStep(c, s, s', step)
    ensures s'.workers == s.workers
  {
    hide SlotIndex, Slots;
  }

  lemma OutputKeeps(c: Config, s: State, s': State, step: Step)
    requires ValidConfig(c) && WellFormed(c, s) && OutputStep(c, s, s', step)
    ensures s'.workers == s.workers
  {
    hide SlotIndex, Slots;
  }

  lemma {:induction false} StreamRunInv(c: Config, tr: seq<Stream>, i: nat)
    requires StreamRun(c, tr) && i < |tr|
    ensures StreamInv(c, tr[i])
    decreases i
  {
    hide StreamInv, Inv, Init, NextStep, StreamStep, Shaped;
    if i == 0 {
      StreamInitInv(c, tr[0]);
    } else {
      StreamRunInv(c, tr, i - 1);
      assert StreamNext(c, tr[i - 1], tr[i - 1 + 1]);
      var turn :| StreamStep(c, tr[i - 1], tr[i], turn);
      StreamStepInv(c, tr[i - 1], tr[i], turn);
    }
  }

  // ---- one thing at a time ----

  /** The loop does one thing at a time: it claims a request only with no other in hand, has at
      most one on its way to be read, and gives one up only behind a refused acquire. While the
      listener has the loop's buffer the output thread does nothing else; the buffer is freed last. */
  ghost predicate InTurn(s: Stream)
    requires |s.pipe.workers| == 1
  {
    var p, w := s.pipe, s.pipe.workers[0];
    && (p.producer.AtGuard? || p.producer.AtCapacity? || p.producer.Ready? ==> Between(s) && s.own.Unused?)
    && (p.queue != [] ==> |p.queue| == 1 && w.Waiting? && s.own.Unused?)
    && (IsBusy(w) ==> s.own.Unused?) && (w.Exited? ==> !s.own.Unused?)
    && (s.own.Heard? ==> p.output.Scanning? && !p.ended)
    && (!s.alive ==> p.producer.Done? && Between(s))
  }

  lemma InTurnStep(c: Config, s: Stream, s': Stream, turn: Turn)
    requires Shaped(c, s) && InTurn(s) && |s'.pipe.workers| == 1 && StreamStep(c, s, s', turn)
    ensures InTurn(s')
  {
    hide NextStep, WellFormed, SlotIndex, Slots;
    match turn
    case InPipe(step) => PipeInTurn(c, s, s', step);
    case Refuse => RefuseInTurn(c, s, s');
    case _ =>
  }

  lemma RefuseInTurn(c: Config, s: Stream, s': Stream)
    requires Shaped(c, s) && InTurn(s) && |s'.pipe.workers| == 1 && StreamStep(c, s, s', Refuse)
    ensures InTurn(s')
  {
    WorkerAlone(c, s.pipe, s'.pipe, WorkerStop(0));
    hide WellFormed, SlotIndex, Slots;
  }

  lemma PipeInTurn(c: Config, s: Stream, s': Stream, step: Step)
    requires Shaped(c, s) && InTurn(s) && |s'.pipe.workers| == 1
    requires Allowed(s, step) && NextStep(c, s.pipe, s'.pipe, step) && s' == s.(pipe := s'.pipe)
    ensures InTurn(s')
  {
    hide WellFormed, InTurn, Allowed, ProducerStep, WorkerStep, OutputStep, DmaStep, Slots, SlotIndex;
    KindOfStep(c, s.pipe, s'.pipe, step);
    if ProducerStep(c, s.pipe, s'.pipe, step) {
      ProducerInTurn(c, s, s', step);
    } else if OutputStep(c, s.pipe, s'.pipe, step) {
      OutputInTurn(c, s, s', step);
    } else if SameButStops(s.pipe, s'.pipe) || DmaStep(c, s.pipe, s'.pipe, step) {
      ElsewhereInTurn(c, s, s', step);
    } else {
      WorkerInTurn(c, s, s', step);
    }
  }

  lemma ProducerInTurn(c: Config, s: Stream, s': Stream, step: Step)
    requires Shaped(c, s) && InTurn(s) && |s'.pipe.workers| == 1
    requires Allowed(s, step) && ProducerStep(c, s.pipe, s'.pipe, step) && s' == s.(pipe := s'.pipe)
    ensures InTurn(s')
  {
    hide WellFormed, SlotIndex, Slots;
  }

  lemma OutputInTurn(c: Config, s: Stream, s': Stream, step: Step)
    requires Shaped(c, s) && InTurn(s) && |s'.pipe.workers| == 1
    requires Allowed(s, step) && OutputStep(c, s.pipe, s'.pipe, step) && s' == s.(pipe := s'.pipe)
    ensures InTurn(s')
  {
    OutputElsewhere(c, s.pipe, s'.pipe, step);
    hide WellFormed, OutputStep, SlotIndex, Slots;
  }

  lemma OutputElsewhere(c: Config, s: State, s': State, step: Step)
    requires ValidConfig(c) && WellFormed(c, s) && OutputStep(c, s, s', step)
    ensures IsOutput(step) && s'.workers == s.workers && s'.queue == s.queue && s'.producer == s.producer
  {
    hide SlotIndex, Slots, Deliver;
  }

  lemma ElsewhereInTurn(c: Config, s: Stream, s': Stream, step: Step)
    requires Shaped(c, s) && InTurn(s) && |s'.pipe.workers| == 1
    requires SameButStops(s.pipe, s'.pipe) || DmaStep(c, s.pipe, s'.pipe, step)
    requires s' == s.(pipe := s'.pipe)
    ensures InTurn(s')
  {
    hide WellFormed, DmaStep, SlotIndex, Slots;
    if DmaStep(c, s.pipe, s'.pipe, step) { DmaWellFormed(c, s.pipe, s'.pipe, step); }
  }

  lemma WorkerInTurn(c: Config, s: Stream, s': Stream, step: Step)
    requires Shaped(c, s) && InTurn(s) && |s'.pipe.workers| == 1 && Allowed(s, step) && s' == s.(pipe := s'.pipe)
    requires IsWorkerStep(step) && step.i == 0 && WorkerStep(c, s.pipe, s'.pipe, step, 0)
    ensures InTurn(s')
  {
    WorkerAlone(c, s.pipe, s'.pipe, step);
    WorkerKeeps(c, s.pipe, s'.pipe, step);
    hide WellFormed, WorkerStep, SlotIndex, Slots;
  }

  /** What the one worker does to the queue and to itself. */
  lemma WorkerAlone(c: Config, s: State, s': State, step: Step)
    requires ValidConfig(c) && WellFormed(c, s) && |s.workers| == 1
    requires IsWorkerStep(step) && step.i == 0 && WorkerStep(c, s, s', step, 0)
    ensures |s'.workers| == 1 && (step.TakeTask? <==> s.workers[0].Waiting?) && !s.workers[0].Exited?
    ensures if step.TakeTask? then s.queue != [] && s'.queue == s.queue[1..] else s'.queue == s.queue
    ensures step.WorkerStop? <==> s'.workers[0].Exited?
    ensures WorkersOnly(s, s')
  {
    WorkerKeeps(c, s, s', step);
    if step.AcquireBlock? || step.WorkerStop? || step.ReleaseFailed? {
      PoolWorkerAlone(c, s, s', step);
      hide *;
    } else {
      hide WellFormed, SlotIndex, Slots, Acquire, Release;
    }
  }

  lemma PoolWorkerAlone(c: Config, s: State, s': State, step: Step)
    requires ValidConfig(c) && WellFormed(c, s) && |s.workers| == 1
    requires (step.AcquireBlock? || step.WorkerStop? || step.ReleaseFailed?) && step.i == 0
    requires WorkerStep(c, s, s', step, 0)
    ensures |s'.workers| == 1 && !s.workers[0].Waiting? && !s.workers[0].Exited? && s'.queue == s.queue
    ensures step.WorkerStop? <==> s'.workers[0].Exited?
  {
    hide WellFormed, SlotIndex, Slots;
  }

  /** In every streaming run the loop does one thing at a time. */
  lemma {:induction false} OneThingAtATime(c: Config, tr: seq<Stream>, i: nat)
    requires StreamRun(c, tr) && i < |tr|
    ensures |tr[i].pipe.workers| == 1 && InTurn(tr[i])
    decreases i
  {
    hide StreamInv, Inv, Init, NextStep, StreamStep, InTurn;
    StreamRunInv(c, tr, i);
    AloneInv(c, tr[i]);
    if i == 0 {
      InTurnAtStart(c, tr);
    } else {
      OneThingAtATime(c, tr, i - 1);
      assert StreamNext(c, tr[i - 1], tr[i - 1 + 1]);
      var turn :| StreamStep(c, tr[i - 1], tr[i], turn);
      InTurnStep(c, tr[i - 1], tr[i], turn);
    }
  }

  lemma AloneInv(c: Config, s: Stream)
    requires StreamInv(c, s)
    ensures |s.pipe.workers| == 1
  {}

  lemma InTurnAtStart(c: Config, tr: seq<Stream>)
    requires StreamRun(c, tr)
    ensures |tr[0].pipe.workers| == 1 && InTurn(tr[0])
  {}

  // ---- what streaming runs guarantee ----

  /** The states of the pipeline in a streaming run. */
  function Pipes(tr: seq<Stream>): (ps: seq<State>)
    ensures |ps| == |tr| && forall k :: 0 <= k < |tr| ==> ps[k] == tr[k].pipe
  {
    seq(|tr|, k requires 0 <= k < |tr| => tr[k].pipe)
  }

  /** A streaming run is a run of the pipeline, which stands still while the loop is busy with
      its own buffer: whatever holds in every run of the pipeline holds in every streaming run. */
  lemma StreamIsRun(c: Config, tr: seq<Stream>)
    requires StreamRun(c, tr)
    ensures ValidConfig(c) && Run(c, Pipes(tr))
  {
    hide Inv, Init, NextStep, WellFormed, StreamStep, StreamInv;
    var ps := Pipes(tr);
    forall i | 0 <= i < |ps| - 1 ensures Next(c, ps[i], ps[i + 1]) {
      assert StreamNext(c, tr[i], tr[i + 1]);
      var turn :| StreamStep(c, tr[i], tr[i + 1], turn);
      TurnInPipe(c, tr[i], tr[i + 1], turn);
    }
  }

  lemma TurnInPipe(c: Config, s: Stream, s': Stream, turn: Turn)
    requires Shaped(c, s) && StreamStep(c, s, s', turn)
    ensures Next(c, s.pipe, s'.pipe)
  {
    hide ProducerStep, WorkerStep, OutputStep, DmaStep, WellFormed, SlotIndex;
    var step := match turn case InPipe(step) => step case Refuse => WorkerStop(0) case _ => StandStill;
    assert NextStep(c, s.pipe, s'.pipe, step);
  }

  /** So what comes from the pool is handled as in the pipeline: the listener is called for
      requests 0, 1, 2, ... in order, once each, with what was read for them; the device has
      what was sent, in order; and every block of the pool is in exactly one place, lost exactly
      if the channel's drain forgot it. */
  lemma StreamKeepsPipeline(c: Config, tr: seq<Stream>, i: nat, b: nat) returns (p: Place)
    requires StreamRun(c, tr) && i < |tr| && b < Slots(c)
    ensures var s := tr[i].pipe;
      && (forall k :: 0 <= k < |s.sent| ==> s.sent[k].payload.req == k)
      && (s.output.Delivering? ==>
           s.output.b < |s.mem| && s.mem[s.output.b] == Payload(|s.sent|, s.output.len))
      && s.device <= DescriptorLog(s.sent)
      && BlockAt(s, b, p) && forall q :: BlockAt(s, b, q) ==> q == p
    ensures p.Forgotten? <==> exists n :: LostAs(c, Pipes(tr), i, b, n)
  {
    hide StreamRun, Run, BlockAt, LostAs;
    StreamIsRun(c, tr);
    DeliveredInOrder(c, Pipes(tr), i);
    DeviceSeesSentData(c, Pipes(tr), i);
    p := BlockConservation(c, Pipes(tr), i, b);
  }

  /** A slot, or the listener, has or had the loop's own buffer. */
  predicate OwnStored(own: Own) { own.OwnInSlot? || own.Heard? || own.HeardOut? }

  /** At step k the loop's acquire is answered by the stop. */
  ghost predicate AcquireRefused(c: Config, tr: seq<Stream>, k: nat) {
    k + 1 < |tr| && Shaped(c, tr[k]) && StreamStep(c, tr[k], tr[k + 1], Refuse)
  }

  /** At step k the loop reads into its own buffer, and the read returns data. */
  ghost predicate ReadReturned(c: Config, tr: seq<Stream>, k: nat) {
    k + 1 < |tr| && Shaped(c, tr[k]) && exists len :: StreamStep(c, tr[k], tr[k + 1], OwnRead(len))
  }

  ghost predicate RefusedBefore(c: Config, tr: seq<Stream>, i: nat) {
    exists k :: 0 <= k < i && AcquireRefused(c, tr, k)
  }

  ghost predicate ReadBefore(c: Config, tr: seq<Stream>, i: nat) {
    exists k :: 0 <= k < i && ReadReturned(c, tr, k)
  }

  /** The slot is never occupied, so a successful read always ends in the slot. */
  lemma OwnStoreSucceeds(c: Config, s: Stream, s': Stream)
    requires StreamInv(c, s) && Shaped(c, s) && StreamStep(c, s, s', OwnStore)
    ensures s.own.Filled? && s'.own == OwnInSlot(s.own.r, s.own.len)
  {
    VacantSlot(c, s.pipe, s.own.r);
    hide Inv, WellFormed, Vacant, SlotIndex;
  }

  /** Slots and listener get the loop's own buffer, or are about to, exactly when a read into it
      has returned data; and the loop uses that buffer exactly when an acquire was answered by
      the stop. Without such an acquire they have none but blocks of the pool. */
  lemma {:induction false} OnlyPoolBlocksIff(c: Config, tr: seq<Stream>, i: nat)
    requires StreamRun(c, tr) && i < |tr|
    ensures tr[i].own.Filled? || OwnStored(tr[i].own) <==> ReadBefore(c, tr, i)
    ensures tr[i].own.Unused? <==> !RefusedBefore(c, tr, i)
    ensures ReadBefore(c, tr, i) ==> RefusedBefore(c, tr, i)
    ensures !tr[i].own.Unused? ==> tr[i].pipe.stop
    decreases i
  {
    hide *;
    OwnAtStart(c, tr, i);
    if i == 0 {
      NothingBefore(c, tr);
    } else {
      OnlyPoolBlocksIff(c, tr, i - 1);
      var turn := OwnMovesAt(c, tr, i - 1);
      OneLater(c, tr, i, turn);
      OwnTurns(tr[i - 1].own, tr[i].own, turn);
    }
  }

  lemma NothingBefore(c: Config, tr: seq<Stream>)
    ensures !ReadBefore(c, tr, 0) && !RefusedBefore(c, tr, 0)
    ensures forall own: Own :: own.Unused? ==> !OwnStored(own)
  {}

  /** What the turn taken says about the earlier ones: reads and refusals so far are those
      before and, it may be, this one. */
  lemma OneLater(c: Config, tr: seq<Stream>, i: nat, turn: Turn)
    requires 0 < i < |tr| && Shaped(c, tr[i - 1]) && StreamStep(c, tr[i - 1], tr[i], turn)
    requires OwnFollows(tr[i - 1].own, tr[i].own, turn)
    ensures ReadBefore(c, tr, i) <==> ReadBefore(c, tr, i - 1) || turn.OwnRead?
    ensures RefusedBefore(c, tr, i) <==> RefusedBefore(c, tr, i - 1) || turn.Refuse?
  {
    assert ReadReturned(c, tr, i - 1) <==> turn.OwnRead? by { OnlyTurn(c, tr, i - 1, turn); }
    assert AcquireRefused(c, tr, i - 1) <==> turn.Refuse? by { OnlyTurn(c, tr, i - 1, turn); }
    hide ReadReturned, AcquireRefused, OwnFollows, Shaped, StreamStep;
  }

  /** No other turn than a read or a refusal does what one of these does. */
  lemma OnlyTurn(c: Config, tr: seq<Stream>, k: nat, turn: Turn)
    requires k + 1 < |tr| && Shaped(c, tr[k]) && StreamStep(c, tr[k], tr[k + 1], turn)
    requires OwnFollows(tr[k].own, tr[k + 1].own, turn)
    ensures ReadReturned(c, tr, k) <==> turn.OwnRead?
    ensures AcquireRefused(c, tr, k) <==> turn.Refuse?
  {
    hide NextStep, WellFormed, SlotIndex, Shaped, Allowed, Between;
  }

  lemma OwnTurns(a: Own, b: Own, turn: Turn)
    requires OwnFollows(a, b, turn)
    ensures b.Filled? || OwnStored(b) <==> a.Filled? || OwnStored(a) || turn.OwnRead?
    ensures b.Unused? <==> a.Unused? && !turn.Refuse?
    ensures turn.OwnRead? ==> !a.Unused?
  {}

  lemma OwnAtStart(c: Config, tr: seq<Stream>, i: nat)
    requires StreamRun(c, tr) && i < |tr|
    ensures tr[0].own.Unused? && (!tr[i].own.Unused? ==> tr[i].pipe.stop)
  {
    StreamRunInv(c, tr, i);
    hide Inv, Init, Vacant;
  }

  lemma OwnMovesAt(c: Config, tr: seq<Stream>, i: nat) returns (turn: Turn)
    requires StreamRun(c, tr) && i + 1 < |tr|
    ensures Shaped(c, tr[i]) && StreamStep(c, tr[i], tr[i + 1], turn)
    ensures OwnFollows(tr[i].own, tr[i + 1].own, turn)
  {
    StreamRunInv(c, tr, i);
    hide StreamInv, StreamStep;
    assert StreamNext(c, tr[i], tr[i + 1]);
    turn :| StreamStep(c, tr[i], tr[i + 1], turn);
    if turn.OwnStore? { OwnStoreSucceeds(c, tr[i], tr[i + 1]); }
    OwnMoves(c, tr[i], tr[i + 1], turn);
  }

  /** How the own buffer moves on with the turns of a run. */
  predicate OwnFollows(a: Own, b: Own, turn: Turn) {
    match turn
    case Refuse => a.Unused? && b.Refused?
    case OwnRead(_) => a.Refused? && b.Filled?
    case OwnFail => a.Refused? && b.Unread?
    case OwnStore => a.Filled? && b.OwnInSlot?
    case OwnHeard => a.OwnInSlot? && b.Heard?
    case OwnDone => a.Heard? && b.HeardOut?
    case _ => b == a
  }

  lemma OwnMoves(c: Config, s: Stream, s': Stream, turn: Turn)
    requires Shaped(c, s) && StreamStep(c, s, s', turn)
    requires turn.OwnStore? ==> s'.own.OwnInSlot?
    ensures OwnFollows(s.own, s'.own, turn)
  {
    hide NextStep, WellFormed, SlotIndex;
  }

  // ---- the freed buffer ----

  ghost predicate StreamReached(c: Config, s0: Stream, s: Stream) {
    exists tr :: StreamRun(c, tr) && tr[0] == s0 && tr[|tr| - 1] == s
  }

  lemma TakeTurn(c: Config, s0: Stream, s: Stream, s': Stream, turn: Turn)
    requires StreamReached(c, s0, s) && Shaped(c, s) && StreamStep(c, s, s', turn)
    ensures StreamReached(c, s0, s') && StreamInv(c, s') && Shaped(c, s')
  {
    hide StreamStep, StreamInv, StreamInit, Shaped;
    var tr :| StreamRun(c, tr) && tr[0] == s0 && tr[|tr| - 1] == s;
    assert StreamNext(c, s, s');
    var more := tr + [s'];
    forall i | 0 <= i < |more| - 1 ensures StreamNext(c, more[i], more[i + 1]) {
      if i < |tr| - 1 { assert StreamNext(c, tr[i], tr[i + 1]); }
    }
    assert StreamRun(c, more) && more[0] == s0 && more[|more| - 1] == s';
    StreamRunInv(c, more, |more| - 1);
    InvShaped(c, s');
  }

  lemma InvShaped(c: Config, s: Stream)
    requires StreamInv(c, s)
    ensures Shaped(c, s)
  {
    InvWellFormed(c, s.pipe);
    hide WellFormed;
  }

  /** The first request has been taken by the loop; nothing was stored. */
  ghost predicate FirstTaken(s: State) {
    && s.issued == 1 && !s.first && s.producer.Idle? && s.queue == [] && s.pending == 1 && s.workers == [HasTask(0)]
    && s.next == 0 && s.output.Scanning? && !s.ended && |s.stage| == 1
  }

  lemma TakeFirst(c: Config, s0: Stream) returns (s: Stream)
    requires ValidConfig(c) && StreamInit(c, s0)
    ensures StreamReached(c, s0, s) && Shaped(c, s) && FirstTaken(s.pipe) && s.own.Unused? && s.alive && s.calls == []
  {
    var s2 := ClaimFirst(c, s0);
    hide StreamReached, StreamInv, WellFormed;
    var p3 := s2.pipe.(queue := [0], pending := 1, producer := Idle);
    var s3 := s2.(pipe := p3);
    TakeTurn(c, s0, s2, s3, InPipe(Enqueue));
    s := TakeTheTask(c, s0, s3);
  }

  lemma TakeTheTask(c: Config, s0: Stream, s: Stream) returns (s': Stream)
    requires StreamReached(c, s0, s) && Shaped(c, s) && s.pipe.queue == [0] && s.pipe.workers == [Waiting]
        && s.pipe.stage == []
    ensures s' == s.(pipe := s.pipe.(queue := [], workers := [HasTask(0)], stage := [AtWorker(0)]))
    ensures StreamReached(c, s0, s') && StreamInv(c, s') && Shaped(c, s')
  {
    hide StreamReached, StreamInv, WellFormed, ProducerStep, OutputStep, DmaStep;
    s' := s.(pipe := s.pipe.(queue := [], workers := [HasTask(0)], stage := [AtWorker(0)]));
    assert s.pipe.queue[1..] == [] && s.pipe.workers[0 := HasTask(0)] == [HasTask(0)]
        && [] + [AtWorker(0)] == [AtWorker(0)];
    TakeTurn(c, s0, s, s', InPipe(TakeTask(0)));
  }

  lemma ClaimFirst(c: Config, s0: Stream) returns (s: Stream)
    requires ValidConfig(c) && StreamInit(c, s0)
    ensures StreamReached(c, s0, s) && Shaped(c, s) && s.own.Unused? && s.alive && s.calls == []
    ensures var p := s.pipe;
      && p.issued == 1 && !p.first && p.producer == Ready(0) && p.queue == [] && p.pending == 0
          && p.workers == [Waiting]
      && p.next == 0 && p.output.Scanning? && !p.ended && p.stage == []
  {
    assert StreamRun(c, [s0]) && [s0][|[s0]| - 1] == s0;
    StreamInitInv(c, s0);
    InvShaped(c, s0);
    hide StreamReached, StreamInv, WellFormed;
    var p0 := s0.pipe;
    assert p0.workers == [Waiting];
    var p1 := p0.(issued := 1, first := false, producer := AtCapacity(0));
    var s1 := s0.(pipe := p1);
    TakeTurn(c, s0, s0, s1, InPipe(Claim));
    var p2 := p1.(producer := Ready(0));
    s := s1.(pipe := p2);
    TakeTurn(c, s0, s1, s, InPipe(CapacityPass));
  }

  /** From any fresh start: a stop that comes while the loop acquires its first block can make
      the listener be called with the loop's buffer after it was freed. */
  lemma FreedBufferIsReachable(c: Config, s0: Stream)
    requires ValidConfig(c) && StreamInit(c, s0)
    ensures exists s :: StreamReached(c, s0, s) && s.own.Heard? && s.calls == [false]
  {
    var s1 := TakeFirst(c, s0);
    hide StreamReached, StreamInv, WellFormed;
    var p1 := s1.pipe;
    var p2 := p1.(stop := true);
    var s2 := s1.(pipe := p2);
    TakeTurn(c, s0, s1, s2, InPipe(StopRequest));
    var p3 := p2.(workers := [Exited], pending := 0, stage := [Gone]);
    assert p2.workers[0 := Exited] == [Exited] && p2.stage[0 := Gone] == [Gone];
    var s3 := s2.(pipe := p3, own := Refused(0));
    TakeTurn(c, s0, s2, s3, Refuse);
    var s4 := ReadOwn(c, s0, s3);
    LeaveAndFree(c, s0, s4);
  }

  lemma ReadOwn(c: Config, s0: Stream, s: Stream) returns (s': Stream)
    requires StreamReached(c, s0, s) && StreamInv(c, s) && Shaped(c, s) && s.own == Refused(0)
    ensures StreamReached(c, s0, s') && StreamInv(c, s') && Shaped(c, s') && s' == s.(own := OwnInSlot(0, 1))
  {
    hide StreamReached, StreamInv, Shaped;
    var s1 := s.(own := Filled(0, 1));
    TakeTurn(c, s0, s, s1, OwnRead(1));
    assert !s1.pipe.filled[SlotIndex(0, Slots(c))] by { FilledVacant(c, s1); }
    s' := s.(own := OwnInSlot(0, 1));
    TakeTurn(c, s0, s1, s', OwnStore);
  }

  lemma FilledVacant(c: Config, s: Stream)
    requires StreamInv(c, s) && s.own.Filled?
    ensures ValidConfig(c) && WellFormed(c, s.pipe) && !s.pipe.filled[SlotIndex(s.own.r, Slots(c))]
  {
    VacantSlot(c, s.pipe, s.own.r);
  }

  lemma LeaveAndFree(c: Config, s0: Stream, s: Stream)
    requires StreamReached(c, s0, s) && Shaped(c, s) && s.own == OwnInSlot(0, 1) && s.calls == []
    requires s.pipe.producer.Idle? && s.pipe.queue == [] && s.pipe.workers == [Exited]
    requires s.pipe.next == 0 && s.pipe.output.Scanning? && !s.pipe.ended
    ensures exists t :: StreamReached(c, s0, t) && t.own.Heard? && t.calls == [false]
  {
    hide StreamReached, StreamInv, WellFormed;
    var s1 := s.(pipe := s.pipe.(producer := Producer.Done(false)));
    TakeTurn(c, s0, s, s1, InPipe(ProducerStop));
    var s2 := s1.(alive := false);
    TakeTurn(c, s0, s1, s2, Cleanup);
    assert SlotIndex(0, Slots(c)) == 0;
    var s3 := s2.(own := Heard(0, 1), calls := [false]);
    TakeTurn(c, s0, s2, s3, OwnHeard);
  }
}
