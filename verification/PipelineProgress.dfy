/** Why the pipeline loses a request, leaves a thread behind, or stands still: what makes a
    request disappear, what makes the channel's worker end, and exactly when no thread can go on. */
module PipelineProgress {
  import opened Basics
  import opened Modular
  import opened Pipeline
  import opened PipelineProofs

  // ---- causes, step by step ----

  /** The channel's worker writes no more. */
  predicate WritesNoMore(d: Dma) { !d.DmaIdle? && !d.Writing? && !(d.DmaReleasing? && !d.failed) }

  /** What a step may do to worker k: it ends after a stop only, takes no block after a stop, and
      fails only for a read or for an occupied slot. */
  ghost predicate WorkerCaused(c: Config, s: State, s': State, k: nat)
    requires ValidConfig(c) && k < |s.workers| == |s'.workers| && |s.filled| == Slots(c)
  {
    var w, w' := s.workers[k], s'.workers[k];
    && (w'.Exited? ==> w.Exited? || s.stop) && (w.Exited? ==> w' == w)
    && (s.stop && w.HasTask? ==> w' == w || w'.Exited?)
    && (w'.Failing? ==> w' == w || (w.HasBuffer? && w.r == w'.r)
                        || (w.HasData? && w.r == w'.r && s.filled[SlotIndex(w.r, Slots(c))]))
  }

  /** A request that is gone after the step was gone before, was delivered, was given up after a
      stop, or had failed. */
  ghost predicate GoneCaused(s: State, s': State, r: nat)
    requires r < |s'.stage|
  {
    s'.stage[r].Gone? ==>
      || (r < |s.stage| && s.stage[r].Gone?) || r < |s'.sent| || s.stop
      || exists k :: 0 <= k < |s.workers| && s.workers[k].Failing? && s.workers[k].r == r
  }

  /** The channel's worker has failed to write and has not reported it yet. */
  predicate WriteRefused(d: Dma) { d.DmaFailed? || (d.DmaReleasing? && d.failed) }

  /** In the step the device refuses a write. */
  predicate Refuses(s: State, s': State) {
    s.dma.Writing? && !s'.dma.Writing? && s'.device == s.device
  }

  ghost predicate ChannelCaused(s: State, s': State) {
    && (!s'.running ==> !s.running || s.dma.DmaFailed? || s.dma.WasReset?) && (s'.running ==> s.running)
    && (WriteRefused(s'.dma) ==> WriteRefused(s.dma) || Refuses(s, s'))
    && (WriteRefused(s.dma) || Refuses(s, s') ==> WriteRefused(s'.dma) || !s'.running)
    && (s.dma.WasReset? ==> s'.dma.WasReset? || !s'.running)
    && (WritesNoMore(s.dma) ==> WritesNoMore(s'.dma) && s'.device == s.device)
    && (!WritesNoMore(s'.dma) ==> s'.forgotten == s.forgotten)
  }

  ghost predicate Caused(c: Config, s: State, s': State)
    requires ValidConfig(c) && |s.filled| == Slots(c)
  {
    && (s.stop ==> s'.stop) && |s'.workers| == |s.workers| && |s.sent| <= |s'.sent|
    && (s'.ended ==> s.ended || s.stop)
    && (s'.producer == Done(true) ==> s.producer == Done(true) || s.stop)
    && (forall k :: 0 <= k < |s.workers| ==> WorkerCaused(c, s, s', k))
    && (forall r :: 0 <= r < |s'.stage| ==> GoneCaused(s, s', r))
    && ChannelCaused(s, s')
  }

  lemma StepCaused(c: Config, s: State, s': State, step: Step)
    requires Inv(c, s) && NextStep(c, s, s', step)
    ensures ValidConfig(c) && |s.filled| == Slots(c) && Caused(c, s, s')
  {
    InvWellFormed(c, s);
    InvValid(c, s);
    InvSlots(c, s);
    hide *;
    KindOfStep(c, s, s', step);
    if OutputStep(c, s, s', step) {
      OutputCaused(c, s, s', step);
    } else if ProducerStep(c, s, s', step) {
      ProducerCaused(c, s, s', step);
    } else if DmaStep(c, s, s', step) {
      DmaCaused(c, s, s', step);
    } else if SameButStops(s, s') {
      StopsCaused(c, s, s');
    } else {
      WorkersCaused(c, s, s', step);
    }
  }

  lemma InvSlots(c: Config, s: State)
    requires Inv(c, s)
    ensures |s.filled| == Slots(c)
  {}

  lemma ProducerCaused(c: Config, s: State, s': State, step: Step)
    requires ValidConfig(c) && WellFormed(c, s) && ProducerStep(c, s, s', step)
    ensures Caused(c, s, s')
  {
    hide SlotIndex;
  }

  lemma StopsCaused(c: Config, s: State, s': State)
    requires ValidConfig(c) && |s.filled| == Slots(c) && SameButStops(s, s')
    ensures Caused(c, s, s')
  {}

  lemma OutputCaused(c: Config, s: State, s': State, step: Step)
    requires ValidConfig(c) && WellFormed(c, s) && OutputStep(c, s, s', step)
    ensures Caused(c, s, s')
  {
    hide SlotIndex;
  }

  lemma DmaCaused(c: Config, s: State, s': State, step: Step)
    requires ValidConfig(c) && WellFormed(c, s) && DmaStep(c, s, s', step) && |s.filled| == Slots(c)
    ensures Caused(c, s, s')
  {
    hide WellFormed, DmaStep, SlotIndex, Slots, ChannelCaused;
    DmaWellFormed(c, s, s', step);
    ChannelStepCaused(c, s, s', step);
  }

  lemma ChannelStepCaused(c: Config, s: State, s': State, step: Step)
    requires WellFormed(c, s) && DmaStep(c, s, s', step)
    ensures ChannelCaused(s, s')
  {
    hide WellFormed;
  }

  lemma WorkersCaused(c: Config, s: State, s': State, step: Step)
    requires ValidConfig(c) && WellFormed(c, s) && |s.filled| == Slots(c)
    requires IsWorkerStep(step) && step.i < |s.workers| && WorkerStep(c, s, s', step, step.i)
    ensures Caused(c, s, s')
  {
    hide WellFormed, WorkerStep, WorkersOnly, WorkerCaused, GoneCaused, Caused, SlotIndex, Slots;
    WorkerKeeps(c, s, s', step);
    OneWorkerMoves(c, s, s', step);
    WorkerMoved(c, s, s', step);
    RequestMoved(c, s, s', step);
    WorkersOnlyCaused(c, s, s', step.i);
  }

  lemma OneWorkerMoves(c: Config, s: State, s': State, step: Step)
    requires ValidConfig(c) && WellFormed(c, s)
    requires IsWorkerStep(step) && step.i < |s.workers| && WorkerStep(c, s, s', step, step.i)
    ensures |s'.workers| == |s.workers| && s'.workers == s.workers[step.i := s'.workers[step.i]]
  {
    if step.AcquireBlock? || step.WorkerStop? || step.ReleaseFailed? {
      OneWorkerMovesPool(c, s, s', step);
      hide *;
    } else {
      hide WellFormed, SlotIndex, Slots, Acquire, Release;
    }
  }

  lemma OneWorkerMovesPool(c: Config, s: State, s': State, step: Step)
    requires ValidConfig(c) && WellFormed(c, s) && (step.AcquireBlock? || step.WorkerStop? || step.ReleaseFailed?)
    requires step.i < |s.workers| && WorkerStep(c, s, s', step, step.i)
    ensures |s'.workers| == |s.workers| && s'.workers == s.workers[step.i := s'.workers[step.i]]
  {
    hide WellFormed, SlotIndex, Slots;
  }

  lemma WorkerMoved(c: Config, s: State, s': State, step: Step)
    requires ValidConfig(c) && WellFormed(c, s) && |s.filled| == Slots(c) && |s'.workers| == |s.workers|
    requires IsWorkerStep(step) && step.i < |s.workers| && WorkerStep(c, s, s', step, step.i)
    ensures WorkerCaused(c, s, s', step.i)
  {
    hide WellFormed, SlotIndex, Slots;
  }

  lemma RequestMoved(c: Config, s: State, s': State, step: Step)
    requires ValidConfig(c) && WellFormed(c, s)
    requires IsWorkerStep(step) && step.i < |s.workers| && WorkerStep(c, s, s', step, step.i)
    ensures forall r :: 0 <= r < |s'.stage| ==> GoneCaused(s, s', r)
  {
    hide SlotIndex, Slots;
  }

  lemma WorkersOnlyCaused(c: Config, s: State, s': State, i: nat)
    requires ValidConfig(c) && |s.filled| == Slots(c) && WorkersOnly(s, s') && i < |s.workers| == |s'.workers|
    requires s'.workers == s.workers[i := s'.workers[i]] && WorkerCaused(c, s, s', i)
    requires forall r :: 0 <= r < |s'.stage| ==> GoneCaused(s, s', r)
    ensures Caused(c, s, s')
  {
    hide SlotIndex, Slots, GoneCaused;
  }

  // ---- causes, over whole runs ----

  lemma CausedAt(c: Config, tr: seq<State>, i: nat)
    requires ValidConfig(c) && Run(c, tr) && i < |tr| - 1
    ensures |tr[i].filled| == Slots(c) && Caused(c, tr[i], tr[i + 1])
  {
    hide *;
    var step := StepAt(c, tr, i);
    StepCaused(c, tr[i], tr[i + 1], step);
  }

  lemma FreshStart(c: Config, tr: seq<State>)
    requires ValidConfig(c) && Run(c, tr)
    ensures |tr| > 0 && !tr[0].ended && tr[0].producer.Idle? && tr[0].stage == [] && tr[0].running
    ensures tr[0].dma.DmaIdle? && tr[0].forgotten == {}
    ensures forall k :: 0 <= k < |tr[0].workers| ==> tr[0].workers[k].Waiting?
  {}

  /** Nobody has left. */
  ghost predicate AllHere(s: State) {
    && !s.ended && s.producer != Done(true) && forall k :: 0 <= k < |s.workers| ==> !s.workers[k].Exited?
  }

  /** Without a stop nobody leaves: the producer abandons no request, no worker ends, and the
      output thread goes on. */
  lemma {:induction false} NobodyLeaves(c: Config, tr: seq<State>, i: nat)
    requires ValidConfig(c) && Run(c, tr) && i < |tr| && !tr[i].stop
    ensures AllHere(tr[i])
    decreases i
  {
    hide Run, ChannelCaused, GoneCaused, SlotIndex, Slots;
    FreshStart(c, tr);
    if i > 0 {
      CausedAt(c, tr, i - 1);
      NobodyLeaves(c, tr, i - 1);
      forall k | 0 <= k < |tr[i].workers| ensures !tr[i].workers[k].Exited? {
        assert WorkerCaused(c, tr[i - 1], tr[i], k);
      }
    }
  }

  /** After a stop no worker takes another block: one that has a request keeps it or ends. */
  lemma {:induction false} NoBlockAfterStop(c: Config, tr: seq<State>, i: nat, j: nat, k: nat)
    requires ValidConfig(c) && Run(c, tr) && i <= j < |tr| && k < |tr[i].workers|
    requires tr[i].stop && tr[i].workers[k].HasTask?
    ensures tr[j].stop && |tr[j].workers| == |tr[i].workers|
    ensures tr[j].workers[k] == tr[i].workers[k] || tr[j].workers[k].Exited?
    decreases j
  {
    hide Run, ChannelCaused, GoneCaused, SlotIndex, Slots, NextStep;
    if i < j {
      NoBlockAfterStop(c, tr, i, j - 1, k);
      CausedAt(c, tr, j - 1);
      assert WorkerCaused(c, tr[j - 1], tr[j], k);
    }
  }

  /** In step j the read for request r fails. */
  ghost predicate ReadFailedAt(tr: seq<State>, j: nat, r: nat) {
    && j + 1 < |tr| && |tr[j].workers| == |tr[j + 1].workers|
    && exists k :: 0 <= k < |tr[j].workers| && tr[j].workers[k].HasBuffer? && tr[j].workers[k].r == r
                   && tr[j + 1].workers[k].Failing? && tr[j + 1].workers[k].r == r
  }

  ghost predicate ReadFailed(tr: seq<State>, i: nat, r: nat) {
    exists j :: 0 <= j < i && ReadFailedAt(tr, j, r)
  }

  /** A worker that releases its block has failed to read, and a request that is gone was
      delivered or has failed to be read. */
  ghost predicate Excused(tr: seq<State>, i: nat)
    requires i < |tr|
  {
    var s := tr[i];
    && (forall k :: 0 <= k < |s.workers| && s.workers[k].Failing? ==> ReadFailed(tr, i, s.workers[k].r))
    && forall r :: 0 <= r < |s.stage| && s.stage[r].Gone? && r >= |s.sent| ==> ReadFailed(tr, i, r)
  }

  lemma {:induction false} AllExcused(c: Config, tr: seq<State>, i: nat)
    requires ValidConfig(c) && Run(c, tr) && i < |tr| && !tr[i].stop
    ensures Excused(tr, i)
    decreases i
  {
    hide Run, ChannelCaused, SlotIndex, Slots, ReadFailedAt, WorkerCaused, GoneCaused;
    FreshStart(c, tr);
    if i > 0 {
      CausedAt(c, tr, i - 1);
      AllExcused(c, tr, i - 1);
      forall k | 0 <= k < |tr[i].workers| && tr[i].workers[k].Failing? ensures ReadFailed(tr, i, tr[i].workers[k].r) {
        FailureExcused(c, tr, i - 1, k);
      }
      forall r | 0 <= r < |tr[i].stage| && tr[i].stage[r].Gone? && r >= |tr[i].sent| ensures ReadFailed(tr, i, r) {
        LossExcused(tr, i - 1, r);
      }
    }
  }

  lemma FailureExcused(c: Config, tr: seq<State>, i: nat, k: nat)
    requires ValidConfig(c) && Run(c, tr) && i < |tr| - 1 && Excused(tr, i)
    requires |tr[i].filled| == Slots(c) && k < |tr[i].workers| == |tr[i + 1].workers|
    requires WorkerCaused(c, tr[i], tr[i + 1], k) && tr[i + 1].workers[k].Failing?
    ensures ReadFailed(tr, i + 1, tr[i + 1].workers[k].r)
  {
    hide Run, Inv, SlotIndex, Slots;
    var w := tr[i].workers[k];
    if w.HasBuffer? {
      assert ReadFailedAt(tr, i, w.r);
    } else if w.HasData? {
      SlotIsEmpty(c, tr, i, k);
    } else {
      assert ReadFailed(tr, i, w.r);
    }
  }

  lemma LossExcused(tr: seq<State>, i: nat, r: nat)
    requires i < |tr| - 1 && Excused(tr, i) && !tr[i].stop && r < |tr[i + 1].stage| && r >= |tr[i + 1].sent|
    requires |tr[i].sent| <= |tr[i + 1].sent| && GoneCaused(tr[i], tr[i + 1], r) && tr[i + 1].stage[r].Gone?
    ensures ReadFailed(tr, i + 1, r)
  {
    hide ReadFailedAt;
    assert ReadFailed(tr, i, r);
  }

  /** Until a stop is requested, the only requests lost are those whose read has failed. */
  lemma LostOnlyByFailedRead(c: Config, tr: seq<State>, i: nat, r: nat)
    requires ValidConfig(c) && Run(c, tr) && i < |tr| && !tr[i].stop
    requires r < |tr[i].stage| && tr[i].stage[r].Gone? && r >= |tr[i].sent|
    ensures ReadFailed(tr, i, r)
  {
    AllExcused(c, tr, i);
    hide ReadFailed;
  }

  /** Request r is gone, or about to be, without having been delivered. */
  ghost predicate Hole(s: State, r: nat) {
    && |s.sent| <= r < |s.stage|
    && (s.stage[r].Gone? || exists k :: 0 <= k < |s.workers| && s.workers[k].Failing? && s.workers[k].r == r)
  }

  lemma HoleStep(c: Config, s: State, s': State, step: Step, r: nat)
    requires Inv(c, s) && ValidConfig(c) && WellFormed(c, s) && Hole(s, r) && NextStep(c, s, s', step)
    ensures Hole(s', r)
  {
    InvParts(c, s);
    hide *;
    KindOfStep(c, s, s', step);
    if OutputStep(c, s, s', step) {
      OutputHole(c, s, s', step, r);
    } else if ProducerStep(c, s, s', step) || SameButStops(s, s') || DmaStep(c, s, s', step) {
      ElsewhereSame(c, s, s', step);
      OtherMoves(c, s, s', step);
      ElsewhereHole(c, s, s', step, r);
    } else {
      WorkerHole(c, s, s', step, r);
    }
  }

  lemma ElsewhereHole(c: Config, s: State, s': State, step: Step, r: nat)
    requires ValidConfig(c) && WellFormed(c, s) && Hole(s, r)
    requires ProducerStep(c, s, s', step) || SameButStops(s, s') || DmaStep(c, s, s', step)
    requires s'.stage == s.stage && s'.workers == s.workers
    ensures Hole(s', r)
  {
    hide WellFormed, ProducerStep, DmaStep, SlotIndex, Slots;
    if ProducerStep(c, s, s', step) { ProducerSame(c, s, s', step); }
    if DmaStep(c, s, s', step) { DmaSame(c, s, s', step); }
  }

  lemma OutputHole(c: Config, s: State, s': State, step: Step, r: nat)
    requires ValidConfig(c) && WellFormed(c, s) && Counting(c, s) && Staging(s) && Hole(s, r)
    requires OutputStep(c, s, s', step)
    ensures Hole(s', r)
  {
    OutputMoves(c, s, s', step);
    if step.ClearSlot? {
      hide WellFormed, SlotIndex, Slots, Counting;
    } else {
      OutputSame(c, s, s', step);
      hide WellFormed, OutputStep, SlotIndex, Slots, CallMoves, QueueFull, QueueBounded;
      if s'.sent != s.sent { assert s.stage[|s.sent|].AtSlot?; }
    }
  }

  lemma WorkerHole(c: Config, s: State, s': State, step: Step, r: nat)
    requires ValidConfig(c) && WellFormed(c, s) && Staging(s) && Hole(s, r)
    requires IsWorkerStep(step) && step.i < |s.workers| && WorkerStep(c, s, s', step, step.i)
    ensures Hole(s', r)
  {
    StageMoves(c, s, s', step, r);
    if !s.stage[r].Gone? {
      var k :| 0 <= k < |s.workers| && s.workers[k].Failing? && s.workers[k].r == r;
      assert RequestHeld(s.workers[k]) == r && s.stage[r] == AtWorker(k);
      hide WellFormed, WorkerStep, Staging, SlotIndex, Slots;
      WorkerKeeps(c, s, s', step);
      OneWorkerMoves(c, s, s', step);
      assert k != step.i ==> s'.workers[k] == s.workers[k];
    } else {
      hide WellFormed, WorkerStep, Staging, SlotIndex, Slots;
      WorkerKeeps(c, s, s', step);
    }
  }

  lemma StageMoves(c: Config, s: State, s': State, step: Step, r: nat)
    requires ValidConfig(c) && WellFormed(c, s) && Staging(s) && r < |s.stage|
    requires IsWorkerStep(step) && step.i < |s.workers| && WorkerStep(c, s, s', step, step.i)
    ensures |s.stage| <= |s'.stage| && step.i < |s'.workers|
    ensures s'.stage[r] == s.stage[r] || s'.stage[r].Gone? || s.stage[r] == AtWorker(step.i)
    ensures s.workers[step.i].Failing? && s.workers[step.i].r == r ==> s'.stage[r].Gone?
  {
    if step.AcquireBlock? || step.WorkerStop? || step.ReleaseFailed? {
      PoolStageMoves(c, s, s', step, r);
      hide *;
    } else {
      assert RequestHeld(s.workers[step.i]) >= 0 ==> s.stage[RequestHeld(s.workers[step.i])] == AtWorker(step.i);
      hide WellFormed, Staging, SlotIndex, Slots, Acquire, Release;
    }
  }

  lemma PoolStageMoves(c: Config, s: State, s': State, step: Step, r: nat)
    requires ValidConfig(c) && WellFormed(c, s) && r < |s.stage|
    requires (step.AcquireBlock? || step.WorkerStop? || step.ReleaseFailed?)
    requires step.i < |s.workers| && WorkerStep(c, s, s', step, step.i)
    ensures |s.stage| <= |s'.stage| && step.i < |s'.workers|
    ensures s'.stage[r] == s.stage[r] || s'.stage[r].Gone?
    ensures s.workers[step.i].Failing? && s.workers[step.i].r == r ==> s'.stage[r].Gone?
  {
    hide SlotIndex, Slots;
  }

  /** A read that fails leaves a hole: its request is never delivered, nor is any behind it. */
  lemma {:induction false} FailedReadEndsDelivery(c: Config, tr: seq<State>, i: nat, r: nat)
    requires ValidConfig(c) && Run(c, tr) && i < |tr| && ReadFailed(tr, i, r)
    ensures Hole(tr[i], r) && |tr[i].sent| <= r
    decreases i
  {
    hide Run, Inv, NextStep, Hole, ReadFailedAt;
    if i > 0 {
      if ReadFailedAt(tr, i - 1, r) {
        FreshHole(c, tr, i - 1, r);
      } else {
        var j :| 0 <= j < i && ReadFailedAt(tr, j, r);
        assert ReadFailed(tr, i - 1, r);
        FailedReadEndsDelivery(c, tr, i - 1, r);
        var step := StepAt(c, tr, i - 1);
        InvWellFormed(c, tr[i - 1]);
        HoleStep(c, tr[i - 1], tr[i], step, r);
      }
    }
    HoleUndelivered(tr[i], r);
  }

  lemma HoleUndelivered(s: State, r: nat)
    ensures Hole(s, r) ==> |s.sent| <= r < |s.stage|
  {}

  lemma FreshHole(c: Config, tr: seq<State>, i: nat, r: nat)
    requires ValidConfig(c) && Run(c, tr) && i < |tr| - 1 && ReadFailedAt(tr, i, r)
    ensures Hole(tr[i + 1], r)
  {
    RunInv(c, tr, i + 1);
    var k :| 0 <= k < |tr[i].workers| && tr[i + 1].workers[k].Failing? && tr[i + 1].workers[k].r == r;
    HeldNotDelivered(c, tr[i + 1], k);
    hide Run, Inv;
  }

  lemma HeldNotDelivered(c: Config, s: State, k: nat)
    requires Inv(c, s) && k < |s.workers| && s.workers[k].Failing?
    ensures |s.sent| <= s.workers[k].r < |s.stage|
  {
    var r := s.workers[k].r;
    assert RequestHeld(s.workers[k]) == r && s.stage[r] == AtWorker(k);
  }
  /** In step j a write to the device fails. */
  ghost predicate WriteFailedAt(tr: seq<State>, j: nat) { j + 1 < |tr| && Refuses(tr[j], tr[j + 1]) }

  ghost predicate WriteFailed(tr: seq<State>, i: nat) { exists j :: 0 <= j < i && WriteFailedAt(tr, j) }

  ghost predicate WasStopped(tr: seq<State>, i: nat)
    requires i <= |tr|
  {
    exists j :: 0 <= j < i && tr[j].dma.WasReset?
  }

  /** The channel runs until it has been stopped or a write has failed, and no longer than it
      takes to report that. */
  lemma {:induction false} RunsUntilFailure(c: Config, tr: seq<State>, i: nat)
    requires ValidConfig(c) && Run(c, tr) && i < |tr|
    ensures !tr[i].running ==> WriteFailed(tr, i) || WasStopped(tr, i)
    ensures WriteRefused(tr[i].dma) ==> WriteFailed(tr, i)
    ensures WriteFailed(tr, i) ==> !tr[i].running || WriteRefused(tr[i].dma)
    ensures WasStopped(tr, i) ==> !tr[i].running || tr[i].dma.WasReset?
    ensures !WritesNoMore(tr[i].dma) ==> tr[i].forgotten == {}
    decreases i
  {
    hide Run, WorkerCaused, GoneCaused, SlotIndex, Slots, WriteRefused, Refuses;
    FreshStart(c, tr);
    if i == 0 {
      NotFailingYet(tr[0].dma);
    } else {
      CausedAt(c, tr, i - 1);
      RunsUntilFailure(c, tr, i - 1);
      var s, s' := tr[i - 1], tr[i];
      assert WriteFailed(tr, i) <==> WriteFailed(tr, i - 1) || Refuses(s, s') by {
        if Refuses(s, s') { assert WriteFailedAt(tr, i - 1); }
      }
      assert WasStopped(tr, i) <==> WasStopped(tr, i - 1) || s.dma.WasReset?;
      FailsBeforeReport(s.dma);
      hide WriteFailed, WasStopped;
    }
  }

  lemma FailsBeforeReport(d: Dma)
    ensures d.DmaFailed? ==> WriteRefused(d)
  {}

  lemma NotFailingYet(d: Dma)
    requires d.DmaIdle?
    ensures !WriteRefused(d) && !WritesNoMore(d)
  {}

  /** Behind a failed write, or the end of the channel's worker, nothing more is written. */
  lemma {:induction false} NothingWrittenAfter(c: Config, tr: seq<State>, i: nat, j: nat)
    requires ValidConfig(c) && Run(c, tr) && i <= j < |tr| && WritesNoMore(tr[i].dma)
    ensures WritesNoMore(tr[j].dma) && tr[j].device == tr[i].device
    decreases j
  {
    hide Run, WorkerCaused, GoneCaused, SlotIndex, Slots, WritesNoMore;
    if i < j {
      NothingWrittenAfter(c, tr, i, j - 1);
      CausedAt(c, tr, j - 1);
    }
  }

  // ---- where requests are ----

  /** A request is with the worker that holds it, or in its slot, as its stage says. */
  ghost predicate Placed(c: Config, s: State)
    requires ValidConfig(c) && |s.filled| == Slots(c)
  {
    forall r :: 0 <= r < |s.stage| ==>
      match s.stage[r]
      case AtWorker(k) => k < |s.workers| && RequestHeld(s.workers[k]) == r
      case AtSlot => s.filled[SlotIndex(r, Slots(c))]
      case Gone => true
  }

  lemma PlacedStep(c: Config, s: State, s': State, step: Step)
    requires Inv(c, s) && ValidConfig(c) && |s.filled| == |s'.filled| == Slots(c) && Placed(c, s)
    requires NextStep(c, s, s', step)
    ensures Placed(c, s')
  {
    InvWellFormed(c, s);
    InvParts(c, s);
    hide *;
    KindOfStep(c, s, s', step);
    if OutputStep(c, s, s', step) {
      OutputPlaced(c, s, s', step);
    } else if ProducerStep(c, s, s', step) || SameButStops(s, s') || DmaStep(c, s, s', step) {
      ElsewhereSame(c, s, s', step);
      SamePlaced(c, s, s');
    } else {
      WorkerPlaced(c, s, s', step);
    }
  }

  lemma InvParts(c: Config, s: State)
    requires Inv(c, s)
    ensures Counting(c, s) && Staging(s)
  {}

  lemma SamePlaced(c: Config, s: State, s': State)
    requires ValidConfig(c) && |s.filled| == Slots(c) && Placed(c, s)
    requires s'.stage == s.stage && s'.workers == s.workers && s'.filled == s.filled
    ensures Placed(c, s')
  {}

  lemma ElsewhereSame(c: Config, s: State, s': State, step: Step)
    requires ValidConfig(c) && WellFormed(c, s)
    requires ProducerStep(c, s, s', step) || SameButStops(s, s') || DmaStep(c, s, s', step)
    ensures s'.stage == s.stage && s'.workers == s.workers && s'.filled == s.filled
  {
    hide WellFormed, DmaStep, SlotIndex, Slots;
    if DmaStep(c, s, s', step) { DmaWellFormed(c, s, s', step); }
  }

  lemma OutputPlaced(c: Config, s: State, s': State, step: Step)
    requires ValidConfig(c) && WellFormed(c, s) && Counting(c, s) && Staging(s) && Placed(c, s)
    requires |s'.filled| == Slots(c) && OutputStep(c, s, s', step)
    ensures Placed(c, s')
  {
    if step.ClearSlot? {
      ClearPlaced(c, s, s');
    } else {
      OutputSame(c, s, s', step);
      SamePlaced(c, s, s');
    }
    hide OutputStep, WellFormed, Placed, Counting, Staging;
  }

  lemma OutputSame(c: Config, s: State, s': State, step: Step)
    requires ValidConfig(c) && WellFormed(c, s) && OutputStep(c, s, s', step) && !step.ClearSlot?
    ensures s'.stage == s.stage && s'.workers == s.workers && s'.filled == s.filled
  {
    if step.TakeSlot? || step.OutputRelease? || step.Advance? || step.OutputEnds? {
      hide WellFormed, SlotIndex, Slots, Deliver;
    } else {
      CallSame(c, s, s', step);
      hide *;
    }
  }

  lemma CallSame(c: Config, s: State, s': State, step: Step)
    requires ValidConfig(c) && WellFormed(c, s) && OutputStep(c, s, s', step) && s.output.Delivering?
    ensures s'.stage == s.stage && s'.workers == s.workers && s'.filled == s.filled
  {
    hide WellFormed, SlotIndex, Slots, Deliver, Release;
  }

  /** Only the request delivered was in the slot that is cleared. */
  lemma ClearPlaced(c: Config, s: State, s': State)
    requires ValidConfig(c) && WellFormed(c, s) && Counting(c, s) && Staging(s) && Placed(c, s)
    requires OutputStep(c, s, s', ClearSlot)
    ensures |s'.filled| == Slots(c) && Placed(c, s')
  {
    forall r | 0 <= r < |s'.stage| && s'.stage[r].AtSlot? ensures s'.filled[SlotIndex(r, Slots(c))] {
      if SlotIndex(r, Slots(c)) == s.next { SameSlotSameRequest(c, s, r, |s.sent| - 1); }
    }
  }

  lemma WorkerPlaced(c: Config, s: State, s': State, step: Step)
    requires ValidConfig(c) && WellFormed(c, s) && Counting(c, s) && Staging(s) && Placed(c, s)
    requires |s'.filled| == Slots(c)
    requires IsWorkerStep(step) && step.i < |s.workers| && WorkerStep(c, s, s', step, step.i)
    ensures Placed(c, s')
  {
    hide WellFormed, WorkerStep, Counting, Staging, Placed, SlotIndex, Slots;
    OneWorkerMoves(c, s, s', step);
    if step.TakeTask? {
      TakePlaced(c, s, s', step.i);
    } else if step.MarkSlot? {
      MarkPlaced(c, s, s', step.i);
    } else if step.WorkerStop? || step.ReleaseFailed? {
      LeavePlaced(c, s, s', step);
    } else {
      HoldsOn(c, s, s', step);
      HoldsOnPlaced(c, s, s', step.i);
    }
  }

  lemma TakePlaced(c: Config, s: State, s': State, i: nat)
    requires ValidConfig(c) && WellFormed(c, s) && Counting(c, s) && Placed(c, s)
    requires |s'.filled| == Slots(c) && i < |s.workers| && WorkerStep(c, s, s', TakeTask(i), i)
    ensures Placed(c, s')
  {
    hide WellFormed, SlotIndex, Slots;
  }

  lemma MarkPlaced(c: Config, s: State, s': State, i: nat)
    requires ValidConfig(c) && WellFormed(c, s) && Staging(s) && Placed(c, s)
    requires |s'.filled| == Slots(c) && i < |s.workers| && WorkerStep(c, s, s', MarkSlot(i), i)
    ensures Placed(c, s')
  {
    hide SlotIndex, Slots;
  }

  lemma LeavePlaced(c: Config, s: State, s': State, step: Step)
    requires ValidConfig(c) && WellFormed(c, s) && Placed(c, s) && |s'.filled| == Slots(c)
    requires (step.WorkerStop? || step.ReleaseFailed?) && step.i < |s.workers| && WorkerStep(c, s, s', step, step.i)
    ensures Placed(c, s')
  {
    hide SlotIndex, Slots;
  }

  lemma HoldsOn(c: Config, s: State, s': State, step: Step)
    requires ValidConfig(c) && WellFormed(c, s)
    requires IsWorkerStep(step) && step.i < |s.workers| && WorkerStep(c, s, s', step, step.i)
    requires !step.TakeTask? && !step.MarkSlot? && !step.WorkerStop? && !step.ReleaseFailed?
    ensures s'.stage == s.stage && s'.filled == s.filled && step.i < |s'.workers|
    ensures RequestHeld(s'.workers[step.i]) == RequestHeld(s.workers[step.i])
  {
    if step.AcquireBlock? {
      AcquireHoldsOn(c, s, s', step.i);
      hide *;
    } else {
      hide WellFormed, SlotIndex, Slots, Acquire;
    }
  }

  lemma AcquireHoldsOn(c: Config, s: State, s': State, i: nat)
    requires ValidConfig(c) && WellFormed(c, s) && i < |s.workers| && WorkerStep(c, s, s', AcquireBlock(i), i)
    ensures s'.stage == s.stage && s'.filled == s.filled && i < |s'.workers|
    ensures RequestHeld(s'.workers[i]) == RequestHeld(s.workers[i])
  {
    hide WellFormed, SlotIndex, Slots;
  }

  lemma HoldsOnPlaced(c: Config, s: State, s': State, i: nat)
    requires ValidConfig(c) && |s.filled| == Slots(c) && Placed(c, s) && s'.stage == s.stage && s'.filled == s.filled
    requires i < |s.workers| == |s'.workers| && s'.workers == s.workers[i := s'.workers[i]]
    requires RequestHeld(s'.workers[i]) == RequestHeld(s.workers[i])
    ensures Placed(c, s')
  {
    hide SlotIndex, Slots, RequestHeld;
  }

  lemma {:induction false} AllPlaced(c: Config, tr: seq<State>, i: nat)
    requires ValidConfig(c) && Run(c, tr) && i < |tr|
    ensures |tr[i].filled| == Slots(c) && Placed(c, tr[i])
    decreases i
  {
    hide Run, Inv, NextStep, Placed;
    RunInv(c, tr, i);
    InvSlots(c, tr[i]);
    if i == 0 {
      FreshPlaced(c, tr);
    } else {
      AllPlaced(c, tr, i - 1);
      var step := StepAt(c, tr, i - 1);
      PlacedStep(c, tr[i - 1], tr[i], step);
    }
  }

  lemma FreshPlaced(c: Config, tr: seq<State>)
    requires ValidConfig(c) && Run(c, tr) && |tr[0].filled| == Slots(c)
    ensures Placed(c, tr[0])
  {
    FreshStart(c, tr);
  }

  // ---- no block is delivered empty ----

  predicate WorkerSized(w: Worker) { w.HasData? || w.Checked? || w.Stored? ==> w.len > 0 }

  ghost predicate Sized(s: State) {
    && (forall k :: 0 <= k < |s.workers| ==> WorkerSized(s.workers[k]))
    && (forall j :: 0 <= j < |s.filled| && j < |s.slotLen| && s.filled[j] ==> s.slotLen[j] > 0)
    && (s.output.Delivering? ==> s.output.len > 0)
    && forall k :: 0 <= k < |s.sent| ==> s.sent[k].payload.len > 0
  }

  lemma SizedStep(c: Config, s: State, s': State, step: Step)
    requires Inv(c, s) && ValidConfig(c) && WellFormed(c, s) && Sized(s) && NextStep(c, s, s', step)
    ensures Sized(s')
  {
    InvWorking(c, s);
    hide *;
    KindOfStep(c, s, s', step);
    if OutputStep(c, s, s', step) {
      OutputSized(c, s, s', step);
    } else if ProducerStep(c, s, s', step) || SameButStops(s, s') || DmaStep(c, s, s', step) {
      ElsewhereSized(c, s, s', step);
    } else {
      WorkerStepSized(c, s, s', step);
    }
  }

  lemma InvWorking(c: Config, s: State)
    requires Inv(c, s) && ValidConfig(c) && WellFormed(c, s)
    ensures Working(c, s)
  {}

  lemma OutputSized(c: Config, s: State, s': State, step: Step)
    requires ValidConfig(c) && WellFormed(c, s) && Sized(s) && OutputStep(c, s, s', step)
    ensures Sized(s')
  {
    hide SlotIndex, Slots;
  }

  lemma ElsewhereSized(c: Config, s: State, s': State, step: Step)
    requires ValidConfig(c) && WellFormed(c, s) && Sized(s)
    requires ProducerStep(c, s, s', step) || SameButStops(s, s') || DmaStep(c, s, s', step)
    ensures Sized(s')
  {
    hide WellFormed, DmaStep, SlotIndex, Slots;
    if DmaStep(c, s, s', step) { DmaWellFormed(c, s, s', step); }
  }

  lemma WorkerStepSized(c: Config, s: State, s': State, step: Step)
    requires ValidConfig(c) && WellFormed(c, s) && Working(c, s) && Sized(s)
    requires IsWorkerStep(step) && step.i < |s.workers| && WorkerStep(c, s, s', step, step.i)
    ensures Sized(s')
  {
    hide WellFormed, WorkerStep, Working, Sized, SlotIndex, Slots;
    WorkerKeeps(c, s, s', step);
    OneWorkerMoves(c, s, s', step);
    SlotsSized(c, s, s', step);
    OneSized(c, s, s', step);
    WorkersOnlySized(s, s', step.i);
  }

  lemma OneSized(c: Config, s: State, s': State, step: Step)
    requires ValidConfig(c) && WellFormed(c, s) && Sized(s) && |s'.workers| == |s.workers|
    requires IsWorkerStep(step) && step.i < |s.workers| && WorkerStep(c, s, s', step, step.i)
    ensures WorkerSized(s'.workers[step.i])
  {
    assert WorkerSized(s.workers[step.i]);
    if step.Read? || step.CheckSlot? || step.StoreSlot? {
      hide WellFormed, Sized, SlotIndex, Slots, Acquire, Release;
    } else {
      HasNoData(c, s, s', step);
      hide *;
    }
  }

  lemma HasNoData(c: Config, s: State, s': State, step: Step)
    requires ValidConfig(c) && WellFormed(c, s) && |s'.workers| == |s.workers|
    requires IsWorkerStep(step) && step.i < |s.workers| && WorkerStep(c, s, s', step, step.i)
    requires !step.Read? && !step.CheckSlot? && !step.StoreSlot?
    ensures WorkerSized(s'.workers[step.i])
  {
    if step.AcquireBlock? || step.WorkerStop? || step.ReleaseFailed? {
      PoolHasNoData(c, s, s', step);
      hide *;
    } else {
      hide WellFormed, SlotIndex, Slots, Acquire, Release;
    }
  }

  lemma PoolHasNoData(c: Config, s: State, s': State, step: Step)
    requires ValidConfig(c) && WellFormed(c, s) && (step.AcquireBlock? || step.WorkerStop? || step.ReleaseFailed?)
    requires step.i < |s.workers| == |s'.workers| && WorkerStep(c, s, s', step, step.i)
    ensures WorkerSized(s'.workers[step.i])
  {
    hide WellFormed, SlotIndex, Slots;
  }

  lemma SlotsSized(c: Config, s: State, s': State, step: Step)
    requires ValidConfig(c) && WellFormed(c, s) && Working(c, s) && Sized(s)
    requires IsWorkerStep(step) && step.i < |s.workers| && WorkerStep(c, s, s', step, step.i)
    ensures forall j :: 0 <= j < |s'.filled| && j < |s'.slotLen| && s'.filled[j] ==> s'.slotLen[j] > 0
  {
    assert WorkerSized(s.workers[step.i]);
    hide WellFormed, WorkerStep, Working, SlotIndex, Slots;
    if step.StoreSlot? {
      var j := StoreWrites(c, s, s', step.i);
    } else if step.MarkSlot? {
      var j := MarkWrites(c, s, s', step.i);
    } else {
      SlotsKept(c, s, s', step);
    }
  }

  lemma StoreWrites(c: Config, s: State, s': State, i: nat) returns (j: nat)
    requires ValidConfig(c) && WellFormed(c, s) && i < |s.workers| && WorkerStep(c, s, s', StoreSlot(i), i)
    ensures s.workers[i].Checked? && j < |s.slotLen| && s'.filled == s.filled
    ensures s'.slotLen == s.slotLen[j := s.workers[i].len]
  {
    j := SlotIndex(s.workers[i].r, Slots(c));
    hide SlotIndex, Slots;
  }

  lemma MarkWrites(c: Config, s: State, s': State, i: nat) returns (j: nat)
    requires ValidConfig(c) && WellFormed(c, s) && Working(c, s)
    requires i < |s.workers| && WorkerStep(c, s, s', MarkSlot(i), i)
    ensures s.workers[i].Stored? && j < |s.filled| && j < |s.slotLen| && s.slotLen[j] == s.workers[i].len
    ensures s'.filled == s.filled[j := true] && s'.slotLen == s.slotLen
  {
    j := SlotIndex(s.workers[i].r, Slots(c));
    hide SlotIndex, Slots;
  }

  lemma SlotsKept(c: Config, s: State, s': State, step: Step)
    requires ValidConfig(c) && WellFormed(c, s) && !step.StoreSlot? && !step.MarkSlot?
    requires IsWorkerStep(step) && step.i < |s.workers| && WorkerStep(c, s, s', step, step.i)
    ensures s'.filled == s.filled && s'.slotLen == s.slotLen
  {
    if step.AcquireBlock? || step.WorkerStop? || step.ReleaseFailed? {
      PoolKeepsSlots(c, s, s', step);
      hide *;
    } else {
      hide WellFormed, SlotIndex, Slots, Acquire, Release;
    }
  }

  lemma PoolKeepsSlots(c: Config, s: State, s': State, step: Step)
    requires ValidConfig(c) && WellFormed(c, s) && (step.AcquireBlock? || step.WorkerStop? || step.ReleaseFailed?)
    requires step.i < |s.workers| && WorkerStep(c, s, s', step, step.i)
    ensures s'.filled == s.filled && s'.slotLen == s.slotLen
  {
    hide WellFormed, SlotIndex, Slots;
  }

  lemma WorkersOnlySized(s: State, s': State, i: nat)
    requires WorkersOnly(s, s') && Sized(s) && i < |s.workers| == |s'.workers|
    requires s'.workers == s.workers[i := s'.workers[i]] && WorkerSized(s'.workers[i])
    requires forall j :: 0 <= j < |s'.filled| && j < |s'.slotLen| && s'.filled[j] ==> s'.slotLen[j] > 0
    ensures Sized(s')
  {
    hide WorkerSized;
  }

  /** The listener is never called with an empty block. */
  lemma {:induction false} DeliveredHaveBytes(c: Config, tr: seq<State>, i: nat)
    requires ValidConfig(c) && Run(c, tr) && i < |tr|
    ensures Sized(tr[i])
    ensures forall k :: 0 <= k < |tr[i].sent| ==> tr[i].sent[k].payload.len > 0
    decreases i
  {
    hide Run, Inv, NextStep, WellFormed;
    if i == 0 {
      FreshSized(c, tr);
    } else {
      DeliveredHaveBytes(c, tr, i - 1);
      var step := StepAt(c, tr, i - 1);
      InvWellFormed(c, tr[i - 1]);
      SizedStep(c, tr[i - 1], tr[i], step);
    }
  }

  lemma FreshSized(c: Config, tr: seq<State>)
    requires ValidConfig(c) && Run(c, tr)
    ensures Sized(tr[0])
  {
    FreshStart(c, tr);
  }

  // ---- when no thread can go on ----

  /** Steps that somebody outside the pipeline takes. */
  predicate FromOutside(step: Step) { step.StopRequest? || step.QuitRequest? || step.ChannelStop? }

  /** Some thread of the pipeline can change something. */
  ghost predicate CanMove(c: Config, s: State)
    requires ValidConfig(c) && WellFormed(c, s)
  {
    exists s', step :: NextStep(c, s, s', step) && s' != s && !FromOutside(step)
  }

  /** Until a stop: every worker waits for a task and there is none, the channel has nothing to
      write, the block to be delivered next is not there, and the producer is through with its
      files, or at the guard with a request that is the next one to be delivered or a full lap
      ahead of that. After a stop: every thread has ended or, like the channel, has nothing to do. */
  ghost predicate AtRest(c: Config, s: State)
    requires |s.filled| > s.next
  {
    && s.dma.DmaIdle? && s.taken == |s.descs|
    && if s.stop then
         && s.ended && s.producer.Done?
         && (forall k :: 0 <= k < |s.workers| ==> s.workers[k].Waiting? || s.workers[k].Exited?)
         && (s.queue == [] || forall k :: 0 <= k < |s.workers| ==> s.workers[k].Exited?)
       else
         && s.output.Scanning? && !s.filled[s.next] && s.queue == []
         && (forall k :: 0 <= k < |s.workers| ==> s.workers[k].Waiting?)
         && (s.producer.Done? || (s.producer.AtGuard? && (s.producer.r == Delivered(s)
                                                          || s.producer.r == Delivered(s) + Slots(c))))
  }

  lemma Moves(c: Config, s: State, s': State, step: Step)
    requires ValidConfig(c) && WellFormed(c, s) && NextStep(c, s, s', step) && s' != s && !FromOutside(step)
    ensures CanMove(c, s)
  {
    hide NextStep, WellFormed;
  }

  lemma ChannelCanMove(c: Config, s: State)
    requires ValidConfig(c) && WellFormed(c, s) && !(s.dma.DmaIdle? && s.taken == |s.descs|)
    ensures CanMove(c, s)
  {
    var step, s' := ChannelNext(c, s);
    Moves(c, s, s', step) by { hide DmaStep, WellFormed, SlotIndex, Slots; }
    hide *;
  }

  lemma ChannelNext(c: Config, s: State) returns (step: Step, s': State)
    requires ValidConfig(c) && WellFormed(c, s) && !(s.dma.DmaIdle? && s.taken == |s.descs|)
    ensures DmaStep(c, s, s', step) && s'.dma != s.dma && !FromOutside(step)
  {
    if WritesNoMore(s.dma) {
      step, s' := DrainNext(c, s);
    } else {
      step, s' := WriteNext(c, s);
    }
    hide *;
  }

  lemma WriteNext(c: Config, s: State) returns (step: Step, s': State)
    requires WellFormed(c, s) && !(s.dma.DmaIdle? && s.taken == |s.descs|) && !WritesNoMore(s.dma)
    ensures DmaStep(c, s, s', step) && s'.dma != s.dma && !FromOutside(step)
  {
    hide SlotIndex, Slots;
    match s.dma
    case DmaIdle =>
      step, s' := DmaTake, s.(taken := s.taken + 1, dma := Writing(s.descs[s.taken].b, s.descs[s.taken].len),
                              owner := s.owner[s.descs[s.taken].b := WithDma]);
    case Writing(b, len) =>
      step, s' := DmaWrite, s.(device := s.device + [Payload(s.mem[b].req, len)], dma := DmaReleasing(b, false));
    case DmaReleasing(b, failed) => step, s' := DmaRelease, Release(s, b).(dma := DmaIdle);
  }

  lemma DrainNext(c: Config, s: State) returns (step: Step, s': State)
    requires WellFormed(c, s) && WritesNoMore(s.dma)
    ensures DmaStep(c, s, s', step) && s'.dma != s.dma && !FromOutside(step)
  {
    if s.dma.DmaExited? || s.dma.Looked? {
      step, s' := DrainExited(c, s);
      hide *;
    } else if s.dma.DmaReleasing? || s.dma.Draining? {
      step, s' := ReleaseNext(c, s);
      hide *;
    } else {
      hide WellFormed, SlotIndex, Slots, Release;
      match s.dma
      case DmaFailed => step, s' := DmaError, s.(dma := DmaExited, running := false);
      case WasReset => step, s' := ChannelStopped, s.(dma := DmaStopped, running := false);
      case DmaStopped => step, s' := DrainAgain, s.(dma := DmaExited);
    }
  }

  lemma ReleaseNext(c: Config, s: State) returns (step: Step, s': State)
    requires WellFormed(c, s) && WritesNoMore(s.dma) && (s.dma.DmaReleasing? || s.dma.Draining?)
    ensures DmaStep(c, s, s', step) && s'.dma != s.dma && !FromOutside(step)
  {
    hide SlotIndex, Slots;
    match s.dma
    case DmaReleasing(b, failed) => step, s' := DmaRelease, Release(s, b).(dma := DmaFailed);
    case Draining(b) => step, s' := DrainRelease, Release(s, b).(dma := DmaExited);
  }

  lemma DrainExited(c: Config, s: State) returns (step: Step, s': State)
    requires WellFormed(c, s) && (s.dma.DmaExited? || s.dma.Looked?)
    ensures DmaStep(c, s, s', step) && s'.dma != s.dma && !FromOutside(step)
  {
    hide SlotIndex, Slots;
    if s.dma.Looked? {
      step, s' := QueueReset, s.(taken := |s.descs|, dma := WasReset,
                                 forgotten := s.forgotten + Range(s.taken, |s.descs|), owner := Discarded(s.owner));
    } else if s.taken < |s.descs| {
      step, s' := Drain, s.(taken := s.taken + 1, dma := Draining(s.descs[s.taken].b),
                            owner := s.owner[s.descs[s.taken].b := WithDma]);
    } else {
      step, s' := DrainLook, s.(dma := Looked);
    }
  }

  lemma OutputCanMove(c: Config, s: State)
    requires Inv(c, s) && ValidConfig(c) && WellFormed(c, s)
    requires !s.ended && !(s.output.Scanning? && !s.filled[s.next] && !s.stop)
    ensures CanMove(c, s)
  {
    InvParts(c, s);
    var step, s' := OutputNext(c, s);
    Moves(c, s, s', step) by { hide OutputStep, WellFormed, SlotIndex, Slots, Inv; }
    hide *;
  }

  lemma OutputNext(c: Config, s: State) returns (step: Step, s': State)
    requires ValidConfig(c) && WellFormed(c, s) && Counting(c, s)
    requires !s.ended && !(s.output.Scanning? && !s.filled[s.next] && !s.stop)
    ensures OutputStep(c, s, s', step) && s' != s && !FromOutside(step)
  {
    if s.output.Delivering? {
      step, s' := CallNext(c, s);
      hide *;
    } else if s.output.Scanning? {
      step, s' := ScanNext(c, s);
      hide *;
    } else {
      hide SlotIndex, Slots, Delivered;
      match s.output
      case Releasing(b) => step, s' := OutputRelease, Release(s, b).(output := Sent);
      case Sent =>
        step, s' := ClearSlot, s.(filled := s.filled[s.next := false], output := Cleared,
                                  stage := s.stage[|s.sent| - 1 := Gone]);
      case Cleared => step, s' := Advance, s.(next := SlotIndex(s.next + 1, Slots(c)), output := Scanning);
    }
  }

  lemma ScanNext(c: Config, s: State) returns (step: Step, s': State)
    requires ValidConfig(c) && WellFormed(c, s) && s.output.Scanning? && !s.ended && (s.stop || s.filled[s.next])
    ensures OutputStep(c, s, s', step) && s' != s && !FromOutside(step)
  {
    hide SlotIndex, Slots;
    if s.stop {
      step, s' := OutputEnds, s.(ended := true);
    } else {
      step, s' := TakeSlot, s.(output := Delivering(s.slotBlock[s.next], s.slotLen[s.next], Entering),
                               owner := s.owner[s.slotBlock[s.next] := WithOutput]);
    }
  }

  lemma CallNext(c: Config, s: State) returns (step: Step, s': State)
    requires ValidConfig(c) && WellFormed(c, s) && s.output.Delivering?
    ensures OutputStep(c, s, s', step) && s'.output != s.output && !FromOutside(step)
  {
    if s.output.call.Admitted? {
      step, s' := SendNext(c, s);
      hide *;
    } else {
      hide SlotIndex, Slots;
      match s.output.call
      case Entering =>
        step, s' := SeeRunning, s.(output := s.output.(call := if s.running then Admitted else Rejected));
      case Rejected =>
        if s.quit {
          step, s' := GiveUp, s.(output := Releasing(s.output.b), sent := Deliver(s, Dropped));
        } else {
          step, s' := Retry, s.(output := s.output.(call := Entering));
        }
    }
  }

  lemma SendNext(c: Config, s: State) returns (step: Step, s': State)
    requires ValidConfig(c) && WellFormed(c, s) && s.output.Delivering? && s.output.call.Admitted?
    ensures OutputStep(c, s, s', step) && s'.output != s.output && !FromOutside(step)
  {
    hide SlotIndex, Slots;
    if |s.descs| < s.taken + c.descCapacity {
      step, s' := SendDescriptor, s.(descs := s.descs + [Entry(s.output.b, s.output.len)], output := Sent,
                                     owner := s.owner[s.output.b := InDescriptor(|s.descs|)],
                                     sent := Deliver(s, ByDescriptor));
    } else {
      step, s' := SendCopy, s.(output := Releasing(s.output.b), sent := Deliver(s, ByCopy));
    }
  }

  lemma WorkerCanMove(c: Config, s: State, k: nat)
    requires ValidConfig(c) && WellFormed(c, s) && k < |s.workers| && WorkerFree(s, k)
    ensures CanMove(c, s)
  {
    var step, s' := WorkerNext(c, s, k);
    Moves(c, s, s', step) by { hide WorkerStep, WellFormed, SlotIndex, Slots; }
    hide *;
  }

  /** Worker k has something to do and what it needs for it. */
  predicate WorkerFree(s: State, k: nat)
    requires k < |s.workers|
  {
    match s.workers[k]
    case Waiting => s.queue != []
    case HasTask(_) => s.stop || s.free != []
    case Exited => false
    case _ => true
  }

  lemma WorkerNext(c: Config, s: State, k: nat) returns (step: Step, s': State)
    requires ValidConfig(c) && WellFormed(c, s) && k < |s.workers| && WorkerFree(s, k)
    ensures IsWorkerStep(step) && step.i == k && WorkerStep(c, s, s', step, k) && s'.workers[k] != s.workers[k]
    ensures !FromOutside(step)
  {
    match s.workers[k] {
      case Waiting | HasTask(_) => step, s' := TaskNext(c, s, k);
      case Checked(_, _, _) | Stored(_, _, _) => step, s' := StoreNext(c, s, k);
      case _ => step, s' := OtherNext(c, s, k);
    }
    hide *;
  }

  lemma TaskNext(c: Config, s: State, k: nat) returns (step: Step, s': State)
    requires ValidConfig(c) && WellFormed(c, s) && k < |s.workers| && WorkerFree(s, k)
    requires s.workers[k].Waiting? || s.workers[k].HasTask?
    ensures IsWorkerStep(step) && step.i == k && WorkerStep(c, s, s', step, k) && s'.workers[k] != s.workers[k]
    ensures !FromOutside(step)
  {
    hide SlotIndex, Slots;
    match s.workers[k]
    case Waiting =>
      step, s' := TakeTask(k), s.(queue := s.queue[1..], workers := s.workers[k := HasTask(s.queue[0])],
                                  stage := s.stage + [AtWorker(k)]);
    case HasTask(r) =>
      if s.stop {
        step, s' := WorkerStop(k), s.(workers := s.workers[k := Exited], pending := s.pending - 1,
                                      stage := s.stage[r := Gone]);
      } else {
        step := AcquireBlock(k);
        s' := Acquire(c, s, WithWorker(k)).(workers := s.workers[k := HasBuffer(r, Top(s))]);
      }
  }

  lemma StoreNext(c: Config, s: State, k: nat) returns (step: Step, s': State)
    requires ValidConfig(c) && WellFormed(c, s) && k < |s.workers| && WorkerFree(s, k)
    requires s.workers[k].Checked? || s.workers[k].Stored?
    ensures IsWorkerStep(step) && step.i == k && WorkerStep(c, s, s', step, k) && s'.workers[k] != s.workers[k]
    ensures !FromOutside(step)
  {
    hide SlotIndex, Slots;
    match s.workers[k]
    case Checked(r, b, len) =>
      step := StoreSlot(k);
      s' := s.(slotBlock := s.slotBlock[SlotIndex(r, Slots(c)) := b],
               slotLen := s.slotLen[SlotIndex(r, Slots(c)) := len], workers := s.workers[k := Stored(r, b, len)]);
    case Stored(r, b, len) =>
      step := MarkSlot(k);
      s' := s.(filled := s.filled[SlotIndex(r, Slots(c)) := true], workers := s.workers[k := Finished],
               stage := s.stage[r := AtSlot], owner := s.owner[b := InSlot(SlotIndex(r, Slots(c)))]);
  }

  lemma OtherNext(c: Config, s: State, k: nat) returns (step: Step, s': State)
    requires ValidConfig(c) && WellFormed(c, s) && k < |s.workers| && WorkerFree(s, k)
    requires !s.workers[k].Waiting? && !s.workers[k].HasTask? && !s.workers[k].Checked? && !s.workers[k].Stored?
    ensures IsWorkerStep(step) && step.i == k && WorkerStep(c, s, s', step, k) && s'.workers[k] != s.workers[k]
    ensures !FromOutside(step)
  {
    hide SlotIndex, Slots;
    match s.workers[k]
    case HasBuffer(r, b) =>
      step, s' := Read(k, 1), s.(mem := s.mem[b := Payload(r, 1)], workers := s.workers[k := HasData(r, b, 1)]);
    case HasData(r, b, len) =>
      step := CheckSlot(k);
      var seen := s.filled[SlotIndex(r, Slots(c))];
      s' := s.(workers := s.workers[k := if seen then Failing(r, b) else Checked(r, b, len)]);
    case Failing(r, b) =>
      step := ReleaseFailed(k);
      s' := Release(s, b).(workers := s.workers[k := Finished], stage := s.stage[r := Gone]);
    case Finished =>
      step, s' := FinishTask(k), s.(workers := s.workers[k := Waiting], pending := s.pending - 1);
  }

  lemma ProducerCanMove(c: Config, s: State)
    requires ValidConfig(c) && WellFormed(c, s) && ProducerFree(c, s)
    ensures CanMove(c, s)
  {
    var step, s' := ProducerNext(c, s);
    Moves(c, s, s', step) by { hide ProducerStep, WellFormed, SlotIndex, Slots; }
    hide *;
  }

  predicate ProducerFree(c: Config, s: State) {
    match s.producer
    case AtGuard(r) => s.stop || (Slots(c) > 0 && SlotIndex(r, Slots(c)) != s.next)
    case AtCapacity(_) => s.stop || s.pending < c.softLimit
    case Done(_) => false
    case _ => true
  }

  lemma ProducerNext(c: Config, s: State) returns (step: Step, s': State)
    requires ValidConfig(c) && WellFormed(c, s) && ProducerFree(c, s)
    ensures ProducerStep(c, s, s', step) && s'.producer != s.producer && !FromOutside(step)
  {
    match s.producer
    case Idle =>
      step, s' := Claim, s.(issued := s.issued + 1, first := false,
                            producer := if s.first then AtCapacity(s.issued) else AtGuard(s.issued));
    case AtGuard(r) =>
      if s.stop {
        step, s' := ProducerStop, s.(producer := Done(true));
      } else {
        step, s' := GuardPass, s.(producer := AtCapacity(r));
      }
    case AtCapacity(r) =>
      if s.stop {
        step, s' := ProducerStop, s.(producer := Done(true));
      } else {
        step, s' := CapacityPass, s.(producer := Ready(r));
      }
    case Ready(r) => step, s' := Enqueue, s.(queue := s.queue + [r], pending := s.pending + 1, producer := Idle);
  }

  lemma {:induction false} NobodyWorks(ws: seq<Worker>)
    requires forall k :: 0 <= k < |ws| ==> ws[k].Waiting? || ws[k].Exited?
    ensures Busy(ws) == 0
  {
    if ws != [] { NobodyWorks(ws[..|ws| - 1]); }
  }

  /** Different numbers below n are at most n. */
  lemma {:induction false} AtMost(a: seq<nat>, n: nat)
    requires forall i :: 0 <= i < |a| ==> a[i] < n
    requires forall i, j :: 0 <= i < j < |a| ==> a[i] != a[j]
    ensures |a| <= n
    decreases n
  {
    assert |a| > 0 ==> 0 <= a[0] < n;
    if n > 0 && exists i :: 0 <= i < |a| && a[i] == n - 1 {
      var i :| 0 <= i < |a| && a[i] == n - 1;
      AtMost(a[..i] + a[i + 1..], n - 1);
    } else if n > 0 {
      AtMost(a, n - 1);
    }
  }

  /** Nobody but the slots has blocks. */
  ghost predicate AllInSlots(s: State) {
    && s.free == [] && s.taken == |s.descs| && s.forgotten == {} && s.output.Scanning? && s.dma.DmaIdle?
    && forall k :: 0 <= k < |s.workers| ==> BlockHeld(s.workers[k]) == -1
  }

  lemma SlotOfBlock(c: Config, s: State, b: nat)
    requires Inv(c, s) && AllInSlots(s) && b < Slots(c) == |s.owner| && s.next < |s.filled| && !s.filled[s.next]
    ensures s.owner[b].InSlot? && s.owner[b].j < Slots(c) && s.owner[b].j != s.next
    ensures s.owner[b].j < |s.slotBlock| && s.slotBlock[s.owner[b].j] == b
  {
    assert BlockAt(s, b, s.owner[b]);
  }

  /** There are as many blocks as slots, so that if the slots have them all, none is empty. */
  lemma SomeBlockElsewhere(c: Config, s: State)
    requires Inv(c, s) && s.next < Slots(c) == |s.filled| == |s.owner| && !s.filled[s.next]
    ensures !AllInSlots(s)
  {
    if AllInSlots(s) {
      hide Inv, AllInSlots;
      forall b: nat | b < Slots(c)
        ensures s.owner[b].InSlot? && s.owner[b].j < Slots(c) && s.owner[b].j != s.next
        ensures s.owner[b].j < |s.slotBlock| && s.slotBlock[s.owner[b].j] == b
      {
        SlotOfBlock(c, s, b);
      }
      var all := seq(Slots(c), b requires 0 <= b < Slots(c) => s.owner[b].j) + [s.next];
      AtMost(all, Slots(c));
    }
  }

  /** Every thread by itself has nothing that it could do. */
  ghost predicate Still(c: Config, s: State)
    requires ValidConfig(c) && WellFormed(c, s)
  {
    && s.dma.DmaIdle? && s.taken == |s.descs|
    && (s.ended || (s.output.Scanning? && !s.filled[s.next] && !s.stop))
    && (forall k :: 0 <= k < |s.workers| ==> !WorkerFree(s, k))
    && !ProducerFree(c, s)
  }

  lemma StuckIsStill(c: Config, s: State)
    requires Inv(c, s) && ValidConfig(c) && WellFormed(c, s) && !CanMove(c, s)
    ensures Still(c, s)
  {
    hide Inv, WellFormed, CanMove, ProducerFree, WorkerFree, SlotIndex, Slots;
    if !(s.dma.DmaIdle? && s.taken == |s.descs|) { ChannelCanMove(c, s); }
    InvSlots(c, s);
    NextInRange(c, s);
    if !s.ended && !(s.output.Scanning? && !s.filled[s.next] && !s.stop) { OutputCanMove(c, s); }
    forall k | 0 <= k < |s.workers| ensures !WorkerFree(s, k) {
      if WorkerFree(s, k) { WorkerCanMove(c, s, k); }
    }
    if ProducerFree(c, s) { ProducerCanMove(c, s); }
  }

  lemma NextInRange(c: Config, s: State)
    requires WellFormed(c, s)
    ensures s.next < Slots(c) == |s.filled| == |s.owner|
  {}

  /** No worker waits for a block: the blocks would all be in slots, and one slot is empty. */
  lemma NoneWaitsForBlock(c: Config, s: State, k: nat)
    requires Inv(c, s) && ValidConfig(c) && WellFormed(c, s) && Still(c, s) && s.forgotten == {}
    requires !s.stop && !s.ended && k < |s.workers|
    ensures s.workers[k].Waiting? || s.workers[k].Exited?
  {
    if s.workers[k].HasTask? {
      assert !WorkerFree(s, k);
      NextInRange(c, s);
      forall j | 0 <= j < |s.workers| ensures BlockHeld(s.workers[j]) == -1 {
        assert !WorkerFree(s, j);
      }
      hide Inv, WellFormed, Slots, SlotIndex;
      assert AllInSlots(s);
      SomeBlockElsewhere(c, s);
    } else {
      assert !WorkerFree(s, k);
    }
  }

  lemma StillIsRest(c: Config, s: State)
    requires Inv(c, s) && ValidConfig(c) && WellFormed(c, s) && Still(c, s) && s.forgotten == {} && |s.workers| > 0
    requires !s.stop ==> AllHere(s)
    ensures AtRest(c, s)
  {
    forall k | 0 <= k < |s.workers| ensures s.workers[k].Waiting? || s.workers[k].Exited? {
      assert !WorkerFree(s, k);
      if !s.stop { NoneWaitsForBlock(c, s, k); }
    }
    assert !WorkerFree(s, 0);
    assert s.queue == [] || forall k :: 0 <= k < |s.workers| ==> s.workers[k].Exited? by {
      forall k | 0 <= k < |s.workers| && s.queue != [] ensures s.workers[k].Exited? { assert !WorkerFree(s, k); }
    }
    NobodyWorks(s.workers);
    if s.producer.AtGuard? { GuardWindow(c, s); }
    InvPending(c, s);
    hide Inv, WellFormed, SlotIndex, Slots;
  }

  lemma InvPending(c: Config, s: State)
    requires Inv(c, s)
    ensures s.pending == |s.queue| + Busy(s.workers) && c.softLimit >= 1
  {}

  lemma {:induction false} SameWorkers(c: Config, tr: seq<State>, i: nat)
    requires ValidConfig(c) && Run(c, tr) && i < |tr|
    ensures |tr[i].workers| == |tr[0].workers|
    decreases i
  {
    hide Run, WorkerCaused, GoneCaused, ChannelCaused, SlotIndex, Slots;
    if i > 0 {
      CausedAt(c, tr, i - 1);
      SameWorkers(c, tr, i - 1);
    }
  }

  lemma RestIsStuck(c: Config, s: State)
    requires Inv(c, s) && ValidConfig(c) && WellFormed(c, s) && AtRest(c, s)
    ensures !CanMove(c, s)
  {
    forall s', step | NextStep(c, s, s', step) && !FromOutside(step) ensures s' == s {
      RestStep(c, s, s', step);
    }
    hide NextStep, AtRest, Inv, WellFormed;
  }

  lemma RestStep(c: Config, s: State, s': State, step: Step)
    requires Inv(c, s) && ValidConfig(c) && WellFormed(c, s) && AtRest(c, s)
    requires NextStep(c, s, s', step) && !FromOutside(step)
    ensures s' == s
  {
    InvParts(c, s);
    hide Inv, WellFormed, SlotIndex, Slots, Counting, Staging, AtRest, ProducerStep, WorkerStep, OutputStep, DmaStep;
    RestProducer(c, s, s', step);
    if IsWorkerStep(step) && step.i < |s.workers| { RestWorker(c, s, s', step); }
    RestChannel(c, s, s', step);
    if OutputStep(c, s, s', step) { RestOutput(c, s, s', step); }
  }

  lemma RestProducer(c: Config, s: State, s': State, step: Step)
    requires ValidConfig(c) && Counting(c, s) && |s.filled| > s.next && AtRest(c, s)
    ensures !ProducerStep(c, s, s', step)
  {
    if s.producer.AtGuard? { GuardWindow(c, s); }
    hide Counting, SlotIndex, Slots;
  }

  lemma RestWorker(c: Config, s: State, s': State, step: Step)
    requires ValidConfig(c) && WellFormed(c, s) && AtRest(c, s) && IsWorkerStep(step) && step.i < |s.workers|
    ensures !WorkerStep(c, s, s', step, step.i)
  {
    assert s.workers[step.i].Waiting? || s.workers[step.i].Exited?;
    hide WellFormed, SlotIndex, Slots;
  }

  lemma RestOutput(c: Config, s: State, s': State, step: Step)
    requires ValidConfig(c) && WellFormed(c, s) && Staging(s) && AtRest(c, s) && OutputStep(c, s, s', step)
    ensures s' == s
  {
    assert s.output.Scanning?;
    hide WellFormed, SlotIndex, Slots, Staging;
  }

  lemma RestChannel(c: Config, s: State, s': State, step: Step)
    requires WellFormed(c, s) && AtRest(c, s) && !FromOutside(step)
    ensures !DmaStep(c, s, s', step)
  {
    hide WellFormed, SlotIndex, Slots;
  }

  /** No thread of the pipeline can go on exactly when all is at rest. */
  lemma StuckIff(c: Config, tr: seq<State>, i: nat)
    requires ValidConfig(c) && Run(c, tr) && i < |tr| && |tr[0].workers| > 0
    ensures WellFormed(c, tr[i]) && (!CanMove(c, tr[i]) <==> AtRest(c, tr[i]))
  {
    var s := tr[i];
    RunInv(c, tr, i);
    InvWellFormed(c, s);
    SameWorkers(c, tr, i);
    hide *;
    if AtRest(c, s) {
      RestIsStuck(c, s);
    } else if !CanMove(c, s) {
      StuckIsStill(c, s);
      RunsUntilFailure(c, tr, i);
      if !s.stop { NobodyLeaves(c, tr, i); }
      StillNotDrained(c, s);
      StillIsRest(c, s);
    }
  }

  lemma StillNotDrained(c: Config, s: State)
    requires ValidConfig(c) && WellFormed(c, s) && Still(c, s)
    ensures !WritesNoMore(s.dma)
  {}

  /** Standing still before a stop, the pipeline has delivered all that was put on the read queue,
      exactly unless the read for the block to be delivered next has failed. */
  lemma StuckBehindFailedRead(c: Config, tr: seq<State>, i: nat)
    requires ValidConfig(c) && Run(c, tr) && i < |tr| && |tr[0].workers| > 0 && !tr[i].stop
    requires WellFormed(c, tr[i]) && !CanMove(c, tr[i])
    ensures |tr[i].stage| == |tr[i].sent| <==> !ReadFailed(tr, i, |tr[i].sent|)
    ensures |tr[i].stage| == Enqueued(tr[i])
  {
    var s := tr[i];
    StuckIff(c, tr, i);
    RunInv(c, tr, i);
    AllPlaced(c, tr, i);
    RestCounts(c, s);
    if |s.stage| > |s.sent| { LostOnlyByFailedRead(c, tr, i, |s.sent|); }
    if ReadFailed(tr, i, |s.sent|) {
      FailedReadEndsDelivery(c, tr, i, |s.sent|);
      HoleUndelivered(s, |s.sent|);
    }
    hide *;
  }

  lemma RestCounts(c: Config, s: State)
    requires Inv(c, s) && ValidConfig(c) && WellFormed(c, s) && AtRest(c, s) && !s.stop && Placed(c, s)
    ensures |s.sent| <= |s.stage| == Enqueued(s)
    ensures |s.sent| < |s.stage| ==> s.stage[|s.sent|].Gone?
  {
    assert Delivered(s) == |s.sent|;
    hide Filling, Working, SlotData, Owning, Logging, Bounding;
  }
}
