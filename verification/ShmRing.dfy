/** The shared-memory record ring, common/utils/ShmRing.cpp: one producer, one consumer,
    length-prefixed records in slots whose number need not be a power of two. */
module ShmRing {
  import opened Basics
  import opened Bits
  import opened Modular

  const PREFIX: nat := 4                           // sizeof(uint32_t)

  type Slot = seq<Byte>

  /** The stored length: four bytes, least significant first. */
  function Encode(len: nat): (b: seq<Byte>)
    requires len < WORD32
    ensures |b| == PREFIX
  {
    [(len % 256) as Byte, (len / 0x100 % 256) as Byte, (len / 0x1_0000 % 256) as Byte, (len / 0x100_0000) as Byte]
  }

  function Decode(b: seq<Byte>): (len: nat)
    requires |b| == PREFIX
    ensures len < WORD32
  {
    b[0] as nat + 0x100 * (b[1] as nat) + 0x1_0000 * (b[2] as nat) + 0x100_0000 * (b[3] as nat)
  }

  lemma DecodeEncode(len: nat)
    requires len < WORD32
    ensures Decode(Encode(len)) == len
  {
    var q := len / 0x100;
    assert len / 0x1_0000 == q / 0x100;
    assert len / 0x100_0000 == q / 0x100 / 0x100;
  }

  function StoredLength(slot: Slot): nat
    requires |slot| >= PREFIX
  {
    Decode(slot[..PREFIX])
  }

  /** A committed record: the length that was committed, and the slot's bytes behind it. */
  datatype Record = Record(len: nat, body: seq<Byte>)

  /** What a consumer can be given: lengths 1 .. slot_size - 4. */
  predicate Readable(r: Record) { 0 < r.len <= |r.body| }

  datatype Producer = Idle | Acquired(index: nat) | LengthStored(index: nat, len: nat)

  /** The consumer after a peek holds an index and a length, and copies the payload out. */
  datatype Consumer = Waiting | SawTail(at: nat) | Holding(index: nat, len: nat, got: map<nat, Byte>)

  /** produced and consumed are histories: the records of all commits, and the payloads
      read before all successful advances. */
  datatype State = State(
    slots: seq<Slot>, head: nat, tail: nat, producer: Producer, consumer: Consumer,
    produced: seq<Record>, consumed: seq<seq<Byte>>)

  datatype Step =
    | Acquire                      // loads tail and head; fails when full
    | Fill(j: nat, b: Byte)        // the caller writes a byte of the slot it was given
    | CommitLength(len: nat)
    | CommitTail
    | PeekTail                     // loads head and tail; fails when empty
    | PeekLength                   // loads the length; fails when it is not a valid one
    | CopyByte(j: nat)
    | Advance
    | AdvanceStale(index: nat)

  ghost predicate Sized(s: State, n: nat, size: nat) {
    && 0 < n < WORD32 && PREFIX < size < WORD32 && |s.slots| == n
    && forall j :: 0 <= j < n ==> |s.slots[j]| == size
  }

  ghost predicate Init(s: State, n: nat, size: nat) {
    && Sized(s, n, size) && s.head == 0 && s.tail == 0 && s.producer.Idle? && s.consumer.Waiting?
    && s.produced == [] && s.consumed == []
  }

  function SlotOf(k: nat, n: nat): (j: nat)
    requires n > 0
    ensures j < n
  {
    k % n
  }

  /** next - head > count, in 64-bit arithmetic. */
  predicate Full(head: nat, tail: nat, n: nat) {
    ((tail + 1) % WORD64 - head) % WORD64 > n
  }

  ghost predicate NextStep(s: State, s': State, step: Step, n: nat, size: nat)
    requires Sized(s, n, size)
  {
    match step
    case Acquire =>
      && s.producer.Idle?
      && s' == if Full(s.head, s.tail, n) then s else s.(producer := Acquired(s.tail))
    case Fill(j, b) =>
      && s.producer.Acquired? && j < size
      && var k := SlotOf(s.producer.index, n);
      s' == s.(slots := s.slots[k := s.slots[k][j := b]])
    case CommitLength(len) =>
      && s.producer.Acquired? && len < WORD32
      && var k := SlotOf(s.producer.index, n);
      s' == s.(slots := s.slots[k := Encode(len) + s.slots[k][PREFIX..]],
               producer := LengthStored(s.producer.index, len))
    case CommitTail =>
      && s.producer.LengthStored?
      && var k := SlotOf(s.producer.index, n);
      s' == s.(tail := (s.tail + 1) % WORD64, producer := Idle,
               produced := s.produced + [Record(s.producer.len, s.slots[k][PREFIX..])])
    case PeekTail =>
      && s.consumer.Waiting?
      && s' == if s.head >= s.tail then s else s.(consumer := SawTail(s.head))
    case PeekLength =>
      && s.consumer.SawTail?
      && var len := StoredLength(s.slots[SlotOf(s.consumer.at, n)]);
      s' == s.(consumer := if len == 0 || len > size - PREFIX then Waiting else Holding(s.consumer.at, len, map[]))
    case CopyByte(j) =>
      && s.consumer.Holding? && j < s.consumer.len <= size - PREFIX
      && var b := s.slots[SlotOf(s.consumer.index, n)][PREFIX + j];
      s' == s.(consumer := s.consumer.(got := s.consumer.got[j := b]))
    case Advance =>
      && s.consumer.Holding? && (forall j :: 0 <= j < s.consumer.len ==> j in s.consumer.got)
      && s' == if s.head != s.consumer.index then s.(consumer := Waiting)
               else s.(head := (s.head + 1) % WORD64, consumer := Waiting,
                       consumed := s.consumed + [Copied(s.consumer)])
    case AdvanceStale(index) => index != s.head && s' == s
  }

  ghost function Copied(c: Consumer): seq<Byte>
    requires c.Holding? && forall j :: 0 <= j < c.len ==> j in c.got
  {
    seq(c.len, j requires 0 <= j < c.len => c.got[j])
  }

  // ---- the invariant ----

  ghost predicate Holds(slots: seq<Slot>, k: nat, r: Record)
    requires |slots| > 0 && |slots[SlotOf(k, |slots|)]| > PREFIX
  {
    var slot := slots[SlotOf(k, |slots|)];
    StoredLength(slot) == r.len && slot[PREFIX..] == r.body
  }

  ghost predicate RecordsInv(s: State, n: nat, size: nat)
    requires Sized(s, n, size)
  {
    forall k :: |s.consumed| <= k < |s.produced| ==> Holds(s.slots, k, s.produced[k])
  }

  ghost predicate ProducerInv(s: State, n: nat, size: nat)
    requires Sized(s, n, size)
  {
    && (!s.producer.Idle? ==> s.producer.index == s.tail && |s.produced| < |s.consumed| + n)
    && (s.producer.LengthStored? ==> s.producer.len == StoredLength(s.slots[SlotOf(s.tail, n)]))
  }

  ghost predicate ConsumerInv(s: State, size: nat) {
    && (s.consumer.SawTail? ==> s.consumer.at == s.head && |s.consumed| < |s.produced|)
    && (s.consumer.Holding? ==>
          && s.consumer.index == s.head && |s.consumed| < |s.produced|
          && HeldInv(s.consumer, s.produced[|s.consumed|]))
  }

  /** The consumer holds a readable record and has copied only its bytes. */
  ghost predicate HeldInv(c: Consumer, r: Record)
    requires c.Holding?
  {
    && c.len == r.len && Readable(r)
    && forall j :: j in c.got ==> j < c.len && c.got[j] == r.body[j]
  }

  /** The payload of a record. */
  function Payload(r: Record): seq<Byte>
    requires r.len <= |r.body|
  {
    r.body[..r.len]
  }

  /** Everything taken so far was readable, and is what was committed, in order. */
  ghost predicate HistoryInv(s: State, size: nat) {
    && |s.consumed| <= |s.produced|
    && (forall k :: 0 <= k < |s.produced| ==> |s.produced[k].body| == size - PREFIX)
    && forall k :: 0 <= k < |s.consumed| ==> Readable(s.produced[k]) && s.consumed[k] == Payload(s.produced[k])
  }

  ghost predicate Inv(s: State, n: nat, size: nat) {
    && Sized(s, n, size)
    && |s.produced| < WORD64 && s.tail == |s.produced| && s.head == |s.consumed|
    && |s.consumed| <= |s.produced| <= |s.consumed| + n
    && HistoryInv(s, size) && RecordsInv(s, n, size) && ProducerInv(s, n, size) && ConsumerInv(s, size)
  }

  lemma InitInv(s: State, n: nat, size: nat)
    requires Init(s, n, size)
    ensures Inv(s, n, size)
  {}

  /** The full test measures the true backlog, also where the next tail would wrap. */
  lemma FullIff(s: State, n: nat, size: nat)
    requires Inv(s, n, size)
    ensures Full(s.head, s.tail, n) <==> |s.produced| == |s.consumed| + n
  {
    var d := |s.produced| + 1 - |s.consumed|;
    ModAdd(s.tail + 1, 0 - s.head, WORD64);
    ModSmall(d, WORD64);
  }

  /** The slot being filled is not the slot of any record still in the ring. */
  lemma SlotIsFree(s: State, n: nat, size: nat, k: nat)
    requires Inv(s, n, size) && !s.producer.Idle? && |s.consumed| <= k < |s.produced|
    ensures SlotOf(k, n) != SlotOf(s.producer.index, n)
  {
    ModDistinct(k, |s.produced|, n);
  }

  /** Writing the slot of the next record leaves the committed ones. */
  lemma OtherSlots(s: State, s': State, n: nat, size: nat, slot: Slot)
    requires Inv(s, n, size) && !s.producer.Idle? && |slot| == size
    requires s' == s.(slots := s.slots[SlotOf(s.producer.index, n) := slot], producer := s'.producer)
    ensures Sized(s', n, size) && RecordsInv(s', n, size)
  {
    forall k | |s'.consumed| <= k < |s'.produced| ensures Holds(s'.slots, k, s'.produced[k]) {
      SlotIsFree(s, n, size, k);
      assert Holds(s.slots, k, s.produced[k]);
    }
  }

  lemma AcquireInv(s: State, s': State, n: nat, size: nat)
    requires Inv(s, n, size) && NextStep(s, s', Acquire, n, size)
    ensures Inv(s', n, size)
  {
    FullIff(s, n, size);
    hide SlotOf, Full, Holds;
  }

  lemma FillInv(s: State, s': State, j: nat, b: Byte, n: nat, size: nat)
    requires Inv(s, n, size) && NextStep(s, s', Fill(j, b), n, size)
    ensures Inv(s', n, size)
  {
    var k := SlotOf(s.producer.index, n);
    OtherSlots(s, s', n, size, s.slots[k][j := b]);
    hide SlotOf, Holds, RecordsInv;
  }

  lemma CommitLengthInv(s: State, s': State, len: nat, n: nat, size: nat)
    requires Inv(s, n, size) && NextStep(s, s', CommitLength(len), n, size)
    ensures Inv(s', n, size)
  {
    var k := SlotOf(s.producer.index, n);
    var slot := Encode(len) + s.slots[k][PREFIX..];
    assert slot[..PREFIX] == Encode(len);
    DecodeEncode(len);
    OtherSlots(s, s', n, size, slot);
    hide SlotOf, Holds, RecordsInv, Decode, Encode;
  }

  lemma CommitTailInv(s: State, s': State, n: nat, size: nat)
    requires Inv(s, n, size) && NextStep(s, s', CommitTail, n, size) && |s'.produced| < WORD64
    ensures Inv(s', n, size)
  {
    ModSmall(s.tail + 1, WORD64);
    hide SlotOf;
    forall k | |s'.consumed| <= k < |s'.produced| ensures Holds(s'.slots, k, s'.produced[k]) {
      if k < |s.produced| { assert Holds(s.slots, k, s.produced[k]); }
    }
  }

  lemma PeekTailInv(s: State, s': State, n: nat, size: nat)
    requires Inv(s, n, size) && NextStep(s, s', PeekTail, n, size)
    ensures Inv(s', n, size)
  {
    hide SlotOf, Holds;
  }

  /** A peek that saw a record reads exactly the length that was committed with it. */
  lemma PeekLengthInv(s: State, s': State, n: nat, size: nat)
    requires Inv(s, n, size) && NextStep(s, s', PeekLength, n, size)
    ensures Inv(s', n, size)
    ensures s'.consumer.Holding? <==> Readable(s.produced[|s.consumed|])
  {
    assert Holds(s.slots, |s.consumed|, s.produced[|s.consumed|]);
    hide SlotOf;
  }

  lemma CopyByteInv(s: State, s': State, j: nat, n: nat, size: nat)
    requires Inv(s, n, size) && NextStep(s, s', CopyByte(j), n, size)
    ensures Inv(s', n, size)
  {
    var r, k := s.produced[|s.consumed|], SlotOf(s.head, n);
    assert Holds(s.slots, |s.consumed|, r);
    assert s.slots[k][PREFIX..][j] == s.slots[k][PREFIX + j];
    hide SlotOf, Holds;
  }

  /** An advance after a peek always succeeds, and takes the oldest record. */
  lemma AdvanceInv(s: State, s': State, n: nat, size: nat)
    requires Inv(s, n, size) && NextStep(s, s', Advance, n, size)
    ensures Inv(s', n, size)
    ensures s'.consumed == s.consumed + [Payload(s.produced[|s.consumed|])]
  {
    var r := s.produced[|s.consumed|];
    assert Copied(s.consumer) == Payload(r);
    ModSmall(s.head + 1, WORD64);
    hide SlotOf, Holds, Copied, Payload, Readable;
  }

  /** The ring as a queue of the records committed and not yet taken. */
  function Queue(s: State): seq<Record>
    requires |s.consumed| <= |s.produced|
  {
    s.produced[|s.consumed|..]
  }

  /** Every step of either side keeps the invariant, while fewer than 2^64 records have
      been committed; it appends a record, takes the oldest, or leaves the queue alone. */
  lemma StepInv(s: State, s': State, step: Step, n: nat, size: nat)
    requires Inv(s, n, size) && NextStep(s, s', step, n, size) && |s'.produced| < WORD64
    ensures Inv(s', n, size)
    ensures Queue(s') == Moved(s, s', step)
  {
    hide RecordsInv, ProducerInv, HistoryInv, Full, Holds;
    match step
    case Acquire => AcquireInv(s, s', n, size);
    case Fill(j, b) => FillInv(s, s', j, b, n, size);
    case CommitLength(len) => CommitLengthInv(s, s', len, n, size);
    case CommitTail => CommitTailInv(s, s', n, size);
    case PeekTail => PeekTailInv(s, s', n, size);
    case PeekLength => PeekLengthInv(s, s', n, size);
    case CopyByte(j) => CopyByteInv(s, s', j, n, size);
    case Advance => AdvanceInv(s, s', n, size);
    case AdvanceStale(_) =>
  }

  /** The queue after a step: only a commit and an advance change it. */
  ghost function Moved(s: State, s': State, step: Step): seq<Record>
    requires |s.consumed| <= |s.produced| && (step.Advance? ==> |s.consumed| < |s.produced|)
    requires step.CommitTail? ==> |s'.produced| > |s.produced|
  {
    match step
    case CommitTail => Queue(s) + [s'.produced[|s.produced|]]
    case Advance => Queue(s)[1..]
    case _ => Queue(s)
  }

  // ---- after 2^64 commits ----

  /** The first m payloads taken are what was committed. */
  ghost predicate TakenUpTo(s: State, m: int) {
    forall k :: 0 <= k < m && k < |s.consumed| && k < |s.produced| ==>
      Readable(s.produced[k]) && s.consumed[k] == Payload(s.produced[k])
  }

  /** The slots of consecutive indices go on across the wrap, so far as the record that a
      consumer may be holding there is concerned. */
  predicate SlotsGoOn(n: nat)
    requires n > 0
  {
    WORD64 % n <= 1
  }

  /** The tail has wrapped and the head never will. A consumer that was past its look at the
      tail may finish with its record; whether its slot is still its own is for SlotsGoOn. */
  ghost predicate Wrapped(s: State, n: nat, size: nat) {
    && Sized(s, n, size)
    && |s.consumed| < WORD64 <= |s.produced| <= |s.consumed| + n
    && s.tail == |s.produced| - WORD64 && s.head == |s.consumed|
    && (!s.producer.Idle? ==> s.producer.index == s.tail && |s.produced| < |s.consumed| + n)
    && (s.consumer.SawTail? ==> s.consumer.at == s.head && |s.consumed| + 1 < WORD64)
    && (s.consumer.Holding? ==> s.consumer.index == s.head && |s.consumed| + 1 < WORD64)
    && (forall k :: 0 <= k < |s.produced| ==> |s.produced[k].body| == size - PREFIX)
    && TakenUpTo(s, if s.consumer.Waiting? then |s.consumed| - 1 else |s.consumed|)
    && (SlotsGoOn(n) ==> TakenUpTo(s, |s.consumed|) && HeldIntact(s))
  }

  /** The record the consumer is looking at is still in its slot. */
  ghost predicate HeldIntact(s: State)
    requires |s.slots| > 0 && |s.slots[SlotOf(|s.consumed|, |s.slots|)]| > PREFIX && |s.consumed| < |s.produced|
  {
    && (!s.consumer.Waiting? ==> Holds(s.slots, |s.consumed|, s.produced[|s.consumed|]))
    && (s.consumer.Holding? ==> HeldInv(s.consumer, s.produced[|s.consumed|]))
  }

  /** Every state of every run is of one kind or the other. */
  ghost predicate AnyInv(s: State, n: nat, size: nat) {
    Inv(s, n, size) || Wrapped(s, n, size)
  }

  lemma WrapNow(s: State, s': State, n: nat, size: nat)
    requires Inv(s, n, size) && NextStep(s, s', CommitTail, n, size) && |s'.produced| == WORD64
    ensures Wrapped(s', n, size)
  {
    WrapToZero();
    if !s.consumer.Waiting? { assert Holds(s.slots, |s.consumed|, s.produced[|s.consumed|]); }
    hide SlotOf, Holds, HeldInv;
  }

  lemma WrapToZero()
    ensures WORD64 % WORD64 == 0
  {}

  /** Behind the wrap the slot being filled is not the one being read. */
  lemma HeldElsewhere(held: nat, tail: nat, n: nat)
    requires 0 < n && SlotsGoOn(n) && held + 2 <= WORD64 && WORD64 + tail < held + n
    ensures SlotOf(tail, n) != SlotOf(held, n)
  {
    var q, r := WORD64 / n, WORD64 % n;
    ModSmall(tail, n);
    if tail == held % n {
      Distribute(n, q, held / n);
      assert n * (q - held / n) == WORD64 - r - (held - tail);
      NoMultipleBetween(n, q - held / n);
    }
  }

  /** The full test still measures the true backlog. */
  lemma FullIffWrapped(s: State, n: nat, size: nat)
    requires Wrapped(s, n, size)
    ensures Full(s.head, s.tail, n) <==> |s.produced| == |s.consumed| + n
  {
    var d := |s.produced| + 1 - |s.consumed|;
    ModAdd(s.tail + 1, 0 - s.head, WORD64);
    DivModUnique(s.tail + 1 - s.head, WORD64, -1, d);
    hide SlotOf, Wrapped;
  }

  /** Behind the wrap no peek finds a record, though there are some. */
  lemma PeekFailsAfterWrap(s: State, s': State, n: nat, size: nat)
    requires Wrapped(s, n, size) && NextStep(s, s', PeekTail, n, size)
    ensures s' == s && s.tail < s.head && |s.consumed| < |s.produced|
  {}

  lemma WrappedProducer(s: State, s': State, step: Step, n: nat, size: nat)
    requires Wrapped(s, n, size) && NextStep(s, s', step, n, size)
    requires step.Acquire? || step.Fill? || step.CommitLength? || step.CommitTail?
    ensures Wrapped(s', n, size)
  {
    FullIffWrapped(s, n, size);
    ModSmall(s.tail + 1, WORD64);
    if !s.producer.Idle? && !s.consumer.Waiting? && SlotsGoOn(n) { HeldElsewhere(|s.consumed|, s.tail, n); }
    hide Full, SlotOf, Readable, Payload, HeldInv, Encode, Decode;
  }

  lemma WrappedConsumer(s: State, s': State, step: Step, n: nat, size: nat)
    requires Wrapped(s, n, size) && NextStep(s, s', step, n, size)
    requires step.PeekTail? || step.PeekLength? || step.CopyByte? || step.AdvanceStale?
    ensures Wrapped(s', n, size)
  {
    hide Payload, SlotsGoOn;
    if step.CopyByte? && SlotsGoOn(n) {
      var k := SlotOf(s.head, n);
      assert s.slots[k][PREFIX..][step.j] == s.slots[k][PREFIX + step.j];
    }
    hide SlotOf;
  }

  lemma WrappedAdvance(s: State, s': State, n: nat, size: nat)
    requires Wrapped(s, n, size) && NextStep(s, s', Advance, n, size)
    ensures Wrapped(s', n, size)
  {
    ModSmall(s.head + 1, WORD64);
    if SlotsGoOn(n) {
      var r := s.produced[|s.consumed|];
      assert Copied(s.consumer) == Payload(r);
    }
    hide SlotOf, Holds, Copied, Payload, SlotsGoOn;
  }

  /** Without a bound on the number of commits: every step keeps one invariant or the
      other, and changes the queue only by a commit or an advance. */
  lemma AnyStepInv(s: State, s': State, step: Step, n: nat, size: nat)
    requires AnyInv(s, n, size) && NextStep(s, s', step, n, size)
    ensures AnyInv(s', n, size) && Queue(s') == Moved(s, s', step)
    ensures Wrapped(s, n, size) ==> Wrapped(s', n, size)
  {
    hide RecordsInv, ProducerInv, HistoryInv, ConsumerInv, Full, Holds, SlotOf, TakenUpTo, HeldIntact, SlotsGoOn;
    if Inv(s, n, size) {
      if |s'.produced| < WORD64 { StepInv(s, s', step, n, size); } else { WrapNow(s, s', n, size); }
    } else {
      match step
      case Advance => WrappedAdvance(s, s', n, size);
      case Acquire => WrappedProducer(s, s', step, n, size);
      case Fill(_, _) => WrappedProducer(s, s', step, n, size);
      case CommitLength(_) => WrappedProducer(s, s', step, n, size);
      case CommitTail => WrappedProducer(s, s', step, n, size);
      case _ => WrappedConsumer(s, s', step, n, size);
    }
  }

  // ---- whole runs ----

  ghost predicate Next(s: State, s': State, n: nat, size: nat) {
    Sized(s, n, size) && exists step :: NextStep(s, s', step, n, size)
  }

  ghost predicate Run(tr: seq<State>, n: nat, size: nat) {
    && |tr| > 0 && Init(tr[0], n, size)
    && forall i :: 0 <= i < |tr| - 1 ==> Next(tr[i], tr[i + 1], n, size)
  }

  lemma {:induction false} RunInv(tr: seq<State>, i: nat, n: nat, size: nat)
    requires Run(tr, n, size) && i < |tr|
    ensures AnyInv(tr[i], n, size)
    decreases i
  {
    if i == 0 {
      InitInv(tr[0], n, size);
    } else {
      RunInv(tr, i - 1, n, size);
      hide Inv, Wrapped, Init;
      assert Next(tr[i - 1], tr[i - 1 + 1], n, size);
      var step :| NextStep(tr[i - 1], tr[i], step, n, size);
      hide NextStep;
      AnyStepInv(tr[i - 1], tr[i], step, n, size);
    }
  }

  /** In every interleaving, without a bound on its length: at most slot_count records are
      in the ring, and what was taken is, record by record, what was committed, in order. The
      exception is the last payload of a ring whose tail has wrapped, and then only if 2^64
      leaves a remainder of 2 or more by slot_count. */
  lemma TakenInOrder(tr: seq<State>, i: nat, n: nat, size: nat)
    requires Run(tr, n, size) && i < |tr|
    ensures 0 < n && var s := tr[i];
      && |s.consumed| <= |s.produced| <= |s.consumed| + n
      && forall k :: 0 <= k < |s.consumed| && (k + 1 < |s.consumed| || |s.produced| < WORD64 || SlotsGoOn(n)) ==>
           Readable(s.produced[k]) && s.consumed[k] == Payload(s.produced[k])
  {
    RunInv(tr, i, n, size);
    hide RecordsInv, ProducerInv, Payload, Readable, SlotOf, HeldIntact, SlotsGoOn;
  }

  /** 2^64 commits is the exact limit: a peek that starts with a record in the ring finds
      one if and only if fewer than 2^64 have been committed. */
  lemma PeekFindsUntilWrap(tr: seq<State>, i: nat, s': State, n: nat, size: nat)
    requires Run(tr, n, size) && i < |tr| && Sized(tr[i], n, size)
    requires NextStep(tr[i], s', PeekTail, n, size) && |tr[i].consumed| < |tr[i].produced|
    ensures s'.consumer.SawTail? <==> |tr[i].produced| < WORD64
  {
    RunInv(tr, i, n, size);
    hide RecordsInv, ProducerInv, HistoryInv, TakenUpTo, HeldIntact, SlotsGoOn, SlotOf;
  }

  /** From the 2^64-th commit on the ring is dead: no peek ever succeeds again. A consumer
      that was waiting takes nothing more, one in the middle of a record at most that one. */
  lemma {:induction false} WrapEndsTheRing(tr: seq<State>, i: nat, j: nat, n: nat, size: nat)
    requires Run(tr, n, size) && i <= j < |tr| && |tr[i].produced| >= WORD64
    ensures Wrapped(tr[j], n, size)
    ensures tr[i].consumer.Waiting? ==> tr[j].consumer.Waiting? && tr[j].consumed == tr[i].consumed
    ensures |tr[i].consumed| <= |tr[j].consumed| <= |tr[i].consumed| + 1
    ensures !tr[j].consumer.Waiting? ==> tr[j].consumed == tr[i].consumed
    ensures j > i && tr[j].consumer.SawTail? ==> tr[j - 1].consumer == tr[j].consumer
    decreases j
  {
    hide Inv, Wrapped, Init, NextStep;
    if i == j {
      RunInv(tr, i, n, size);
      PastWrap(tr[i], n, size);
    } else {
      WrapEndsTheRing(tr, i, j - 1, n, size);
      assert Next(tr[j - 1], tr[j - 1 + 1], n, size);
      hide *;
      WrappedStep(tr[j - 1], tr[j], n, size);
    }
  }

  lemma PastWrap(s: State, n: nat, size: nat)
    requires AnyInv(s, n, size) && |s.produced| >= WORD64
    ensures Wrapped(s, n, size)
  {}

  lemma WrappedStep(s: State, s': State, n: nat, size: nat)
    requires Wrapped(s, n, size) && Next(s, s', n, size)
    ensures Wrapped(s', n, size)
    ensures s.consumer.Waiting? ==> s'.consumer.Waiting?
    ensures s'.consumed == s.consumed || (|s'.consumed| == |s.consumed| + 1 && !s.consumer.Waiting?
                                          && s'.consumer.Waiting?)
    ensures s'.consumer.SawTail? ==> s.consumer == s'.consumer
  {
    hide NextStep, Wrapped, Inv;
    var step :| NextStep(s, s', step, n, size);
    AnyStepInv(s, s', step, n, size);
    WrappedMoves(s, s', step, n, size);
  }

  lemma WrappedMoves(s: State, s': State, step: Step, n: nat, size: nat)
    requires Wrapped(s, n, size) && NextStep(s, s', step, n, size)
    ensures s.consumer.Waiting? ==> s'.consumer.Waiting?
    ensures s'.consumed == s.consumed || (|s'.consumed| == |s.consumed| + 1 && !s.consumer.Waiting?
                                          && s'.consumer.Waiting?)
    ensures s'.consumer.SawTail? ==> s.consumer == s'.consumer
  {
    hide SlotOf, Full, TakenUpTo, HeldIntact, Copied, Encode;
  }

  /** A record whose length the consumer rejects is never passed: nothing behind it is
      taken in any continuation (behind the wrap as long as its slot is not reused). */
  lemma {:induction false} BadLengthBlocks(tr: seq<State>, i: nat, j: nat, n: nat, size: nat)
    requires Run(tr, n, size) && i <= j < |tr| && n > 0
    requires |tr[i].consumed| < |tr[i].produced| && !Readable(tr[i].produced[|tr[i].consumed|])
    requires |tr[j].produced| < WORD64 || SlotsGoOn(n)
    ensures tr[j].consumed == tr[i].consumed && tr[i].produced <= tr[j].produced
    decreases j
  {
    hide Inv, Wrapped, NextStep, Init;
    if i < j {
      assert Next(tr[j - 1], tr[j - 1 + 1], n, size);
      var step :| NextStep(tr[j - 1], tr[j], step, n, size);
      ProducedGrows(tr[j - 1], tr[j], step, n, size);
      BadLengthBlocks(tr, i, j - 1, n, size);
      RunInv(tr, j - 1, n, size);
      BlockedStep(tr[j - 1], tr[j], step, n, size);
    }
  }

  lemma ProducedGrows(s: State, s': State, step: Step, n: nat, size: nat)
    requires Sized(s, n, size) && NextStep(s, s', step, n, size)
    ensures s.produced <= s'.produced
  {
    hide SlotOf, Full, Copied, Encode;
  }

  lemma BlockedStep(s: State, s': State, step: Step, n: nat, size: nat)
    requires AnyInv(s, n, size) && NextStep(s, s', step, n, size)
    requires |s.produced| < WORD64 || SlotsGoOn(n)
    requires |s.consumed| < |s.produced| && !Readable(s.produced[|s.consumed|])
    ensures s'.consumed == s.consumed && s.produced <= s'.produced
  {
    hide RecordsInv, ProducerInv, HistoryInv, TakenUpTo, Full, SlotOf, SlotsGoOn, Encode;
  }

  // ---- the wrap and the torn payload do occur ----

  ghost predicate Reached(s: State, n: nat, size: nat) {
    exists tr :: Run(tr, n, size) && tr[|tr| - 1] == s
  }

  lemma OneMoreStep(s: State, s': State, step: Step, n: nat, size: nat)
    requires Reached(s, n, size) && Sized(s, n, size) && NextStep(s, s', step, n, size)
    ensures Reached(s', n, size) && Sized(s', n, size)
  {
    var tr :| Run(tr, n, size) && tr[|tr| - 1] == s;
    assert Next(s, s', n, size);
    var more := tr + [s'];
    forall i | 0 <= i < |more| - 1 ensures Next(more[i], more[i + 1], n, size) {
      if i < |tr| - 1 { assert Next(tr[i], tr[i + 1], n, size); }
    }
    assert Run(more, n, size) && more[|more| - 1] == s';
    hide Run;
    StaysSized(s, s', step, n, size);
  }

  lemma StaysSized(s: State, s': State, step: Step, n: nat, size: nat)
    requires Sized(s, n, size) && NextStep(s, s', step, n, size)
    ensures Sized(s', n, size)
  {
    hide SlotOf, Full, Copied, Encode;
  }

  /** Commits one record of one byte, b, whatever the consumer is doing. */
  lemma CommitByte(s: State, b: Byte, n: nat, size: nat) returns (s': State)
    requires Reached(s, n, size) && AnyInv(s, n, size) && s.producer.Idle? && |s.produced| < |s.consumed| + n
    ensures Reached(s', n, size) && AnyInv(s', n, size)
    ensures s'.producer.Idle? && s'.head == s.head && s'.consumer == s.consumer && s'.consumed == s.consumed
    ensures s'.tail == (s.tail + 1) % WORD64 && |s'.produced| == |s.produced| + 1 && s.produced <= s'.produced
    ensures size > PREFIX && |s'.produced[|s.produced|].body| == size - PREFIX
    ensures s'.produced[|s.produced|].len == 1 && s'.produced[|s.produced|].body[0] == b
  {
    AnyFull(s, n, size);
    var k := SlotOf(s.tail, n);
    var s1 := s.(producer := Acquired(s.tail));
    var s2 := s1.(slots := s1.slots[k := s1.slots[k][PREFIX := b]]);
    var s3 := s2.(slots := s2.slots[k := Encode(1) + s2.slots[k][PREFIX..]], producer := LengthStored(s.tail, 1));
    s' := s3.(tail := (s.tail + 1) % WORD64, producer := Idle,
              produced := s.produced + [Record(1, s3.slots[k][PREFIX..])]);
    assert s3.slots[k][PREFIX..] == s2.slots[k][PREFIX..];
    CommitSteps(s, s1, s2, s3, s', b, n, size);
    hide NextStep, Reached, Inv, Wrapped, SlotOf, Encode, Full;
    TakeStep(s, s1, Acquire, n, size);
    TakeStep(s1, s2, Fill(PREFIX, b), n, size);
    TakeStep(s2, s3, CommitLength(1), n, size);
    TakeStep(s3, s', CommitTail, n, size);
  }

  lemma TakeStep(s: State, s': State, step: Step, n: nat, size: nat)
    requires Reached(s, n, size) && AnyInv(s, n, size) && Sized(s, n, size) && NextStep(s, s', step, n, size)
    ensures Reached(s', n, size) && AnyInv(s', n, size)
  {
    OneMoreStep(s, s', step, n, size);
    AnyStepInv(s, s', step, n, size);
  }

  lemma CommitSteps(s: State, s1: State, s2: State, s3: State, s': State, b: Byte, n: nat, size: nat)
    requires Sized(s, n, size) && s.producer.Idle? && !Full(s.head, s.tail, n)
    requires var k := SlotOf(s.tail, n);
      && s1 == s.(producer := Acquired(s.tail))
      && s2 == s1.(slots := s1.slots[k := s1.slots[k][PREFIX := b]])
      && s3 == s2.(slots := s2.slots[k := Encode(1) + s2.slots[k][PREFIX..]], producer := LengthStored(s.tail, 1))
      && s' == s3.(tail := (s.tail + 1) % WORD64, producer := Idle,
                   produced := s.produced + [Record(1, s3.slots[k][PREFIX..])])
    ensures NextStep(s, s1, Acquire, n, size)
    ensures Sized(s1, n, size) && NextStep(s1, s2, Fill(PREFIX, b), n, size)
    ensures Sized(s2, n, size) && NextStep(s2, s3, CommitLength(1), n, size)
    ensures Sized(s3, n, size) && NextStep(s3, s', CommitTail, n, size)
  {
    hide SlotOf, Encode, Full;
  }

  lemma AnyFull(s: State, n: nat, size: nat)
    requires AnyInv(s, n, size)
    ensures Sized(s, n, size) && s.tail < WORD64 && |s.consumed| <= |s.produced| && s.head == |s.consumed|
    ensures Full(s.head, s.tail, n) <==> |s.produced| == |s.consumed| + n
  {
    if Inv(s, n, size) { FullIff(s, n, size); } else { FullIffWrapped(s, n, size); }
    hide SlotOf, Full, Holds;
  }

  /** Peeks at the only record in the ring, which is one byte long. */
  lemma PeekByte(s: State, n: nat, size: nat) returns (s': State)
    requires Reached(s, n, size) && Inv(s, n, size) && s.consumer.Waiting? && |s.produced| == |s.consumed| + 1
    requires s.produced[|s.consumed|].len == 1
    ensures Reached(s', n, size) && Inv(s', n, size) && s' == s.(consumer := Holding(s.head, 1, map[]))
  {
    assert Holds(s.slots, |s.consumed|, s.produced[|s.consumed|]);
    var s1 := s.(consumer := SawTail(s.head));
    OneMoreStep(s, s1, PeekTail, n, size);
    s' := s.(consumer := Holding(s.head, 1, map[]));
    OneMoreStep(s1, s', PeekLength, n, size);
    hide Reached, SlotOf;
    StepInv(s, s1, PeekTail, n, size);
    StepInv(s1, s', PeekLength, n, size);
  }

  /** Takes the byte the slot of the held record now contains. */
  lemma TakeByte(s: State, n: nat, size: nat) returns (s': State)
    requires Reached(s, n, size) && AnyInv(s, n, size) && s.consumer == Holding(s.head, 1, map[]) && size > PREFIX
    requires n > 0 && SlotOf(s.head, n) < |s.slots| && |s.slots[SlotOf(s.head, n)]| > PREFIX
    ensures Reached(s', n, size) && AnyInv(s', n, size)
    ensures s' == s.(head := (s.head + 1) % WORD64, consumer := Waiting,
                     consumed := s.consumed + [[s.slots[SlotOf(s.head, n)][PREFIX]]])
  {
    var b := s.slots[SlotOf(s.head, n)][PREFIX];
    var s1 := s.(consumer := Holding(s.head, 1, map[0 := b]));
    s' := s.(head := (s.head + 1) % WORD64, consumer := Waiting, consumed := s.consumed + [[b]]);
    ByteSteps(s, s1, s', b, n, size);
    hide NextStep, Reached, Inv, Wrapped, SlotOf;
    TakeStep(s, s1, CopyByte(0), n, size);
    TakeStep(s1, s', Advance, n, size);
  }

  lemma ByteSteps(s: State, s1: State, s': State, b: Byte, n: nat, size: nat)
    requires AnyInv(s, n, size) && s.consumer == Holding(s.head, 1, map[]) && size > PREFIX
    requires n > 0 && SlotOf(s.head, n) < |s.slots| && |s.slots[SlotOf(s.head, n)]| > PREFIX
    requires b == s.slots[SlotOf(s.head, n)][PREFIX] && s1 == s.(consumer := Holding(s.head, 1, map[0 := b]))
    requires s' == s.(head := (s.head + 1) % WORD64, consumer := Waiting, consumed := s.consumed + [[b]])
    ensures Sized(s, n, size) && NextStep(s, s1, CopyByte(0), n, size)
    ensures Sized(s1, n, size) && NextStep(s1, s', Advance, n, size)
  {
    assert Copied(s1.consumer) == [b];
    hide SlotOf, HistoryInv, RecordsInv, ProducerInv, TakenUpTo, HeldIntact, SlotsGoOn;
  }

  ghost predicate Drained(s: State, m: nat) {
    s.producer.Idle? && s.consumer.Waiting? && |s.produced| == m && |s.consumed| == m
  }

  /** A run that commits and takes m records, one after the other. */
  lemma {:induction false} DrainedIsReachable(n: nat, size: nat, m: nat) returns (s: State)
    requires 0 < n < WORD32 && PREFIX < size < WORD32 && m < WORD64
    ensures Reached(s, n, size) && Inv(s, n, size) && Drained(s, m)
    decreases m
  {
    if m == 0 {
      var slot := seq(size, _ => 0);
      s := State(seq(n, _ => slot), 0, 0, Idle, Waiting, [], []);
      assert Run([s], n, size);
      InitInv(s, n, size);
    } else {
      var s0 := DrainedIsReachable(n, size, m - 1);
      hide Reached, Inv, Wrapped;
      AtDrained(s0, n, size, m - 1);
      var s1 := CommitByte(s0, 0, n, size);
      NotWrapped(s1, n, size);
      var s2 := PeekByte(s1, n, size);
      NotWrapped(s2, n, size);
      s := TakeByte(s2, n, size);
      NotWrapped(s, n, size);
    }
  }

  lemma AtDrained(s: State, n: nat, size: nat, m: nat)
    requires Inv(s, n, size) && Drained(s, m)
    ensures n > 0 && s.head == m && s.tail == m && m < WORD64
  {}

  lemma NotWrapped(s: State, n: nat, size: nat)
    requires AnyInv(s, n, size) && |s.produced| < WORD64
    ensures Inv(s, n, size) && 0 < n < WORD32 && PREFIX < size && |s.slots| == n
    ensures forall j :: 0 <= j < n ==> |s.slots[j]| == size
  {}

  /** Every ring reaches its 2^64-th commit. */
  lemma WrapIsReachable(n: nat, size: nat)
    requires 0 < n < WORD32 && PREFIX < size < WORD32
    ensures exists s :: Reached(s, n, size) && Wrapped(s, n, size) && s.consumer.Waiting?
  {
    var s0 := DrainedIsReachable(n, size, WORD64 - 1);
    hide Reached;
    AtDrained(s0, n, size, WORD64 - 1);
    var s := CommitByte(s0, 0, n, size);
    assert Reached(s, n, size) && Wrapped(s, n, size) && s.consumer.Waiting?;
  }

  /** From the wrap on the producer fills the next slots one by one. */
  lemma {:induction false} CommitMany(s: State, m: nat, n: nat, size: nat) returns (s': State)
    requires Reached(s, n, size) && Wrapped(s, n, size) && s.producer.Idle? && |s.produced| + m <= |s.consumed| + n
    ensures Reached(s', n, size) && Wrapped(s', n, size) && s'.producer.Idle?
    ensures s'.head == s.head && s'.consumer == s.consumer && s'.consumed == s.consumed
    ensures s'.tail == s.tail + m && s.produced <= s'.produced && |s'.produced| == |s.produced| + m
    decreases m
  {
    s' := s;
    if m > 0 {
      var s1 := CommitByte(s, 0, n, size);
      hide Reached;
      s' := CommitMany(s1, m - 1, n, size);
    }
  }

  /** Starts to fill the slot behind the tail, which is that of the held record. */
  lemma ReuseSlot(s: State, b: Byte, n: nat, size: nat) returns (s': State)
    requires Reached(s, n, size) && Wrapped(s, n, size) && s.producer.Idle? && |s.produced| < |s.consumed| + n
    requires SlotOf(s.tail, n) == SlotOf(s.head, n)
    ensures Reached(s', n, size) && Wrapped(s', n, size)
    ensures s'.head == s.head && s'.consumer == s.consumer && s'.consumed == s.consumed && s'.produced == s.produced
    ensures n > 0 && SlotOf(s.head, n) < |s'.slots| && size > PREFIX && |s'.slots[SlotOf(s.head, n)]| == size
    ensures s'.slots[SlotOf(s.head, n)][PREFIX] == b
  {
    AnyFull(s, n, size);
    var k := SlotOf(s.tail, n);
    var s1 := s.(producer := Acquired(s.tail));
    OneMoreStep(s, s1, Acquire, n, size);
    s' := s1.(slots := s1.slots[k := s1.slots[k][PREFIX := b]]);
    OneMoreStep(s1, s', Fill(PREFIX, b), n, size);
    hide Reached, SlotOf, Full;
    AnyStepInv(s, s1, Acquire, n, size);
    AnyStepInv(s1, s', Fill(PREFIX, b), n, size);
  }

  lemma SameSlot(n: nat)
    requires n > 0 && WORD64 % n >= 2
    ensures SlotOf(WORD64 % n - 2, n) == SlotOf(WORD64 - 2, n)
  {
    var q, r := WORD64 / n, WORD64 % n;
    DivModUnique(WORD64 - 2, n, q, r - 2);
    ModSmall(r - 2, n);
  }

  /** The payload taken last is not the one that was committed. */
  ghost predicate TornLast(s: State) {
    && 0 < |s.consumed| <= |s.produced|
    && var k := |s.consumed| - 1; Readable(s.produced[k]) && s.consumed[k] != Payload(s.produced[k])
  }

  /** Record 2^64 - 2, of one byte, is being read when the tail wraps. */
  ghost predicate HeldAtWrap(s: State, n: nat, size: nat) {
    && Reached(s, n, size) && Wrapped(s, n, size) && s.producer.Idle? && s.consumer == Holding(WORD64 - 2, 1, map[])
    && s.head == |s.consumed| == WORD64 - 2 && s.produced[WORD64 - 2].len == 1
    && s.produced[WORD64 - 2].body[..1] == [0]
  }

  lemma ReachHeldAtWrap(n: nat, size: nat) returns (s: State)
    requires 1 < n < WORD32 && PREFIX < size < WORD32
    ensures HeldAtWrap(s, n, size) && |s.produced| == WORD64 && s.tail == 0
  {
    var s0 := DrainedIsReachable(n, size, WORD64 - 2);
    hide Reached, SlotOf, Wrapped, Inv;
    AtDrained(s0, n, size, WORD64 - 2);
    var s1 := CommitByte(s0, 0, n, size);
    NotWrapped(s1, n, size);
    var s2 := PeekByte(s1, n, size);
    s := CommitByte(s2, 0, n, size);
    assert s.produced[WORD64 - 2] == s1.produced[WORD64 - 2];
    AtWrap(s, n, size);
  }

  lemma AtWrap(s: State, n: nat, size: nat)
    requires AnyInv(s, n, size) && |s.produced| == WORD64
    ensures Wrapped(s, n, size) && s.head == |s.consumed|
  {}

  /** The exception in TakenInOrder is real: for every slot_count that leaves a remainder of
      2 or more there is a run in which the consumer takes what was never committed. */
  lemma TornPayloadIsReachable(n: nat, size: nat)
    requires 0 < n < WORD32 && PREFIX < size < WORD32 && !SlotsGoOn(n)
    ensures exists s :: Reached(s, n, size) && TornLast(s)
  {
    SameSlot(n);
    var s0 := ReachHeldAtWrap(n, size);
    var s := Tear(s0, WORD64 % n, n, size);
  }

  /** Fills the slots up to the held record's, and that slot too, while the record is read. */
  lemma Tear(s0: State, r: nat, n: nat, size: nat) returns (s: State)
    requires HeldAtWrap(s0, n, size) && |s0.produced| == WORD64 && s0.tail == 0
    requires 2 <= r < n && SlotOf(r - 2, n) == SlotOf(WORD64 - 2, n)
    ensures Reached(s, n, size) && TornLast(s)
  {
    hide Reached, SlotOf, Wrapped, Inv;
    var s1 := CommitMany(s0, r - 2, n, size);
    var s2 := ReuseSlot(s1, 1, n, size);
    s := TakeByte(s2, n, size);
    assert s.produced[WORD64 - 2] == s0.produced[WORD64 - 2];
    assert s.consumed[WORD64 - 2] == [1];
    LongerHistory(s, n, size);
  }

  lemma LongerHistory(s: State, n: nat, size: nat)
    requires AnyInv(s, n, size)
    ensures |s.consumed| <= |s.produced| && PREFIX < size
    ensures forall k :: 0 <= k < |s.produced| ==> |s.produced[k].body| == size - PREFIX
  {}

  // ---- the four operations, each run alone ----

  function Between(slots: seq<Slot>, head: nat, tail: nat): (s: seq<Slot>)
    requires slots != [] && head <= tail
    ensures |s| == tail - head
  {
    seq(tail - head, i requires i >= 0 => slots[SlotOf(head + i, |slots|)])
  }

  /** Filling the slot after the last one adds it at the end. */
  lemma BetweenAppend(slots: seq<Slot>, head: nat, tail: nat, slot: Slot)
    requires slots != [] && head <= tail < head + |slots|
    ensures Between(slots[SlotOf(tail, |slots|) := slot], head, tail + 1) == Between(slots, head, tail) + [slot]
  {
    var n, k := |slots|, SlotOf(tail, |slots|);
    var filled := slots[k := slot];
    var l, r := Between(filled, head, tail + 1), Between(slots, head, tail) + [slot];
    forall i | 0 <= i < |l| ensures l[i] == r[i] {
      assert l[i] == filled[SlotOf(head + i, n)];
      if i < tail - head {
        ModDistinct(head + i, tail, n);
        assert r[i] == slots[SlotOf(head + i, n)];
      } else {
        assert head + i == tail;
      }
    }
  }

  lemma BetweenDrop(slots: seq<Slot>, head: nat, tail: nat)
    requires slots != [] && head < tail
    ensures Between(slots, head + 1, tail) == Between(slots, head, tail)[1..]
  {
    var l, r := Between(slots, head + 1, tail), Between(slots, head, tail)[1..];
    forall i | 0 <= i < |l| ensures l[i] == r[i] {
      assert head + 1 + i == head + (1 + i);
    }
  }

  class Ring {
    const slotCount: nat
    const slotSize: nat
    var head: nat
    var tail: nat
    var slots: array<Slot>

    /** Sizes and widths: all that the operations themselves rely on. */
    ghost predicate Shaped()
      reads this, slots
    {
      && 0 < slotCount < WORD32 && PREFIX < slotSize < WORD32 && slots.Length == slotCount
      && (forall j :: 0 <= j < slotCount ==> |slots[j]| == slotSize)
      && head < WORD64 && tail < WORD64
    }

    ghost predicate Valid()
      reads this, slots
    {
      Shaped() && head <= tail <= head + slotCount
    }

    /** A ring just created: the shared memory is zero and so are both counters. */
    constructor (count: nat, size: nat)
      requires 0 < count < WORD32 && PREFIX < size < WORD32
      ensures slotCount == count && slotSize == size && fresh(slots)
      ensures Valid() && Contents() == [] && head == tail == 0
    {
      slotCount, slotSize, head, tail := count, size, 0, 0;
      slots := new Slot[count](_ => seq(size, _ => 0 as Byte));
    }

    /** The committed slots, oldest first. */
    ghost function Contents(): (s: seq<Slot>)
      requires Valid()
      reads this, slots
      ensures |s| == tail - head && (head < tail ==> s[0] == slots[SlotOf(head, slotCount)])
    {
      Between(slots[..], head, tail)
    }

    method ProducerAcquire() returns (ok: bool, slot: nat, capacity: nat, index: nat)
      requires Shaped()
      ensures ok == !Full(head, tail, slotCount)
      ensures Valid() ==> ok == (|Contents()| < slotCount)
      ensures ok ==> index == tail && slot == SlotOf(tail, slotCount) && capacity == slotSize
      ensures ok && Valid() ==> forall k :: head <= k < tail ==> slot != SlotOf(k, slotCount)
    {
      var next := (tail + 1) % WORD64;
      ModAdd(tail + 1, 0 - head, WORD64);
      if head <= tail <= head + slotCount { ModSmall(tail + 1 - head, WORD64); }
      if (next - head) % WORD64 > slotCount { return false, 0, 0, 0; }
      slot := SlotOf(tail, slotCount);
      forall k | head <= k < tail && Valid() ensures slot != SlotOf(k, slotCount) { ModDistinct(k, tail, slotCount); }
      return true, slot, slotSize, tail;
    }

    /** Stores a length in the slot of any index and moves the tail; with the index that was
        acquired, this commits the slot. */
    method ProducerCommit(index: nat, len: nat)
      requires Shaped() && len < WORD32
      modifies this`tail, slots
      ensures Shaped() && tail == (old(tail) + 1) % WORD64
      ensures var k := SlotOf(index, slotCount);
        slots[..] == old(slots[..])[k := Encode(len) + old(slots[k])[PREFIX..]]
      ensures old(Valid()) && index == old(tail) < head + slotCount && index + 1 < WORD64 ==>
        && Valid()
        && Contents() == old(Contents()) + [Encode(len) + old(slots[SlotOf(index, slotCount)][PREFIX..])]
    {
      var k := SlotOf(index, slotCount);
      var slot := Encode(len) + slots[k][PREFIX..];
      if Valid() && index == tail < head + slotCount && index + 1 < WORD64 {
        BetweenAppend(slots[..], head, tail, slot);
        ModSmall(tail + 1, WORD64);
      }
      hide SlotOf, Between, Encode;
      slots[k] := slot;
      assert slots[..] == old(slots[..])[k := slot];
      tail := (tail + 1) % WORD64;
    }

    method ConsumerPeek() returns (ok: bool, payload: seq<Byte>, index: nat)
      requires Shaped()
      ensures ok <==> head < tail && 0 < StoredLength(slots[SlotOf(head, slotCount)]) <= slotSize - PREFIX
      ensures ok ==> index == head
      ensures ok && Valid() ==> payload == Contents()[0][PREFIX..PREFIX + StoredLength(Contents()[0])]
    {
      if head >= tail { return false, [], 0; }
      var p := slots[SlotOf(head, slotCount)];
      assert Valid() ==> Contents()[0] == p;
      var storedLen := StoredLength(p);
      if storedLen == 0 || storedLen > slotSize - PREFIX { return false, [], 0; }
      return true, p[PREFIX..PREFIX + storedLen], head;
    }

    /** Moves the head if `index` is the current one: takes the oldest record, and on an empty
        ring puts the head ahead of the tail (see EmptyAdvanceSkips). */
    method ConsumerAdvance(index: nat) returns (ok: bool)
      requires Shaped()
      modifies this`head
      ensures Shaped() && ok == (index == old(head))
      ensures head == if ok then (old(head) + 1) % WORD64 else old(head)
      ensures old(Valid()) && (ok ==> old(head) < tail) ==>
        Valid() && Contents() == if ok then old(Contents())[1..] else old(Contents())
    {
      if head != index { return false; }
      if Valid() && head < tail {
        BetweenDrop(slots[..], head, tail);
        ModSmall(head + 1, WORD64);
      }
      hide SlotOf, Between;
      head := (head + 1) % WORD64;
      ok := true;
    }
  }

  /** Acquire and commit, on a ring that is empty or whose head is one ahead of the tail. */
  method PutRecord(r: Ring, len: nat) returns (room: bool)
    requires r.Shaped() && len < WORD32 && r.tail + 1 < WORD64 && r.tail <= r.head <= r.tail + 1
    modifies r`tail, r.slots
    ensures room && r.Shaped() && r.tail == old(r.tail) + 1
    ensures var k := SlotOf(old(r.tail), r.slotCount);
      r.slots[..] == old(r.slots[..])[k := Encode(len) + old(r.slots[k])[PREFIX..]]
  {
    ModSmall(r.tail + 1, WORD64);
    ModSmall(r.tail + 1 - r.head, WORD64);
    var slot, capacity, index;
    room, slot, capacity, index := r.ProducerAcquire();
    r.ProducerCommit(index, len);
  }

  /** The first part of EmptyAdvanceSkips: the record committed after the advance is not seen. */
  method AdvanceThenPut(r: Ring, len: nat) returns (advanced: bool, room: bool, seen: bool)
    requires r.Shaped() && r.head == r.tail && r.tail + 2 < WORD64 && len < WORD32
    modifies r`head, r`tail, r.slots
    ensures advanced && room && !seen && r.Shaped() && r.tail == r.head == old(r.head) + 1
    ensures forall j :: 0 <= j < r.slotCount ==> r.slots[j][PREFIX..] == old(r.slots[j])[PREFIX..]
  {
    var h, index, payload := r.head, 0, [];
    ModSmall(h + 1, WORD64);
    advanced := r.ConsumerAdvance(h);
    hide SlotOf, Encode;
    ghost var was := r.slots[..];
    room := PutRecord(r, len);
    forall j | 0 <= j < r.slotCount ensures r.slots[j][PREFIX..] == was[j][PREFIX..] {
      assert r.slots[j] == r.slots[..][j];
    }
    seen, payload, index := r.ConsumerPeek();
  }

  /** An advance on an empty ring, and two records after it: the producer finds room and
      commits the first, but a peek still answers empty; only the second is seen, so the first
      is skipped. */
  method EmptyAdvanceSkips(r: Ring, len0: nat, len1: nat)
    returns (advanced: bool, room: bool, seen: bool, laterRoom: bool, laterSeen: bool, payload: seq<Byte>)
    requires r.Valid() && r.Contents() == [] && r.tail + 2 < WORD64
    requires len0 < WORD32 && 0 < len1 <= r.slotSize - PREFIX
    modifies r, r.slots
    ensures advanced && room && !seen && laterRoom && laterSeen && r.Valid() && |r.Contents()| == 1
    ensures r.slotCount > 0 && payload == old(r.slots[SlotOf(r.head + 1, r.slotCount)])[PREFIX..PREFIX + len1]
  {
    ghost var k := SlotOf(r.head + 1, r.slotCount);
    ghost var second := r.slots[k];
    var index;
    advanced, room, seen := AdvanceThenPut(r, len0);
    hide Between, SlotOf, Encode, Decode;
    assert r.slots[k][PREFIX..] == second[PREFIX..];
    laterRoom := PutRecord(r, len1);
    assert r.slots[k] == Encode(len1) + second[PREFIX..] by { assert r.slots[k] == r.slots[..][k]; }
    assert StoredLength(r.slots[k]) == len1 by {
      assert r.slots[k][..PREFIX] == Encode(len1);
      DecodeEncode(len1);
    }
    laterSeen, payload, index := r.ConsumerPeek();
  }
}
