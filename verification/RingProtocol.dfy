/** The lock-free rings under concurrency: producer and consumer take small steps in any
    order, each working from a possibly stale copy of the other's index. The byte queue moves
    any number of entries at a time under 32-bit indices, the descriptor queue one under
    64-bit indices. */
module RingProtocol {
  import opened Basics
  import opened Modular
  import opened RingIndex

  /** Idle, or between loading the indices and publishing the new put index. The
      memcpy bytes may be written in any order; `done` are the offsets written. */
  datatype Producer<T> = PutIdle | Putting(put0: nat, data: seq<T>, done: set<nat>)

  /** Likewise for a get; `got` are the bytes copied out so far. */
  datatype Consumer<T> = GetIdle | Getting(get0: nat, n: nat, got: map<nat, T>)

  /** produced and consumed are histories: the bytes of all published puts and gets. */
  datatype State<T> = State(
    word: nat, buffer: seq<T>, putIndex: nat, getIndex: nat,
    producer: Producer<T>, consumer: Consumer<T>,
    produced: seq<T>, consumed: seq<T>)

  datatype Step<T> =
    | PutLoad(data: seq<T>, fixed: bool)
    | PutCopy(j: nat)
    | PutStore
    | GetLoad(want: nat, fixed: bool)
    | GetCopy(j: nat)
    | GetStore

  ghost predicate Init<T(!new)>(s: State<T>) {
    && RingSize(|s.buffer|) && IsWord(s.word)
    && s.putIndex == 0 && s.getIndex == 0
    && s.producer.PutIdle? && s.consumer.GetIdle?
    && s.produced == [] && s.consumed == []
  }

  /** How many of `want` bytes a put or get moves when `avail` can be moved. */
  function Amount(want: nat, avail: nat, fixed: bool): (n: nat)
    ensures n <= want && n <= avail
  {
    if want <= avail then want else if fixed then 0 else avail
  }

  ghost predicate NextStep<T(!new)>(s: State<T>, s': State<T>, step: Step<T>)
    requires RingSize(|s.buffer|) && IsWord(s.word)
  {
    PositionIsMod(0, |s.buffer|);
    match step
    case PutLoad(data, fixed) =>
      && s.producer.PutIdle? && |data| < s.word
      && var n := Amount(|data|, FreeSpace(s.word, |s.buffer|, s.putIndex, s.getIndex), fixed);
      s' == s.(producer := Putting(s.putIndex, data[..n], {}))
    case PutCopy(j) =>
      && s.producer.Putting? && j < |s.producer.data|
      && var p := Position(s.producer.put0 + j, |s.buffer|);
      && p < |s.buffer|
      && s' == s.(buffer := s.buffer[p := s.producer.data[j]],
                  producer := s.producer.(done := s.producer.done + {j}))
    case PutStore =>
      && s.producer.Putting?
      && (forall j :: 0 <= j < |s.producer.data| ==> j in s.producer.done)
      && s' == s.(putIndex := (s.producer.put0 + |s.producer.data|) % s.word, producer := PutIdle,
                  produced := s.produced + s.producer.data)
    case GetLoad(want, fixed) =>
      && s.consumer.GetIdle?
      && s' == s.(consumer := Getting(s.getIndex, Amount(want, Used(s.word, s.putIndex, s.getIndex), fixed), map[]))
    case GetCopy(j) =>
      && s.consumer.Getting? && j < s.consumer.n
      && var p := Position(s.consumer.get0 + j, |s.buffer|);
      && p < |s.buffer|
      && s' == s.(consumer := s.consumer.(got := s.consumer.got[j := s.buffer[p]]))
    case GetStore =>
      && s.consumer.Getting?
      && (forall j :: 0 <= j < s.consumer.n ==> j in s.consumer.got)
      && s' == s.(getIndex := (s.consumer.get0 + s.consumer.n) % s.word, consumer := GetIdle,
                  consumed := s.consumed + Copied(s.consumer))
  }

  ghost function Copied<T(!new)>(c: Consumer<T>): (out: seq<T>)
    requires c.Getting? && forall j :: 0 <= j < c.n ==> j in c.got
  {
    seq(c.n, j requires 0 <= j < c.n => c.got[j])
  }

  ghost predicate Next<T(!new)>(s: State<T>, s': State<T>) {
    RingSize(|s.buffer|) && IsWord(s.word) && exists step :: NextStep(s, s', step)
  }

  ghost predicate Run<T(!new)>(tr: seq<State<T>>) {
    && |tr| > 0 && Init(tr[0])
    && forall i :: 0 <= i < |tr| - 1 ==> Next(tr[i], tr[i + 1])
  }

  // ---- the invariant ----

  /** The published bytes not yet consumed are at their ring positions. */
  ghost predicate Stored<T(!new)>(buffer: seq<T>, produced: seq<T>, from: nat)
    requires RingSize(|buffer|)
  {
    forall k :: from <= k < |produced| ==> At(buffer, k) == produced[k]
  }

  ghost predicate ProducerInv<T(!new)>(s: State<T>)
    requires RingSize(|s.buffer|)
  {
    s.producer.Putting? ==>
      && s.producer.put0 == s.putIndex
      && |s.produced| + |s.producer.data| <= |s.consumed| + |s.buffer|
      && forall j :: j in s.producer.done ==>
           j < |s.producer.data| && At(s.buffer, |s.produced| + j) == s.producer.data[j]
  }

  ghost predicate ConsumerInv<T(!new)>(s: State<T>) {
    s.consumer.Getting? ==>
      && s.consumer.get0 == s.getIndex
      && |s.consumed| + s.consumer.n <= |s.produced|
      && forall j :: j in s.consumer.got ==>
           j < s.consumer.n && s.consumer.got[j] == s.produced[|s.consumed| + j]
  }

  ghost predicate Inv<T(!new)>(s: State<T>) {
    && RingSize(|s.buffer|) && IsWord(s.word)
    && s.putIndex == |s.produced| % s.word && s.getIndex == |s.consumed| % s.word
    && s.consumed <= s.produced
    && |s.produced| <= |s.consumed| + |s.buffer|
    && Stored(s.buffer, s.produced, |s.consumed|)
    && ProducerInv(s) && ConsumerInv(s)
  }

  lemma InitInv<T(!new)>(s: State<T>)
    requires Init(s)
    ensures Inv(s)
  {}

  /** The wrapped indices measure the true backlog, however often they wrapped. */
  lemma Backlog<T(!new)>(s: State<T>)
    requires RingSize(|s.buffer|) && IsWord(s.word)
    requires s.putIndex == |s.produced| % s.word && s.getIndex == |s.consumed| % s.word
    requires |s.consumed| <= |s.produced| <= |s.consumed| + |s.buffer|
    ensures Used(s.word, s.putIndex, s.getIndex) == |s.produced| - |s.consumed|
    ensures FreeSpace(s.word, |s.buffer|, s.putIndex, s.getIndex) == |s.consumed| + |s.buffer| - |s.produced|
  {
    PositionIsMod(0, |s.buffer|);
    ModSub(|s.produced|, |s.consumed|, s.word);
    FreeIsRest(s.word, |s.buffer|, s.putIndex, s.getIndex);
  }

  /** A producer working from a stale get index never writes a byte that the consumer
      may still read, nor one it wrote itself for this put. */
  lemma NoOverwrite<T(!new)>(s: State<T>, j: nat, k: nat)
    requires Inv(s) && s.producer.Putting? && j < |s.producer.data|
    requires |s.consumed| <= k < |s.produced| + |s.producer.data| && k != |s.produced| + j
    ensures Position(s.producer.put0 + j, |s.buffer|) != Position(k, |s.buffer|)
  {
    PositionWraps(s.word, |s.produced|, j, |s.buffer|);
    if k < |s.produced| + j {
      PositionDistinct(k, |s.produced| + j, |s.buffer|);
    } else {
      PositionDistinct(|s.produced| + j, k, |s.buffer|);
    }
  }

  lemma PutLoadInv<T(!new)>(s: State<T>, s': State<T>, data: seq<T>, fixed: bool)
    requires Inv(s) && NextStep(s, s', PutLoad(data, fixed))
    ensures Inv(s')
  {
    hide FreeSpace, Used, Position;
    Backlog(s);
  }

  lemma GetLoadInv<T(!new)>(s: State<T>, s': State<T>, want: nat, fixed: bool)
    requires Inv(s) && NextStep(s, s', GetLoad(want, fixed))
    ensures Inv(s')
  {
    hide FreeSpace, Used, Position;
    Backlog(s);
  }

  lemma SameConsumer<T(!new)>(s: State<T>, s': State<T>)
    requires ConsumerInv(s) && s' == s.(buffer := s'.buffer, producer := s'.producer)
    ensures ConsumerInv(s')
  {}

  lemma PutCopyInv<T(!new)>(s: State<T>, s': State<T>, j: nat)
    requires Inv(s) && NextStep(s, s', PutCopy(j))
    ensures Inv(s')
  {
    hide ConsumerInv, Position, RingSize;
    var size, p := |s.buffer|, Position(s.producer.put0 + j, |s.buffer|);
    PositionWraps(s.word, |s.produced|, j, size);
    assert ConsumerInv(s') by { SameConsumer(s, s'); }
    forall k: nat | |s.consumed| <= k < |s.produced| + |s.producer.data| && k != |s.produced| + j
      ensures At(s'.buffer, k) == At(s.buffer, k)
    {
      NoOverwrite(s, j, k);
      PositionIsMod(k, size);
      assert s'.buffer == s.buffer[p := s.producer.data[j]];
    }
    assert At(s'.buffer, |s.produced| + j) == s.producer.data[j];
  }

  lemma PutStoreInv<T(!new)>(s: State<T>, s': State<T>)
    requires Inv(s) && NextStep(s, s', PutStore)
    ensures Inv(s')
  {
    ModAdd(|s.produced|, |s.producer.data|, s.word);
    forall k | |s'.consumed| <= k < |s'.produced| ensures At(s'.buffer, k) == s'.produced[k] {
      if k >= |s.produced| {
        assert At(s.buffer, |s.produced| + (k - |s.produced|)) == s.producer.data[k - |s.produced|];
      }
    }
  }

  lemma GetCopyInv<T(!new)>(s: State<T>, s': State<T>, j: nat)
    requires Inv(s) && NextStep(s, s', GetCopy(j))
    ensures Inv(s')
  {
    PositionWraps(s.word, |s.consumed|, j, |s.buffer|);
    assert At(s.buffer, |s.consumed| + j) == s.produced[|s.consumed| + j];
    SameProducer(s, s');
    hide Stored, ProducerInv, Position;
  }

  lemma SameProducer<T(!new)>(s: State<T>, s': State<T>)
    requires RingSize(|s.buffer|) && ProducerInv(s)
    requires s' == s.(consumer := s'.consumer)
    ensures ProducerInv(s')
  {}

  lemma GetStoreInv<T(!new)>(s: State<T>, s': State<T>)
    requires Inv(s) && NextStep(s, s', GetStore)
    ensures Inv(s')
  {
    ModAdd(|s.consumed|, s.consumer.n, s.word);
  }

  /** The ring as a bounded queue: what was published and not yet taken. */
  ghost function Queue<T(!new)>(s: State<T>): seq<T>
    requires |s.consumed| <= |s.produced|
  {
    s.produced[|s.consumed|..]
  }

  /** Every step keeps the invariant; split into load, copies and store, a put and a get still
      act on the queue as one step, at their store. */
  lemma StepInv<T(!new)>(s: State<T>, s': State<T>, step: Step<T>)
    requires Inv(s) && NextStep(s, s', step)
    ensures Inv(s')
    ensures s.produced <= s'.produced && s.consumed <= s'.consumed
    ensures step.PutStore? ==> Queue(s') == Queue(s) + s.producer.data
    ensures step.GetStore? ==> Queue(s) == Copied(s.consumer) + Queue(s')
    ensures !step.PutStore? && !step.GetStore? ==> Queue(s') == Queue(s)
  {
    hide Stored, ProducerInv, ConsumerInv;
    match step
    case PutLoad(data, fixed) => PutLoadInv(s, s', data, fixed);
    case PutCopy(j) => PutCopyInv(s, s', j);
    case PutStore => PutStoreInv(s, s');
    case GetLoad(want, fixed) => GetLoadInv(s, s', want, fixed);
    case GetCopy(j) => GetCopyInv(s, s', j);
    case GetStore =>
      GetStoreInv(s, s');
      TakenFromFront(s);
  }

  lemma TakenFromFront<T(!new)>(s: State<T>)
    requires Inv(s) && s.consumer.Getting? && forall j :: 0 <= j < s.consumer.n ==> j in s.consumer.got
    ensures |s.consumed| + s.consumer.n <= |s.produced|
    ensures Queue(s) == Copied(s.consumer) + s.produced[|s.consumed| + s.consumer.n..]
  {
    hide Stored, ProducerInv;
  }

  /** How much a put or a get will move is settled by what it loads, and is what the queue
      has room for or holds at that moment. */
  lemma LoadsSettle<T(!new)>(s: State<T>, s': State<T>, step: Step<T>)
    requires Inv(s) && NextStep(s, s', step)
    ensures step.PutLoad? ==>
      s'.producer.data == step.data[..Amount(|step.data|, |s.buffer| - |Queue(s)|, step.fixed)]
    ensures step.GetLoad? ==> s'.consumer.n == Amount(step.want, |Queue(s)|, step.fixed)
  {
    Backlog(s);
    hide FreeSpace, Used, Position, Stored, ProducerInv, ConsumerInv;
  }

  /** The consumer's side resets both indices while a put is between its load and its store.
      The put's store then brings the old put index back: the queue seems to hold everything
      that was ever put, up to wrapping, and holds just the new entries only if all that was
      put before makes whole rounds of the index. */
  lemma ResetUnderPut<T(!new)>(s: State<T>, s': State<T>)
    requires Inv(s) && s.producer.Putting? && NextStep(s.(putIndex := 0, getIndex := 0), s', PutStore)
    ensures Used(s.word, s'.putIndex, s'.getIndex) == (|s.produced| + |s.producer.data|) % s.word
    ensures Used(s.word, s'.putIndex, s'.getIndex) == |s.producer.data| <==> |s.produced| % s.word == 0
  {
    PositionIsMod(0, |s.buffer|);
    var p, n := |s.produced| % s.word, |s.producer.data|;
    ModAdd(|s.produced|, n, s.word);
    if p + n < s.word { ModSmall(p + n, s.word); } else { ModLapDown(p + n, s.word); ModSmall(p + n - s.word, s.word); }
    ModSmall((p + n) % s.word, s.word);
  }

  lemma {:induction false} RunInv<T(!new)>(tr: seq<State<T>>, i: nat)
    requires Run(tr) && i < |tr|
    ensures Inv(tr[i])
    decreases i
  {
    if i == 0 {
      InitInv(tr[0]);
    } else {
      RunInv(tr, i - 1);
      assert Next(tr[i - 1], tr[i - 1 + 1]);
      var step :| NextStep(tr[i - 1], tr[i], step);
      StepInv(tr[i - 1], tr[i], step);
    }
  }

  /** In every interleaving, after any number of wraps past 2^32, the bytes consumed are
      a prefix of the bytes produced, and at most a ring's worth is outstanding. */
  lemma {:induction false} ConsumedIsPrefix<T(!new)>(tr: seq<State<T>>, i: nat)
    requires Run(tr) && i < |tr|
    ensures tr[i].consumed <= tr[i].produced
    ensures |tr[i].produced| - |tr[i].consumed| <= |tr[i].buffer|
  {
    RunInv(tr, i);
  }

  /** What the class reads as its contents is what was produced and not consumed. */
  lemma ContentsAreOutstanding<T(!new)>(s: State<T>)
    requires Inv(s)
    ensures Used(s.word, s.putIndex, s.getIndex) <= |s.buffer|
    ensures RingContents(s.word, s.buffer, s.putIndex, s.getIndex) == s.produced[|s.consumed|..]
  {
    Backlog(s);
    var l, r := RingContents(s.word, s.buffer, s.putIndex, s.getIndex), s.produced[|s.consumed|..];
    forall i | 0 <= i < |l| ensures l[i] == r[i] {
      PositionWraps(s.word, |s.consumed|, i, |s.buffer|);
      assert At(s.buffer, |s.consumed| + i) == s.produced[|s.consumed| + i];
    }
  }
}
