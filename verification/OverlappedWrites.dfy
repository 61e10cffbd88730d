/** The overlapped-write ring of pcie/DmaChannelAsync.cpp: 32 DMA buffers, each with at most
    one write in flight, filled from the byte queue in turn. */
module OverlappedWrites {
  import opened Basics
  import opened Modular
  import opened RingIndex
  import opened ByteRing

  const MAX_OVERLAPPED: nat := 32

  /** What GetOverlappedResult or WriteFile answers. */
  datatype Result = Done(n: nat) | Pending | Failed

  /** Bytes of the writes in flight among the first k. */
  function InFlight(pending: seq<bool>, chunk: seq<seq<Byte>>, k: nat): nat
    requires k <= |pending| == |chunk|
  {
    if k == 0 then 0 else InFlight(pending, chunk, k - 1) + if pending[k - 1] then |chunk[k - 1]| else 0
  }

  lemma {:induction false} InFlightUpdate(pending: seq<bool>, chunk: seq<seq<Byte>>, i: nat, b: bool, c: seq<Byte>,
                                          k: nat)
    requires i < |pending| == |chunk| && k <= |pending|
    ensures InFlight(pending[i := b], chunk[i := c], k) + (if i < k && pending[i] then |chunk[i]| else 0)
         == InFlight(pending, chunk, k) + (if i < k && b then |c| else 0)
    decreases k
  {
    if k > 0 { InFlightUpdate(pending, chunk, i, b, c, k - 1); }
  }

  /** The first pending write from k on whose result is an error. */
  function FirstFailed(pending: seq<bool>, answers: seq<Result>, k: nat): (m: nat)
    requires k <= |pending| == |answers|
    ensures k <= m <= |pending| && (m < |pending| ==> pending[m] && answers[m].Failed?)
    ensures forall i :: k <= i < m ==> !(pending[i] && answers[i].Failed?)
    decreases |pending| - k
  {
    if k == |pending| || (pending[k] && answers[k].Failed?) then k else FirstFailed(pending, answers, k + 1)
  }

  /** The answers for the pending ones among the first k buffers, in order. */
  function Asked(pending: seq<bool>, answers: seq<Result>, k: nat): seq<Result>
    requires k <= |pending| == |answers|
  {
    if k == 0 then [] else Asked(pending, answers, k - 1) + if pending[k - 1] then [answers[k - 1]] else []
  }

  /** The bytes that the device said it has written. */
  function SumDone(answers: seq<Result>): nat {
    if answers == [] then 0
    else
      var last := answers[|answers| - 1];
      SumDone(answers[..|answers| - 1]) + if last.Done? then last.n else 0
  }

  lemma {:induction false} SumDoneConcat(a: seq<Result>, b: seq<Result>)
    ensures SumDone(a + b) == SumDone(a) + SumDone(b)
  {
    if b == [] {
      assert a + b == a;
    } else {
      SumDoneConcat(a, b[..|b| - 1]);
      assert (a + b)[..|a + b| - 1] == a + b[..|b| - 1];
    }
  }

  lemma SumDoneOne(a: seq<Result>, last: Result)
    ensures SumDone(a + [last]) == SumDone(a) + if last.Done? then last.n else 0
  {
    assert (a + [last])[..|a|] == a;
  }

  /** How many answers a sweep asks for: up to the first failure, and that one. */
  function SweepEnd(pending: seq<bool>, answers: seq<Result>): (k: nat)
    requires |pending| == |answers|
    ensures k <= |pending|
  {
    var m := FirstFailed(pending, answers, 0);
    if m < |pending| then m + 1 else m
  }

  /** The flags after a sweep of the first k buffers: a write that is done frees its buffer. */
  function SweptTo(pending: seq<bool>, answers: seq<Result>, k: nat): (s: seq<bool>)
    requires k <= |pending| == |answers|
    ensures |s| == |pending|
  {
    seq(|pending|, i requires 0 <= i < |pending| => pending[i] && (i >= k || answers[i].Pending?))
  }

  /** The flags after the sweep, which stops at the first failure. */
  function Swept(pending: seq<bool>, answers: seq<Result>): (s: seq<bool>)
    requires |pending| == |answers|
    ensures |s| == |pending|
  {
    SweptTo(pending, answers, FirstFailed(pending, answers, 0))
  }

  lemma SweepStep(pending: seq<bool>, answers: seq<Result>, i: nat)
    requires i < |pending| == |answers|
    ensures SweptTo(pending, answers, i)[i] == pending[i]
    ensures SweptTo(pending, answers, i + 1)
         == if pending[i] && !answers[i].Pending? then SweptTo(pending, answers, i)[i := false]
            else SweptTo(pending, answers, i)
    ensures Asked(pending, answers, i + 1) == Asked(pending, answers, i) + if pending[i] then [answers[i]] else []
    ensures FirstFailed(pending, answers, i)
         == if pending[i] && answers[i].Failed? then i else FirstFailed(pending, answers, i + 1)
  {}

  lemma SweepStarts(pending: seq<bool>, answers: seq<Result>)
    requires |pending| == |answers|
    ensures SweptTo(pending, answers, 0) == pending && Asked(pending, answers, 0) == []
    ensures FirstFailed(pending, answers, |pending|) == |pending|
  {}

  /** The writes of the buffers flagged. */
  function Flagged(left: map<nat, seq<Byte>>, flags: seq<bool>): map<nat, seq<Byte>> {
    map i | i in left && i < |flags| && flags[i] :: left[i]
  }

  lemma FlaggedIs(all: map<nat, seq<Byte>>, left: map<nat, seq<Byte>>, flags: seq<bool>)
    requires forall i :: i in left <==> 0 <= i < |flags| && flags[i]
    requires forall i :: i in left ==> i in all && left[i] == all[i]
    ensures left == Flagged(all, flags)
  {}

  /** How many steps from `from` to j around the ring. */
  function StepsTo(from: nat, j: nat): nat
    requires from < MAX_OVERLAPPED && j < MAX_OVERLAPPED
  {
    if j >= from then j - from else j + MAX_OVERLAPPED - from
  }

  /** Buffer k is free, and those before it, from `from` on around the ring, are not. */
  predicate FirstFreeFrom(pending: seq<bool>, from: nat, k: nat)
    requires |pending| == MAX_OVERLAPPED && from < MAX_OVERLAPPED
  {
    && k < MAX_OVERLAPPED && !pending[k]
    && forall j :: 0 <= j < MAX_OVERLAPPED && StepsTo(from, j) < StepsTo(from, k) ==> pending[j]
  }

  /** The search has come from `from` to `at`, not past `free`, over buffers in use. */
  ghost predicate SearchedTo(pending: seq<bool>, from: nat, at: nat, free: nat)
    requires |pending| == MAX_OVERLAPPED && from < MAX_OVERLAPPED && at < MAX_OVERLAPPED && free < MAX_OVERLAPPED
  {
    && StepsTo(from, at) <= StepsTo(from, free)
    && forall j :: 0 <= j < MAX_OVERLAPPED && StepsTo(from, j) < StepsTo(from, at) ==> pending[j]
  }

  lemma SearchStarts(from: nat)
    requires from < MAX_OVERLAPPED
    ensures StepsTo(from, from) == 0 && forall j: nat :: j < MAX_OVERLAPPED ==> StepsTo(from, j) >= 0
  {}

  lemma SearchOn(pending: seq<bool>, from: nat, at: nat, free: nat)
    requires |pending| == MAX_OVERLAPPED && from < MAX_OVERLAPPED && at < MAX_OVERLAPPED && free < MAX_OVERLAPPED
    requires SearchedTo(pending, from, at, free) && pending[at] && !pending[free]
    ensures (at + 1) % MAX_OVERLAPPED < MAX_OVERLAPPED
    ensures SearchedTo(pending, from, (at + 1) % MAX_OVERLAPPED, free)
    ensures StepsTo((at + 1) % MAX_OVERLAPPED, free) < StepsTo(at, free)
  {
    ModLap(at, 1, MAX_OVERLAPPED);
  }

  /** What the sender keeps of its writes: flags, current buffer, writes in flight, answers. */
  datatype Books = Books(pending: seq<bool>, current: nat, left: map<nat, seq<Byte>>, answered: seq<Result>)

  /** WriteFile on the current buffer, given chunk c: if the write goes on, its buffer is in use and
      the next one current; if it is done at once or fails, the buffer stays free and current. */
  function Answered(b: Books, c: seq<Byte>, answer: Result): Books
    requires b.current < |b.pending|
  {
    var all := b.answered + [answer];
    if answer.Pending? then
      Books(b.pending[b.current := true], (b.current + 1) % MAX_OVERLAPPED, b.left[b.current := c], all)
    else b.(answered := all)
  }

  /** Bytes taken are counted, in flight, or lost with a refused write. */
  ghost predicate Accounted(taken: seq<Byte>, issued: seq<seq<Byte>>, sent: nat, counted: nat, whole: bool,
                            pending: seq<bool>, chunk: seq<seq<Byte>>, lost: nat)
    requires |pending| == |chunk| == MAX_OVERLAPPED
  {
    && taken == Concat(issued) && sent == counted % WORD64
    && (whole ==> |taken| == counted + InFlight(pending, chunk, MAX_OVERLAPPED) + lost)
  }

  lemma AccountDone(taken: seq<Byte>, issued: seq<seq<Byte>>, sent: nat, counted: nat, whole: bool,
                    pending: seq<bool>, chunk: seq<seq<Byte>>, lost: nat, i: nat, n: nat)
    requires |pending| == |chunk| == MAX_OVERLAPPED && i < MAX_OVERLAPPED && pending[i]
    requires Accounted(taken, issued, sent, counted, whole, pending, chunk, lost)
    ensures Accounted(taken, issued, (sent + n) % WORD64, counted + n, whole && n == |chunk[i]|, pending[i := false],
                      chunk, lost)
  {
    ModAdd(counted, n, WORD64);
    InFlightUpdate(pending, chunk, i, false, chunk[i], MAX_OVERLAPPED);
    assert chunk[i := chunk[i]] == chunk;
  }

  lemma AccountStarted(taken: seq<Byte>, issued: seq<seq<Byte>>, sent: nat, counted: nat, whole: bool,
                       pending: seq<bool>, chunk: seq<seq<Byte>>, lost: nat, i: nat, c: seq<Byte>)
    requires |pending| == |chunk| == MAX_OVERLAPPED && i < MAX_OVERLAPPED && !pending[i]
    requires Accounted(taken, issued, sent, counted, whole, pending, chunk, lost)
    ensures Accounted(taken + c, issued + [c], sent, counted, whole, pending[i := true], chunk[i := c], lost)
  {
    ConcatOne(issued, c);
    InFlightUpdate(pending, chunk, i, true, c, MAX_OVERLAPPED);
  }

  lemma AccountAtOnce(taken: seq<Byte>, issued: seq<seq<Byte>>, sent: nat, counted: nat, whole: bool,
                      pending: seq<bool>, chunk: seq<seq<Byte>>, lost: nat, c: seq<Byte>, m: nat)
    requires |pending| == |chunk| == MAX_OVERLAPPED
    requires Accounted(taken, issued, sent, counted, whole, pending, chunk, lost)
    ensures Accounted(taken + c, issued + [c], (sent + m) % WORD64, counted + m, whole && m == |c|, pending, chunk,
                      lost)
  {
    hide InFlight, Concat;
    ConcatOne(issued, c);
    ModAdd(counted, m, WORD64);
  }

  lemma AccountRefused(taken: seq<Byte>, issued: seq<seq<Byte>>, sent: nat, counted: nat, whole: bool,
                       pending: seq<bool>, chunk: seq<seq<Byte>>, lost: nat, c: seq<Byte>)
    requires |pending| == |chunk| == MAX_OVERLAPPED
    requires Accounted(taken, issued, sent, counted, whole, pending, chunk, lost)
    ensures Accounted(taken + c, issued + [c], sent, counted, whole, pending, chunk, lost + |c|)
  {
    hide InFlight, Concat;
    ConcatOne(issued, c);
  }

  /** The buffers flagged are those of the writes that the device was left with, and what is
      counted is what it said it has written. */
  ghost predicate Recorded(pending: seq<bool>, chunk: seq<seq<Byte>>, left: map<nat, seq<Byte>>, counted: nat,
                           answered: seq<Result>)
    requires |pending| == |chunk| == MAX_OVERLAPPED
  {
    && (forall i :: i in left <==> 0 <= i < MAX_OVERLAPPED && pending[i])
    && (forall i :: i in left ==> left[i] == chunk[i])
    && counted == SumDone(answered)
  }

  lemma RecordDone(pending: seq<bool>, chunk: seq<seq<Byte>>, left: map<nat, seq<Byte>>, counted: nat,
                   answered: seq<Result>, i: nat, n: nat)
    requires |pending| == |chunk| == MAX_OVERLAPPED && i < MAX_OVERLAPPED && pending[i]
    requires Recorded(pending, chunk, left, counted, answered)
    ensures Recorded(pending[i := false], chunk, left - {i}, counted + n, answered + [Done(n)])
  {
    SumDoneOne(answered, Done(n));
    hide SumDone;
  }

  lemma RecordStarted(pending: seq<bool>, chunk: seq<seq<Byte>>, left: map<nat, seq<Byte>>, counted: nat,
                      answered: seq<Result>, i: nat, c: seq<Byte>)
    requires |pending| == |chunk| == MAX_OVERLAPPED && i < MAX_OVERLAPPED && !pending[i]
    requires Recorded(pending, chunk, left, counted, answered)
    ensures Recorded(pending[i := true], chunk[i := c], left[i := c], counted, answered + [Pending])
  {
    SumDoneOne(answered, Pending);
    hide SumDone;
  }

  lemma RecordAnswer(pending: seq<bool>, chunk: seq<seq<Byte>>, left: map<nat, seq<Byte>>, counted: nat,
                     answered: seq<Result>, answer: Result)
    requires |pending| == |chunk| == MAX_OVERLAPPED && Recorded(pending, chunk, left, counted, answered)
    ensures Recorded(pending, chunk, left, counted + if answer.Done? then answer.n else 0, answered + [answer])
  {
    SumDoneOne(answered, answer);
    hide SumDone;
  }

  lemma LeftIsFlagged(pending: seq<bool>, chunk: seq<seq<Byte>>, left: map<nat, seq<Byte>>, counted: nat,
                      answered: seq<Result>)
    requires |pending| == |chunk| == MAX_OVERLAPPED && Recorded(pending, chunk, left, counted, answered)
    ensures forall i :: i in left <==> 0 <= i < MAX_OVERLAPPED && pending[i]
    ensures forall i :: i in left ==> left[i] == chunk[i]
    ensures counted == SumDone(answered)
  {}

  lemma FreeIsFree(pending: seq<bool>, from: nat, k: nat)
    requires |pending| == MAX_OVERLAPPED && from < MAX_OVERLAPPED && FirstFreeFrom(pending, from, k)
    ensures k < MAX_OVERLAPPED && !pending[k]
  {}

  /** From b, buffer k was the first free one; a chunk, if there was one, was written with it. */
  ghost predicate WroteFrom(b: Books, k: nat, c: seq<Byte>, answer: Result, b': Books) {
    && |b.pending| == MAX_OVERLAPPED && b.current < MAX_OVERLAPPED && FirstFreeFrom(b.pending, b.current, k)
    && b' == if c == [] then b.(current := k) else Answered(b.(current := k), c, answer)
  }

  /** What a sweep leaves. */
  function AfterSweep(b: Books, answers: seq<Result>): Books
    requires |b.pending| == |answers|
  {
    Books(Swept(b.pending, answers), b.current, Flagged(b.left, Swept(b.pending, answers)),
          b.answered + Asked(b.pending, answers, SweepEnd(b.pending, answers)))
  }

  /** As much of the queue as a buffer holds. */
  function Chunk(waiting: seq<Byte>, room: nat): seq<Byte> {
    waiting[..if room <= |waiting| then room else |waiting|]
  }

  /** The sender's books, the bytes in its queue, and the chunks given to WriteFile so far. */
  datatype Sender = Sender(books: Books, waiting: seq<Byte>, issued: seq<seq<Byte>>)

  /** Bytes are offered to a queue of the size given: all are queued or none. */
  function Offered(s: Sender, size: nat, data: seq<Byte>): Sender {
    if |s.waiting| + |data| <= size then s.(waiting := s.waiting + data) else s
  }

  /** A round of the sender: a sweep and, unless that finds an error or leaves no buffer free, a
      write of the next chunk with the first free buffer. It is the last one if either fails. */
  ghost predicate Rounded(s: Sender, room: nat, answers: seq<Result>, answer: Result, s': Sender, again: bool) {
    && |s.books.pending| == |answers| == MAX_OVERLAPPED
    && var b, c := AfterSweep(s.books, answers), Chunk(s.waiting, room);
      if FirstFailed(s.books.pending, answers, 0) < MAX_OVERLAPPED then s' == s.(books := b) && !again
      else if forall i :: 0 <= i < MAX_OVERLAPPED ==> b.pending[i] then s' == s.(books := b) && again
      else
        && (exists k :: WroteFrom(b, k, c, answer, s'.books)) && s'.waiting == s.waiting[|c|..]
        && s'.issued == s.issued + (if c == [] then [] else [c]) && again == (c == [] || !answer.Failed?)
  }

  /** The rounds of SendData, one after the other, from the first state on to the last; all but
      the last have gone on, and the last one has if `again`. */
  ghost predicate Rounds(states: seq<Sender>, size: nat, room: nat, rounds: seq<(seq<Byte>, seq<Result>, Result)>,
                         again: bool)
  {
    && 0 < |states| <= |rounds| + 1
    && forall r :: 0 <= r < |states| - 1 ==>
      Rounded(Offered(states[r], size, rounds[r].0), room, rounds[r].1, rounds[r].2, states[r + 1],
              r < |states| - 2 || again)
  }

  lemma OneMoreRound(states: seq<Sender>, size: nat, room: nat, rounds: seq<(seq<Byte>, seq<Result>, Result)>,
                     s: Sender, again: bool)
    requires Rounds(states, size, room, rounds, true) && |states| <= |rounds|
    requires var last := |states| - 1;
      Rounded(Offered(states[last], size, rounds[last].0), room, rounds[last].1, rounds[last].2, s, again)
    ensures Rounds(states + [s], size, room, rounds, again)
  {
    hide Rounded, Offered;
  }

  lemma NoRounds(s: Sender, size: nat, room: nat, rounds: seq<(seq<Byte>, seq<Result>, Result)>)
    ensures Rounds([s], size, room, rounds, true)
  {}

  class DmaChannelAsync {
    const sendQueue: SPSCMemoryQueue
    const dmaSize: nat
    const dmaBuffers: seq<array<Byte>>
    const pendingIO: array<bool>
    var currentOverlapped: nat
    var sendDataCount: nat
    ghost var chunk: seq<seq<Byte>>    // per buffer, what its last write was given
    ghost var issued: seq<seq<Byte>>   // the chunks given to WriteFile, in order
    ghost var taken: seq<Byte>         // the bytes taken out of the queue
    ghost var counted: nat
    ghost var answered: seq<Result>      // all that the device has answered, in order
    ghost var left: map<nat, seq<Byte>>  // the writes it was left with: buffer and chunk
    ghost var lost: nat                // bytes of a chunk that WriteFile refused
    ghost var whole: bool              // every write finished so far wrote its whole chunk

    constructor (queue: SPSCMemoryQueue, size: nat, buffers: seq<array<Byte>>)
      requires queue.Valid() && |buffers| == MAX_OVERLAPPED
      requires forall i :: 0 <= i < |buffers| ==> buffers[i].Length == size && buffers[i] != queue.buffer
      requires forall i, j :: 0 <= i < j < |buffers| ==> buffers[i] != buffers[j]
      ensures Valid() && sendQueue == queue && dmaBuffers == buffers && fresh(pendingIO)
      ensures taken == [] && issued == [] && counted == 0 && lost == 0 && whole && answered == [] && left == map[]
      ensures currentOverlapped == 0 && sendDataCount == 0
    {
      sendQueue, dmaSize, dmaBuffers := queue, size, buffers;
      currentOverlapped, sendDataCount := 0, 0;
      pendingIO := new bool[MAX_OVERLAPPED](_ => false);
      chunk, issued, taken := seq(MAX_OVERLAPPED, _ => []), [], [];
      counted, lost, whole, answered, left := 0, 0, true, [], map[];
      new;
      NothingInFlight(pendingIO[..], chunk, MAX_OVERLAPPED);
      hide InFlight;
    }

    ghost predicate Sized() {
      |dmaBuffers| == MAX_OVERLAPPED && forall i :: 0 <= i < MAX_OVERLAPPED ==> dmaBuffers[i].Length == dmaSize
    }

    ghost predicate BuffersValid()
      reads this`chunk, sendQueue`buffer
    {
      && Sized() && |chunk| == MAX_OVERLAPPED && pendingIO.Length == MAX_OVERLAPPED
      && (forall i :: 0 <= i < MAX_OVERLAPPED ==> dmaBuffers[i] != sendQueue.buffer)
      && forall i, j :: 0 <= i < j < MAX_OVERLAPPED ==> dmaBuffers[i] != dmaBuffers[j]
    }

    /** A buffer with a write in flight still holds the bytes that the write was given. */
    ghost predicate Untouched(pending: seq<bool>, chunk: seq<seq<Byte>>)
      requires Sized() && |pending| == |chunk| == MAX_OVERLAPPED
      reads dmaBuffers
    {
      forall i :: 0 <= i < MAX_OVERLAPPED && pending[i] ==>
        |chunk[i]| <= dmaSize && dmaBuffers[i][..|chunk[i]|] == chunk[i]
    }

    lemma FewerUntouched(pending: seq<bool>, chunk: seq<seq<Byte>>, i: nat)
      requires Sized() && |pending| == |chunk| == MAX_OVERLAPPED && i < MAX_OVERLAPPED && Untouched(pending, chunk)
      ensures Untouched(pending[i := false], chunk)
    {}

    lemma OneMoreUntouched(pending: seq<bool>, chunk: seq<seq<Byte>>, i: nat, c: seq<Byte>)
      requires Sized() && |pending| == |chunk| == MAX_OVERLAPPED && i < MAX_OVERLAPPED && Untouched(pending, chunk)
      requires |c| <= dmaSize && dmaBuffers[i][..|c|] == c
      ensures Untouched(pending[i := true], chunk[i := c])
    {}

    ghost predicate Valid()
      reads this, sendQueue, sendQueue.buffer, pendingIO, dmaBuffers
    {
      && sendQueue.Valid() && currentOverlapped < MAX_OVERLAPPED
      && BuffersValid() && Untouched(pendingIO[..], chunk)
      && Accounted(taken, issued, sendDataCount, counted, whole, pendingIO[..], chunk, lost)
      && Recorded(pendingIO[..], chunk, left, counted, answered)
    }

    /** The completion sweep; `answers` are what GetOverlappedResult says for each buffer. It
        gets as far as the first failed one: exactly the finished writes before that are counted
        and their buffers freed. */
    method Sweep(answers: seq<Result>) returns (hasError: bool)
      requires Valid() && |answers| == MAX_OVERLAPPED
      modifies this`sendDataCount, this`counted, this`whole, this`answered, this`left, pendingIO
      ensures Valid() && issued == old(issued) && taken == old(taken) && lost == old(lost)
      ensures hasError == (FirstFailed(old(pendingIO[..]), answers, 0) < MAX_OVERLAPPED)
      ensures pendingIO[..] == Swept(old(pendingIO[..]), answers)
      ensures left == Flagged(old(left), Swept(old(pendingIO[..]), answers))
      ensures answered
           == old(answered) + Asked(old(pendingIO[..]), answers, SweepEnd(old(pendingIO[..]), answers))
    {
      hide Untouched, Accounted, Recorded, SweptTo, Asked, FirstFailed, Flagged;
      ghost var was, before := pendingIO[..], left;
      SweepStarts(was, answers);
      for i := 0 to MAX_OVERLAPPED
        invariant Valid() && FirstFailed(was, answers, 0) == FirstFailed(was, answers, i)
        invariant pendingIO[..] == SweptTo(was, answers, i) && answered == old(answered) + Asked(was, answers, i)
        invariant forall j :: j in left ==> j in before && left[j] == before[j]
      {
        SweepStep(was, answers, i);
        assert pendingIO[i] == pendingIO[..][i];
        if pendingIO[i] {
          match answers[i]
          case Done(n) => Complete(i, n);
          case Pending => NotDone(Pending);
          case Failed =>
            NotDone(Failed);
            LeftIsFlagged(pendingIO[..], chunk, left, counted, answered);
            FlaggedIs(before, left, pendingIO[..]);
            return true;
        }
      }
      LeftIsFlagged(pendingIO[..], chunk, left, counted, answered);
      FlaggedIs(before, left, pendingIO[..]);
      hasError := false;
    }

    /** The device answers something else than done. */
    ghost method NotDone(answer: Result)
      requires Valid() && !answer.Done?
      modifies this`answered
      ensures Valid() && answered == old(answered) + [answer]
    {
      hide Untouched, Accounted, Recorded;
      RecordAnswer(pendingIO[..], chunk, left, counted, answered, answer);
      answered := answered + [answer];
    }

    /** One finished write: its bytes are counted and its buffer is free. */
    method Complete(i: nat, n: nat)
      requires Valid() && i < MAX_OVERLAPPED && pendingIO[i]
      modifies this`sendDataCount, this`counted, this`whole, this`answered, this`left, pendingIO
      ensures Valid() && pendingIO[..] == old(pendingIO[..])[i := false]
      ensures counted == old(counted) + n && sendDataCount == (old(sendDataCount) + n) % WORD64
      ensures whole == (old(whole) && n == |chunk[i]|)
      ensures answered == old(answered) + [Done(n)] && left == old(left) - {i}
    {
      hide Untouched, Accounted, Recorded;
      AccountDone(taken, issued, sendDataCount, counted, whole, pendingIO[..], chunk, lost, i, n);
      RecordDone(pendingIO[..], chunk, left, counted, answered, i, n);
      FewerUntouched(pendingIO[..], chunk, i);
      answered, left := answered + [Done(n)], left - {i};
      sendDataCount := (sendDataCount + n) % WORD64;
      counted := counted + n;
      whole := whole && n == |chunk[i]|;
      pendingIO[i] := false;
      assert pendingIO[..] == old(pendingIO[..])[i := false];
    }

    /** The search for a free buffer: the first one from the current one around the ring. */
    method FindFree(ghost free: nat)
      requires Valid() && free < MAX_OVERLAPPED && !pendingIO[free]
      modifies this`currentOverlapped
      ensures Valid() && FirstFreeFrom(pendingIO[..], old(currentOverlapped), currentOverlapped)
    {
      hide Untouched, Accounted, Recorded, StepsTo;
      ghost var from := currentOverlapped;
      SearchStarts(from);
      while pendingIO[currentOverlapped]
        invariant Valid() && SearchedTo(pendingIO[..], from, currentOverlapped, free)
        decreases StepsTo(currentOverlapped, free)
      {
        SearchOn(pendingIO[..], from, currentOverlapped, free);
        currentOverlapped := (currentOverlapped + 1) % MAX_OVERLAPPED;
      }
    }

    /** The next chunk: as much of the queue as a buffer holds. */
    ghost function NextChunk(): seq<Byte>
      requires sendQueue.Valid()
      reads this, sendQueue, sendQueue.buffer
    {
      Chunk(sendQueue.Contents(), dmaSize)
    }

    ghost function Now(): Sender
      requires sendQueue.Valid()
      reads this, pendingIO, sendQueue, sendQueue.buffer
    {
      Sender(Kept(), sendQueue.Contents(), issued)
    }

    ghost function Kept(): Books
      reads this, pendingIO
    {
      Books(pendingIO[..], currentOverlapped, left, answered)
    }

    /** Fills the current buffer, which is free, and gives it to WriteFile. */
    method IssueWrite(answer: Result) returns (again: bool)
      requires Valid() && !pendingIO[currentOverlapped]
      modifies this, sendQueue`getIndex, pendingIO, dmaBuffers[currentOverlapped]
      ensures Valid() && taken + sendQueue.Contents() == old(taken + sendQueue.Contents())
      ensures sendQueue.Contents() == old(sendQueue.Contents()[|NextChunk()|..])
      ensures issued == old(issued) + if old(NextChunk()) == [] then [] else [old(NextChunk())]
      ensures again == (old(NextChunk()) == [] || !answer.Failed?)
      ensures lost == old(lost) + if again then 0 else |old(NextChunk())|
      ensures Kept() == if old(NextChunk()) == [] then old(Kept()) else Answered(old(Kept()), old(NextChunk()), answer)
      ensures old(NextChunk()) != [] ==>
        && pendingIO[old(currentOverlapped)] == answer.Pending? == (old(currentOverlapped) in left)
        && (answer.Pending? ==> left[old(currentOverlapped)] == old(NextChunk()))
        && counted == old(counted) + if answer.Done? then answer.n else 0
      ensures forall i :: i in old(left) ==> i < MAX_OVERLAPPED && dmaBuffers[i][..] == old(dmaBuffers[i][..])
    {
      hide Untouched, Accounted, Recorded;
      LeftIsFlagged(pendingIO[..], chunk, left, counted, answered);
      ghost var q, c, before := sendQueue.Contents(), NextChunk(), taken;
      forall i | i in left ensures i < MAX_OVERLAPPED && dmaBuffers[i] != dmaBuffers[currentOverlapped] {}
      var n := Fill();
      assert q == c + sendQueue.Contents() && (before + c) + sendQueue.Contents() == before + q;
      if n == 0 { return true; }
      again := Write(c, answer);
    }

    /** Takes bytes from the queue into the current buffer, which no write is using. */
    method Fill() returns (n: nat)
      requires Valid() && !pendingIO[currentOverlapped]
      modifies sendQueue`getIndex, dmaBuffers[currentOverlapped]
      ensures Valid() && n == |old(NextChunk())| <= dmaSize && dmaBuffers[currentOverlapped][..n] == old(NextChunk())
      ensures sendQueue.Contents() == old(sendQueue.Contents())[n..]
    {
      hide Accounted, Recorded;
      var b := dmaBuffers[currentOverlapped];
      n := sendQueue.Get(b, dmaSize);
      forall i | 0 <= i < MAX_OVERLAPPED && pendingIO[i]
        ensures |chunk[i]| <= dmaSize && dmaBuffers[i][..|chunk[i]|] == chunk[i]
      {
        assert dmaBuffers[i] != b;
      }
    }

    /** WriteFile on the current buffer, which holds the chunk c. */
    method Write(ghost c: seq<Byte>, answer: Result) returns (again: bool)
      requires Valid() && !pendingIO[currentOverlapped]
      requires |c| <= dmaSize && dmaBuffers[currentOverlapped][..|c|] == c
      modifies this, pendingIO
      ensures Valid() && taken == old(taken) + c && issued == old(issued) + [c]
      ensures again == !answer.Failed? && lost == old(lost) + if again then 0 else |c|
      ensures Kept() == Answered(old(Kept()), c, answer)
      ensures counted == old(counted) + if answer.Done? then answer.n else 0
    {
      hide Untouched, Recorded, Accounted;
      again := true;
      match answer
      case Pending => Started(c);
      case Done(m) => Finished(c, m);
      case Failed => Refused(c); again := false;
    }

    method Refused(ghost c: seq<Byte>)
      requires Valid()
      modifies this`taken, this`issued, this`answered, this`lost
      ensures Valid() && taken == old(taken) + c && issued == old(issued) + [c]
      ensures answered == old(answered) + [Failed] && lost == old(lost) + |c|
    {
      hide Untouched, Accounted, Recorded;
      AccountRefused(taken, issued, sendDataCount, counted, whole, pendingIO[..], chunk, lost, c);
      RecordAnswer(pendingIO[..], chunk, left, counted, answered, Failed);
      taken, issued, answered := taken + c, issued + [c], answered + [Failed];
      lost := lost + |c|;
    }

    /** The write goes on; its buffer is in use until a sweep finds it done. */
    method Started(ghost c: seq<Byte>)
      requires Valid() && !pendingIO[currentOverlapped]
      requires |c| <= dmaSize && dmaBuffers[currentOverlapped][..|c|] == c
      modifies this`taken, this`issued, this`chunk, this`currentOverlapped, this`answered, this`left, pendingIO
      ensures Valid() && taken == old(taken) + c && issued == old(issued) + [c]
      ensures Kept() == Answered(old(Kept()), c, Pending)
    {
      var i := currentOverlapped;
      hide Untouched, Accounted, Recorded;
      AccountStarted(taken, issued, sendDataCount, counted, whole, pendingIO[..], chunk, lost, i, c);
      RecordStarted(pendingIO[..], chunk, left, counted, answered, i, c);
      OneMoreUntouched(pendingIO[..], chunk, i, c);
      taken, issued, chunk := taken + c, issued + [c], chunk[i := c];
      answered, left := answered + [Pending], left[i := c];
      pendingIO[i] := true;
      assert pendingIO[..] == old(pendingIO[..])[i := true];
      currentOverlapped := (currentOverlapped + 1) % MAX_OVERLAPPED;
    }

    /** The write was finished at once; its buffer stays free. */
    method Finished(ghost c: seq<Byte>, m: nat)
      requires Valid()
      modifies this`taken, this`issued, this`sendDataCount, this`counted, this`whole, this`answered
      ensures Valid() && taken == old(taken) + c && issued == old(issued) + [c]
      ensures answered == old(answered) + [Done(m)] && counted == old(counted) + m
    {
      hide Untouched, Accounted, Recorded;
      AccountAtOnce(taken, issued, sendDataCount, counted, whole, pendingIO[..], chunk, lost, c, m);
      RecordAnswer(pendingIO[..], chunk, left, counted, answered, Done(m));
      taken, issued, answered := taken + c, issued + [c], answered + [Done(m)];
      sendDataCount := (sendDataCount + m) % WORD64;
      counted, whole := counted + m, whole && m == |c|;
    }

    /** Fills the first free buffer from the current one on, and writes it. */
    method WriteNext(answer: Result) returns (again: bool)
      requires Valid() && exists i :: 0 <= i < MAX_OVERLAPPED && !pendingIO[i]
      modifies this, sendQueue`getIndex, pendingIO, dmaBuffers
      ensures Valid() && taken + sendQueue.Contents() == old(taken + sendQueue.Contents())
      ensures lost == old(lost) + if again then 0 else |old(NextChunk())|
      ensures sendQueue.Contents() == old(sendQueue.Contents()[|NextChunk()|..])
      ensures exists k :: WroteFrom(old(Kept()), k, old(NextChunk()), answer, Kept())
      ensures issued == old(issued) + (if old(NextChunk()) == [] then [] else [old(NextChunk())])
      ensures again == (old(NextChunk()) == [] || !answer.Failed?)
      ensures forall i :: 0 <= i < MAX_OVERLAPPED && old(pendingIO[i]) ==> dmaBuffers[i][..] == old(dmaBuffers[i][..])
    {
      LeftIsFlagged(pendingIO[..], chunk, left, counted, answered);
      hide Untouched, Accounted, Recorded, Answered, FirstFreeFrom;
      ghost var free :| 0 <= free < MAX_OVERLAPPED && !pendingIO[free];
      ghost var before, c := Kept(), NextChunk();
      FindFree(free);
      assert NextChunk() == c;
      assert FirstFreeFrom(before.pending, before.current, currentOverlapped);
      FreeIsFree(before.pending, before.current, currentOverlapped);
      assert Kept() == before.(current := currentOverlapped);
      ghost var k := currentOverlapped;
      again := IssueWrite(answer);
      assert WroteFrom(before, k, c, answer, Kept());
    }

    /** One round of SendData: sweep, and if a buffer is free, fill the first free one and write
        it. No buffer of a write still in flight is touched. */
    method Round(answers: seq<Result>, answer: Result) returns (again: bool)
      requires Valid() && |answers| == MAX_OVERLAPPED
      modifies this, sendQueue`getIndex, pendingIO, dmaBuffers
      ensures Valid() && taken + sendQueue.Contents() == old(taken + sendQueue.Contents())
      ensures again ==> lost == old(lost)
      ensures lost == old(lost) || (issued != [] && lost == old(lost) + |issued[|issued| - 1]|)
      ensures Rounded(old(Now()), dmaSize, answers, answer, Now(), again)
      ensures forall i :: 0 <= i < MAX_OVERLAPPED && Swept(old(pendingIO[..]), answers)[i] ==>
        dmaBuffers[i][..] == old(dmaBuffers[i][..])
    {
      hide Untouched, Accounted, Recorded, Asked, SumDone, FirstFailed, SweptTo, Swept, Flagged, WroteFrom;
      var hasError := Sweep(answers);
      assert Kept() == AfterSweep(old(Kept()), answers);
      assert forall i :: 0 <= i < MAX_OVERLAPPED ==> pendingIO[i] == pendingIO[..][i];
      if hasError { return false; }
      var allPending := AllPending();
      if allPending { return true; }
      again := WriteNext(answer);
    }

    lemma LeftHolds()
      requires Valid()
      ensures sendDataCount == SumDone(answered) % WORD64
      ensures whole ==> |taken| == counted + InFlight(pendingIO[..], chunk, MAX_OVERLAPPED) + lost
      ensures forall i :: i in left <==> 0 <= i < MAX_OVERLAPPED && pendingIO[i]
      ensures forall i :: i in left ==>
        i < MAX_OVERLAPPED && |left[i]| <= dmaSize && dmaBuffers[i][..|left[i]|] == left[i]
    {}

    method SendThenRound(data: seq<Byte>, answers: seq<Result>, answer: Result)
      returns (again: bool, ghost more: seq<Byte>)
      requires Valid() && |data| < WORD && |answers| == MAX_OVERLAPPED
      modifies this, sendQueue`getIndex, sendQueue`putIndex, sendQueue.buffer, pendingIO, dmaBuffers
      ensures Valid() && taken + sendQueue.Contents() == old(taken + sendQueue.Contents()) + more
      ensures Rounded(Offered(old(Now()), sendQueue.size, data), dmaSize, answers, answer, Now(), again)
      ensures more == data || more == []
      ensures again ==> lost == old(lost)
      ensures lost == old(lost) || (issued != [] && lost == old(lost) + |issued[|issued| - 1]|)
    {
      hide Untouched, Accounted, Recorded, Rounded, Rounds, Kept;
      var sent := Send(data);
      more := if sent then data else [];
      assert Now() == Offered(old(Now()), sendQueue.size, data);
      again := Round(answers, answer);
    }

    /** SendData, with a send before each round: it goes on to the first round that fails. What
        was taken is a prefix of what was accepted, and all of it is counted, in flight, or in one
        refused write. */
    method SendData(rounds: seq<(seq<Byte>, seq<Result>, Result)>)
      returns (again: bool, ghost accepted: seq<Byte>, ghost states: seq<Sender>)
      requires Valid() && taken == [] && sendQueue.Contents() == [] && lost == 0
      requires forall r :: 0 <= r < |rounds| ==> |rounds[r].0| < WORD && |rounds[r].1| == MAX_OVERLAPPED
      modifies this, sendQueue`getIndex, sendQueue`putIndex, sendQueue.buffer, pendingIO, dmaBuffers
      ensures Rounds(states, sendQueue.size, dmaSize, rounds, again) && (again ==> |states| == |rounds| + 1)
      ensures sendQueue.Valid() && states[0] == old(Now()) && states[|states| - 1] == Now()
      ensures Valid() && taken + sendQueue.Contents() == accepted
      ensures whole ==> |taken| == counted + InFlight(pendingIO[..], chunk, MAX_OVERLAPPED) + lost
      ensures sendDataCount == SumDone(answered) % WORD64
      ensures forall i :: i in left <==> 0 <= i < MAX_OVERLAPPED && pendingIO[i]
      ensures forall i :: i in left ==> |left[i]| <= dmaSize && dmaBuffers[i][..|left[i]|] == left[i]
      ensures lost == 0 || (issued != [] && lost == |issued[|issued| - 1]|)
    {
      hide Untouched, Accounted, Recorded, Rounded, Rounds, Kept;
      accepted, states, again := [], [Now()], true;
      NoRounds(Now(), sendQueue.size, dmaSize, rounds);
      var r := 0;
      while again && r < |rounds|
        invariant Valid() && taken + sendQueue.Contents() == accepted && |states| == r + 1 <= |rounds| + 1
        invariant Rounds(states, sendQueue.size, dmaSize, rounds, again)
        invariant sendQueue.Valid() && states[0] == old(Now()) && states[r] == Now()
        invariant again ==> lost == 0
        invariant lost == 0 || (issued != [] && lost == |issued[|issued| - 1]|)
        decreases |rounds| - r
      {
        var (data, answers, answer) := rounds[r];
        ghost var more;
        again, more := SendThenRound(data, answers, answer);
        OneMoreRound(states, sendQueue.size, dmaSize, rounds, Now(), again);
        accepted, states := accepted + more, states + [Now()];
        r := r + 1;
      }
      LeftHolds();
    }

    method Send(data: seq<Byte>) returns (ok: bool)
      requires Valid() && |data| < WORD
      modifies sendQueue`putIndex, sendQueue.buffer
      ensures Valid() && sendQueue.Contents() == old(sendQueue.Contents()) + if ok then data else []
      ensures ok == (|old(sendQueue.Contents())| + |data| <= sendQueue.size)
    {
      ok := sendQueue.PutFixedLength(data);
    }

    method AllPending() returns (all: bool)
      requires pendingIO.Length == MAX_OVERLAPPED
      ensures all <==> forall i :: 0 <= i < MAX_OVERLAPPED ==> pendingIO[i]
    {
      for i := 0 to MAX_OVERLAPPED
        invariant forall j :: 0 <= j < i ==> pendingIO[j]
      {
        if !pendingIO[i] { return false; }
      }
      all := true;
    }
  }

  lemma {:induction false} NothingInFlight(pending: seq<bool>, chunk: seq<seq<Byte>>, k: nat)
    requires k <= |pending| == |chunk| && forall i :: 0 <= i < k ==> !pending[i]
    ensures InFlight(pending, chunk, k) == 0
  {
    if k > 0 { NothingInFlight(pending, chunk, k - 1); }
  }
}
