/** The slot ring that restores request order, common/InOutputData/OrderedDataProcessor.cpp,
    as a class: blocks go in by request index, and come out from the output slot on. */
module OrderedSlots {
  import opened Basics
  import opened Modular

  /** The fields of InputBlock that the processor reads, and the bytes at its buffer. */
  datatype InputBlock = InputBlock(buffer: Ptr, capacity: nat, length: nat, index: nat, context: Ptr, bytes: seq<Byte>)

  const NO_BLOCK := InputBlock(0, 0, 0, 0, 0, [])

  /** What the listener is given: a pool buffer, or a stretch of internal memory. */
  datatype Entry = External(buffer: Ptr, length: nat, context: Ptr) | Internal(bytes: seq<Byte>)

  /** The position k places after slot `first` in a ring of n. */
  function Around(first: nat, k: nat, n: nat): nat
    requires first < n && k <= n
  {
    if first + k < n then first + k else first + k - n
  }

  /** How far slot j is after slot `first`. */
  function Distance(first: nat, j: nat, n: nat): (k: nat)
    requires first < n && j < n
    ensures k < n && Around(first, k, n) == j
  {
    if j >= first then j - first else j + n - first
  }

  /** The filled entries at the front, at most `limit` of them. */
  function Front(view: seq<Option<Entry>>, limit: nat): (m: nat)
    ensures m <= limit && m <= |view|
    ensures forall k :: 0 <= k < m ==> view[k].Some?
    ensures m < limit && m < |view| ==> view[m].None?
  {
    if limit == 0 || view == [] || view[0].None? then 0 else 1 + Front(view[1..], limit - 1)
  }

  /** What a block looks like to the listener once it is in its slot. */
  function Stored(external: bool, block: InputBlock): Entry {
    if external then External(block.buffer, block.length, block.context) else Internal(block.bytes)
  }

  /** The listener calls for a stretch of entries: null buffers are skipped. */
  function Calls(entries: seq<Option<Entry>>): seq<Entry> {
    if entries == [] then []
    else Calls(entries[..|entries| - 1]) + Call(entries[|entries| - 1])
  }

  function Call(e: Option<Entry>): seq<Entry> {
    if e.None? || (e.value.External? && e.value.buffer == 0) then [] else [e.value]
  }

  /** After m rounds the entry in front is entry m of the view, or the ring is empty. */
  lemma FrontAt(view: seq<Option<Entry>>, limit: nat, m: nat)
    requires m <= Front(view, limit) && m < limit && view != []
    ensures var now := view[m..] + Empty(m);
      && |now| == |view| && (now[0].None? ==> m == Front(view, limit))
      && (now[0].Some? ==> m < |view| && now[0] == view[m] && m + 1 <= Front(view, limit))
  {}

  lemma NoneEmptied(view: seq<Option<Entry>>)
    ensures view[0..] + Empty(0) == view
  {}

  /** The view and the calls after one more entry has been taken from the front. */
  lemma OneMore(view: seq<Option<Entry>>, m: nat)
    requires m < |view|
    ensures Calls(view[..m + 1]) == Calls(view[..m]) + Call(view[m])
    ensures |Calls(view[..m + 1])| == |Calls(view[..m])| + if Call(view[m]) != [] then 1 else 0
    ensures (view[m..] + Empty(m))[1..] + [None] == view[m + 1..] + Empty(m + 1)
  {
    assert view[..m + 1][..m] == view[..m];
  }

  lemma NoCalls(view: seq<Option<Entry>>)
    ensures Calls(view[..0]) == []
  {}

  function Empty(n: nat): (s: seq<Option<Entry>>) { seq(n, _ => None) }

  /** The slot m places behind the first, on a ring of n; 0 if there is no ring. */
  function SlotAfter(first: nat, m: nat, n: nat): nat { if n == 0 then 0 else (first + m) % n }

  lemma AfterNone(first: nat, n: nat)
    requires first < n
    ensures SlotAfter(first, 0, n) == first
  {
    ModSmall(first, n);
  }

  lemma AfterOne(first: nat, m: nat, n: nat)
    requires n > 0
    ensures SlotAfter(SlotAfter(first, m, n), 1, n) == SlotAfter(first, m + 1, n)
  {
    ModAdd(first + m, 1, n);
  }

  class COrderedDataProcessor {
    var external: bool
    var blockSize: nat
    var next: nat                    // m_uiNextOutputSlot
    var filled: array<bool>          // m_pSlotFilled
    var dataLength: array<nat>       // m_pDataLength
    var slotBlocks: array<InputBlock>
    var memory: array2<Byte>         // row j is the memory of slot j
    var calls: seq<Entry>            // listener calls made so far

    ghost predicate Valid()
      reads this, filled, dataLength, slotBlocks, memory
    {
      && filled.Length > next
      && dataLength.Length == slotBlocks.Length == memory.Length0 == filled.Length
      && memory.Length1 == blockSize
      && forall j :: 0 <= j < filled.Length && filled[j] && !external ==> dataLength[j] <= blockSize
    }

    ghost function EntryAt(j: nat): Option<Entry>
      requires Valid() && j < filled.Length
      reads this, filled, dataLength, slotBlocks, memory
    {
      if !filled[j] then None
      else if external then Some(External(slotBlocks[j].buffer, dataLength[j], slotBlocks[j].context))
      else Some(Internal(RowBytes(j)))
    }

    /** The bytes in the memory of slot j. */
    function RowBytes(j: nat): seq<Byte>
      requires j < dataLength.Length
      reads this, dataLength, memory
    {
      seq(dataLength[j], i requires i >= 0 reads this, memory =>
        if j < memory.Length0 && i < memory.Length1 then memory[j, i] else 0)
    }

    /** The ring from the output slot on. */
    ghost function View(): (v: seq<Option<Entry>>)
      requires Valid()
      reads this, filled, dataLength, slotBlocks, memory
      ensures |v| == filled.Length
    {
      seq(filled.Length, k requires 0 <= k < filled.Length && Valid()
                           reads this, filled, dataLength, slotBlocks, memory
                               => EntryAt(Around(next, k, filled.Length)))
    }

    constructor ()
      ensures !Valid() && calls == [] && filled.Length == 0 && !external && next == 0
    {
      external, blockSize, next, calls := false, 0, 0, [];
      filled, dataLength, slotBlocks := new bool[0], new nat[0], new InputBlock[0];
      memory := new Byte[0, 0];
    }

    /** Initialize: 16 slots per outstanding request, all empty, counted in 32 bits;
        `allocOk` is whether all allocations succeed. The ring is usable exactly when
        they do and the count is not zero. */
    method Initialize(ioRequestNum: nat, block: nat, allocOk: bool) returns (ok: bool)
      requires ioRequestNum < WORD32
      modifies this
      ensures ok == allocOk && external == old(external) && blockSize == block && next == 0 && calls == old(calls)
      ensures var n := (MAX_DISORDER_GROUPS * ioRequestNum) % WORD32;
        && (Valid() <==> ok && n > 0)
        && (Valid() ==> View() == Empty(n))
        && (forall j :: 0 <= j < slotBlocks.Length ==> slotBlocks[j] == NO_BLOCK)
        && (n == MAX_DISORDER_GROUPS * ioRequestNum <==> ioRequestNum < 0x1000_0000)
      ensures fresh(filled) && fresh(dataLength) && fresh(slotBlocks) && fresh(memory)
    {
      var n := if allocOk then (MAX_DISORDER_GROUPS * ioRequestNum) % WORD32 else 0;
      blockSize, next := block, 0;
      filled := new bool[n](_ => false);
      dataLength := new nat[n](_ => 0);
      slotBlocks := new InputBlock[n](_ => NO_BLOCK);
      memory := new Byte[n, block]((_, _) => 0);
      ok := allocOk;
    }

    /** EnableExternalMemoryMode, before Initialize. */
    method EnableExternalMemoryMode(enable: bool)
      modifies this`external
      ensures external == enable
    {
      external := enable;
    }

    /** Reset: every slot empty, output slot 0. */
    method Reset()
      requires Valid()
      modifies this`next, filled, dataLength, slotBlocks
      ensures Valid() && next == 0 && View() == Empty(filled.Length)
      ensures external ==> forall j :: 0 <= j < slotBlocks.Length ==> slotBlocks[j] == NO_BLOCK
    {
      for i := 0 to filled.Length
        invariant forall j :: 0 <= j < i ==> !filled[j] && (external ==> slotBlocks[j] == NO_BLOCK)
        invariant forall j :: i <= j < filled.Length && filled[j] && !external ==> dataLength[j] <= blockSize
      {
        filled[i] := false;
        dataLength[i] := 0;
        if external { slotBlocks[i] := NO_BLOCK; }
      }
      next := 0;
    }

    /** ProcessData: accepts a block into its slot if the slot is empty and the block fits. */
    method ProcessData(block: InputBlock) returns (ok: bool)
      requires Valid() && |block.bytes| == block.length
      modifies filled, dataLength, slotBlocks, memory
      ensures Valid()
      ensures var k := Distance(next, block.index % filled.Length, filled.Length);
        && ok == (old(View())[k].None? && block.buffer != 0 &&
                  block.length <= if external then block.capacity else blockSize)
        && View() == if ok then old(View())[k := Some(Stored(external, block))] else old(View())
    {
      var index := block.index % filled.Length;
      if filled[index] { return false; }
      if external {
        if block.buffer == 0 { return false; }
        if block.capacity < block.length { return false; }
        slotBlocks[index] := block;
      } else {
        if block.length > blockSize { return false; }
        if block.buffer == 0 { return false; }
        forall i | 0 <= i < block.length { memory[index, i] := block.bytes[i]; }
      }
      dataLength[index] := block.length;
      filled[index] := true;
      ok := true;
      if !external { assert RowBytes(index) == block.bytes; }
      assert EntryAt(index) == Some(Stored(external, block));
      forall j: nat | j < filled.Length && j != index ensures EntryAt(j) == old(EntryAt(j)) {
        assert RowBytes(j) == old(RowBytes(j));
      }
    }

    /** TryProcessNextSlots: hands filled slots to the listener in ring order until an
        empty one. `limit` is the number of rounds before the stop flag is seen set;
        the listener throws on its call number `throwsAt`, counted from here. */
    method TryProcessNextSlots(limit: nat, throwsAt: nat) returns (ok: bool, m: nat)
      requires Valid()
      modifies this`next, this`calls, filled, slotBlocks
      ensures Valid()
      ensures m <= Front(old(View()), limit)
      ensures calls == old(calls) + Calls(old(View())[..m])
      ensures View() == old(View())[m..] + Empty(m) && next == SlotAfter(old(next), m, filled.Length)
      ensures ok ==> m == Front(old(View()), limit)
      ensures !ok ==> m < filled.Length && |Calls(old(View())[..m])| == throwsAt && Call(old(View())[m]) != []
    {
      hide *;
      ghost var n, view, before, first := filled.Length, View(), calls, next;
      m := 0;
      NoCalls(view);
      NoneEmptied(view);
      AtOutputSlot();
      AfterNone(first, n);
      var rounds, made := limit, 0;
      while rounds > 0
        invariant m + rounds == limit && m <= Front(view, limit) && m <= n == filled.Length
        invariant Valid() && made == |Calls(view[..m])|
        invariant calls == before + Calls(view[..m])
        invariant View() == view[m..] + Empty(m) && next == SlotAfter(first, m, n)
      {
        rounds := rounds - 1;
        AtOutputSlot();
        FrontAt(view, limit, m);
        if !filled[next] { return true, m; }
        var thrown, called := ProcessOutputSlot(made == throwsAt);
        if thrown { return false, m; }
        made := made + (if called then 1 else 0);
        OneMore(view, m);
        AfterOne(first, m, n);
        m := m + 1;
      }
      ok := true;
    }

    lemma AtOutputSlot()
      requires Valid()
      ensures |View()| == filled.Length > next && (View()[0].Some? <==> filled[next])
    {
      assert View()[0] == EntryAt(next);
    }

    /** One round on a filled output slot: calls the listener unless the buffer is null.
        If the listener throws, nothing is emptied. */
    method ProcessOutputSlot(throws: bool) returns (thrown: bool, called: bool)
      requires Valid() && filled[next]
      modifies this`next, this`calls, filled, slotBlocks
      ensures Valid() && called == (Call(old(View())[0]) != [])
      ensures thrown == (called && throws)
      ensures thrown ==> View() == old(View()) && calls == old(calls) && next == old(next)
      ensures !thrown ==> View() == old(View())[1..] + [None] && calls == old(calls) + Call(old(View())[0])
      ensures !thrown ==> next == SlotAfter(old(next), 1, filled.Length)
    {
      ghost var e := View()[0];
      assert e == EntryAt(next) && e.Some?;
      called := !external || slotBlocks[next].buffer != 0;
      thrown := called && throws;
      if thrown { return; }
      if called {
        calls := calls + [if external then External(slotBlocks[next].buffer, dataLength[next], slotBlocks[next].context)
                          else Internal(RowBytes(next))];
        assert Call(e) == [e.value];
        forall j: nat | j < filled.Length ensures EntryAt(j) == old(EntryAt(j)) {
          assert RowBytes(j) == old(RowBytes(j));
        }
        assert View() == old(View());
      }
      EmptyOutputSlot();
    }

    /** Takes the block out of the output slot, marks the slot empty and moves on. */
    method EmptyOutputSlot()
      requires Valid()
      modifies this`next, filled, slotBlocks
      ensures Valid()
      ensures View() == old(View())[1..] + [None] && next == (old(next) + 1) % filled.Length
      ensures external ==> slotBlocks[old(next)] == NO_BLOCK
    {
      var n := filled.Length;
      ghost var first := next;
      if external { slotBlocks[next] := NO_BLOCK; }
      filled[next] := false;
      ModLap(next, 1, n);
      next := (next + 1) % n;
      assert next == if first + 1 < n then first + 1 else first + 1 - n;
      forall j: nat | j < n && j != first ensures EntryAt(j) == old(EntryAt(j)) {
        assert RowBytes(j) == old(RowBytes(j));
        assert filled[j] == old(filled[j]) && slotBlocks[j] == old(slotBlocks[j]);
      }
      forall k: nat | k < n ensures View()[k] == (old(View())[1..] + [None])[k] {
        AroundNext(first, k, n);
      }
    }
  }

  /** Counting from the next slot: one less, and the slot itself comes last. */
  lemma AroundNext(first: nat, k: nat, n: nat)
    requires first < n && k < n
    ensures var next := if first + 1 < n then first + 1 else first + 1 - n;
      Around(next, k, n) == (if k + 1 < n then Around(first, k + 1, n) else first)
    ensures k + 1 < n ==> Around(first, k + 1, n) != first
  {}

  // ---- a window of blocks arriving in any order ----

  /** Blocks of one window, in request order, that the processor p can take. */
  ghost predicate Window(p: COrderedDataProcessor, base: nat, order: seq<InputBlock>)
    reads p, p.filled
  {
    && 0 < |order| <= p.filled.Length && p.next == base % p.filled.Length
    && forall k :: 0 <= k < |order| ==> Accepted(p, order[k]) && order[k].index == base + k
  }

  ghost predicate Accepted(p: COrderedDataProcessor, block: InputBlock)
    reads p
  {
    && block.buffer != 0 && |block.bytes| == block.length
    && block.length <= if p.external then block.capacity else p.blockSize
  }

  /** Some of the window's positions, each at most once, in any order. */
  ghost predicate Arrivals(arrival: seq<nat>, n: nat) {
    && (forall i :: 0 <= i < |arrival| ==> arrival[i] < n)
    && (forall i, j :: 0 <= i < j < |arrival| ==> arrival[i] != arrival[j])
  }

  function Entries(external: bool, order: seq<InputBlock>): (e: seq<Entry>) {
    seq(|order|, k requires 0 <= k < |order| => Stored(external, order[k]))
  }

  /** The ring from the output slot on, once the blocks at `seen` are in. */
  ghost function Filled(entries: seq<Entry>, seen: seq<nat>, n: nat): seq<Option<Entry>> {
    seq(n, k => if k in seen && 0 <= k < |entries| then Some(entries[k]) else None)
  }

  method Arrive(p: COrderedDataProcessor, base: nat, order: seq<InputBlock>, seen: seq<nat>, k: nat)
    requires p.Valid() && Window(p, base, order) && k < |order| && k !in seen
    requires p.View() == Filled(Entries(p.external, order), seen, p.filled.Length)
    modifies p.filled, p.dataLength, p.slotBlocks, p.memory
    ensures p.Valid() && Window(p, base, order)
    ensures p.View() == Filled(Entries(p.external, order), seen + [k], p.filled.Length)
  {
    // the slot of request base + k is k places after that of request base
    ModAdd(base, k, p.filled.Length);
    ModLap(base % p.filled.Length, k, p.filled.Length);
    var ok := p.ProcessData(order[k]);
  }

  /** Blocks of a window are accepted in whatever order they arrive; the listener then
      gets them in request order, up to the first that is missing. */
  method DeliversInRequestOrder(p: COrderedDataProcessor, base: nat, order: seq<InputBlock>, arrival: seq<nat>)
    returns (m: nat)
    requires p.Valid() && p.View() == Empty(p.filled.Length)
    requires Window(p, base, order) && Arrivals(arrival, |order|)
    modifies p`next, p`calls, p.filled, p.dataLength, p.slotBlocks, p.memory
    ensures m <= |order| && (forall k :: 0 <= k < m ==> k in arrival) && (m < |order| ==> m !in arrival)
    ensures p.calls == old(p.calls) + Entries(p.external, order[..m])
  {
    hide Front, Calls, Call, Entries, Filled, AllCalled;
    ArriveAll(p, base, order, arrival);
    ghost var view := p.View();
    AllCallable(p, base, order);
    var ok;
    ok, m := p.TryProcessNextSlots(|order|, |order|);
    Delivered(view, p.external, order, arrival, ok, m);
  }

  lemma Delivered(view: seq<Option<Entry>>, external: bool, order: seq<InputBlock>, arrival: seq<nat>, ok: bool, m: nat)
    requires |order| <= |view| && view == Filled(Entries(external, order), arrival, |view|)
    requires AllCalled(Entries(external, order))
    requires m <= Front(view, |order|)
    requires ok ==> m == Front(view, |order|)
    requires !ok ==> |Calls(view[..m])| == |order| && m < |view|
    ensures m <= |order| && Calls(view[..m]) == Entries(external, order[..m])
    ensures forall k :: 0 <= k < m ==> k in arrival
    ensures m < |order| ==> m !in arrival
  {
    hide Front, Calls, Call, Filled;
    EntriesPrefix(external, order, m);
    FilledFront(view, Entries(external, order), arrival, m);
  }

  ghost predicate AllCalled(entries: seq<Entry>) {
    forall k :: 0 <= k < |entries| ==> Call(Some(entries[k])) == [entries[k]]
  }

  method ArriveAll(p: COrderedDataProcessor, base: nat, order: seq<InputBlock>, arrival: seq<nat>)
    requires p.Valid() && p.View() == Empty(p.filled.Length)
    requires Window(p, base, order) && Arrivals(arrival, |order|)
    modifies p.filled, p.dataLength, p.slotBlocks, p.memory
    ensures p.Valid() && Window(p, base, order)
    ensures p.View() == Filled(Entries(p.external, order), arrival, p.filled.Length)
  {
    ghost var entries, n := Entries(p.external, order), p.filled.Length;
    assert Empty(n) == Filled(entries, arrival[..0], n);
    hide Filled, Entries;
    for i := 0 to |arrival|
      invariant p.Valid() && Window(p, base, order)
      invariant p.View() == Filled(entries, arrival[..i], n)
    {
      assert arrival[..i + 1] == arrival[..i] + [arrival[i]];
      Arrive(p, base, order, arrival[..i], arrival[i]);
    }
    assert arrival[..|arrival|] == arrival;
  }

  lemma EntriesPrefix(external: bool, order: seq<InputBlock>, m: nat)
    requires m <= |order|
    ensures |Entries(external, order)| == |order|
    ensures Entries(external, order)[..m] == Entries(external, order[..m])
  {}

  lemma FilledFront(view: seq<Option<Entry>>, entries: seq<Entry>, arrival: seq<nat>, m: nat)
    requires |entries| <= |view| && view == Filled(entries, arrival, |view|)
    requires m <= Front(view, |entries|)
    requires AllCalled(entries)
    ensures Calls(view[..m]) == entries[..m]
    ensures forall k :: 0 <= k < m ==> k in arrival
    ensures m == Front(view, |entries|) < |entries| ==> m !in arrival
  {
    hide Front, Calls, Call;
    forall k | 0 <= k < m ensures k in arrival && view[k] == Some(entries[k]) {
      assert view[k].Some?;
    }
    FrontDelivered(view, entries, m);
  }

  lemma AllCallable(p: COrderedDataProcessor, base: nat, order: seq<InputBlock>)
    requires p.filled.Length > 0 && Window(p, base, order)
    ensures AllCalled(Entries(p.external, order))
  {}

  lemma {:induction false} FrontDelivered(view: seq<Option<Entry>>, entries: seq<Entry>, m: nat)
    requires m <= |view| && m <= |entries|
    requires forall k :: 0 <= k < m ==> view[k] == Some(entries[k]) && Call(Some(entries[k])) != []
    ensures Calls(view[..m]) == entries[..m]
  {
    if m > 0 {
      FrontDelivered(view, entries, m - 1);
      OneMore(view, m - 1);
    }
  }
}
