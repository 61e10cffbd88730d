/** The completion-port reader: a fixed set of overlapped reads recycled across the files
    of a list, and the handle manager that closes a file at its last completion. */
module CompletionPort {
  import opened Basics
  import opened Modular
  import opened Tiling

  // ---- open files ----

  datatype FileHandleInfo = FileHandleInfo(total: nat, completed: nat)

  class FileHandleManager {
    var handles: map<nat, FileHandleInfo>
    var nextFileId: nat

    constructor ()
      ensures handles == map[] && nextFileId == 1
    {
      handles, nextFileId := map[], 1;
    }

    /** OpenFile; None is a file that cannot be opened, answered by the id 0. */
    method OpenFile(size: Option<nat>, block: nat) returns (id: nat)
      requires 0 < block < WORD32 && (size.Some? ==> size.value < SIZES)
      requires nextFileId > 0
      modifies this
      ensures size.None? ==> id == 0 && handles == old(handles) && nextFileId == old(nextFileId)
      ensures size.Some? ==> id == old(nextFileId) && nextFileId == id + 1
      ensures size.Some? ==> handles == old(handles)[id := FileHandleInfo(Blocks(size.value, block), 0)]
    {
      if size.None? { return 0; }
      TotalIsBlocks(size.value, block);
      id := nextFileId;
      nextFileId := nextFileId + 1;
      handles := handles[id := FileHandleInfo(GetTotalRequestCount(size.value, block), 0)];
    }

    /** UpdateCompletedRequests: counts, and closes the file when all its reads are done. */
    method UpdateCompletedRequests(id: nat, count: nat) returns (closed: bool)
      modifies this`handles
      ensures id !in old(handles) ==> !closed && handles == old(handles)
      ensures id in old(handles) ==> var info := old(handles)[id];
        && closed == (info.completed + count >= info.total)
        && handles == if closed then old(handles) - {id}
                      else old(handles)[id := info.(completed := info.completed + count)]
    {
      if id !in handles { return false; }
      handles := handles[id := handles[id].(completed := handles[id].completed + count)];
      if handles[id].completed >= handles[id].total {
        handles := handles - {id};
        return true;
      }
      return false;
    }

    method CloseFileHandle(id: nat) returns (ok: bool)
      modifies this`handles
      ensures ok == (id in old(handles)) && handles == old(handles) - {id}
    {
      ok := id in handles;
      handles := handles - {id};
    }
  }

  // ---- overlapped reads ----

  datatype Overlapped = Overlapped(fileId: nat, offset: nat, length: nat, index: nat)

  /** Outstanding reads among the first k entries, of one file or of any. */
  function Outstanding(busy: seq<bool>, k: nat): nat
    requires k <= |busy|
  {
    if k == 0 then 0 else Outstanding(busy, k - 1) + if busy[k - 1] then 1 else 0
  }

  function OutstandingOf(busy: seq<bool>, entries: seq<Overlapped>, id: nat, k: nat): nat
    requires k <= |busy| == |entries|
  {
    if k == 0 then 0
    else OutstandingOf(busy, entries, id, k - 1) + if busy[k - 1] && entries[k - 1].fileId == id then 1 else 0
  }

  lemma {:induction false} OutstandingUpdate(busy: seq<bool>, i: nat, b: bool, k: nat)
    requires i < |busy| && k <= |busy|
    ensures Outstanding(busy[i := b], k) + (if i < k && busy[i] then 1 else 0)
         == Outstanding(busy, k) + (if i < k && b then 1 else 0)
    ensures Outstanding(busy, k) <= k
    decreases k
  {
    if k > 0 { OutstandingUpdate(busy, i, b, k - 1); }
  }

  lemma {:induction false} OutstandingOfUpdate(busy: seq<bool>, entries: seq<Overlapped>, i: nat, b: bool,
                                               e: Overlapped, id: nat, k: nat)
    requires i < |busy| == |entries| && k <= |busy|
    ensures OutstandingOf(busy[i := b], entries[i := e], id, k)
        + (if i < k && busy[i] && entries[i].fileId == id then 1 else 0)
         == OutstandingOf(busy, entries, id, k) + (if i < k && b && e.fileId == id then 1 else 0)
    decreases k
  {
    if k > 0 { OutstandingOfUpdate(busy, entries, i, b, e, id, k - 1); }
  }

  /** A file and what became of its reads so far: how many there are to be, how many were submitted
      and completed, and what was submitted, in order. */
  datatype Progress = Progress(size: nat, total: nat, submitted: nat, completed: nat, asked: seq<ReadTask>)

  /** The open handles are those of the files with reads to come, or with none at all. */
  ghost predicate HandlesMatch(handles: map<nat, FileHandleInfo>, files: map<nat, Progress>) {
    && (forall id :: id in handles ==> id in files)
    && forall id :: id in files ==>
         && (id in handles <==> files[id].completed < files[id].total || files[id].total == 0)
         && (id in handles ==> handles[id] == FileHandleInfo(files[id].total, files[id].completed))
  }

  /** Each file's reads in flight are those submitted and not completed. */
  ghost predicate InFlightMatch(busy: seq<bool>, entries: seq<Overlapped>, files: map<nat, Progress>)
    requires |busy| == |entries|
  {
    && (forall i :: 0 <= i < |busy| && busy[i] ==> entries[i].fileId in files)
    && forall id :: id in files ==>
         && files[id].completed <= files[id].submitted <= files[id].total
         && OutstandingOf(busy, entries, id, |busy|) == files[id].submitted - files[id].completed
  }

  /** Only the current file has reads left to submit. */
  ghost predicate CurrentMatches(files: map<nat, Progress>, current: nat, remaining: nat, block: nat)
    requires block > 0
  {
    && (remaining > 0 ==> current in files)
    && (current in files ==> files[current].submitted + Blocks(remaining, block) == files[current].total)
    && forall id :: id in files && id != current ==> files[id].submitted == files[id].total
  }

  /** The reads of every file so far, with those to come for the current one, are its tiles. */
  ghost predicate ReadsMatch(files: map<nat, Progress>, current: nat, size: nat, remaining: nat, block: nat)
    requires block > 0 && remaining <= size
  {
    && 0 !in files
    && (forall id :: id in files ==> files[id].total == Blocks(files[id].size, block))
    && (forall id :: id in files && id != current ==> files[id].asked == Tiles(0, files[id].size, block))
    && (current in files ==> size == files[current].size
                             && files[current].asked + Tiles(size - remaining, size, block) == Tiles(0, size, block))
  }

  /** Every read in flight is one of those submitted for its file. */
  ghost predicate EntriesMatch(busy: seq<bool>, entries: seq<Overlapped>, files: map<nat, Progress>)
    requires |busy| == |entries|
  {
    forall i :: 0 <= i < |busy| && busy[i] ==>
      entries[i].fileId in files && ReadTask(entries[i].offset, entries[i].length) in files[entries[i].fileId].asked
  }

  lemma ReadsMatchSubmit(files: map<nat, Progress>, current: nat, size: nat, remaining: nat, block: nat)
    requires block > 0 && 0 < remaining <= size && ReadsMatch(files, current, size, remaining, block)
    requires current in files
    ensures var f, task := files[current], ReadTask(size - remaining, Least(remaining, block));
      ReadsMatch(files[current := f.(submitted := f.submitted + 1, asked := f.asked + [task])], current, size,
                 remaining - Least(remaining, block), block)
  {
    TilesStep(files[current].asked, size - remaining, size, block);
  }

  lemma ReadsMatchComplete(files: map<nat, Progress>, current: nat, size: nat, remaining: nat, block: nat, id: nat)
    requires block > 0 && remaining <= size && ReadsMatch(files, current, size, remaining, block) && id in files
    ensures ReadsMatch(files[id := files[id].(completed := files[id].completed + 1)], current, size, remaining, block)
  {}

  /** With all reads of the current file submitted, another file may become current, or none. */
  lemma ReadsMatchOpen(files: map<nat, Progress>, current: nat, size: nat, block: nat, id: nat, newSize: nat)
    requires block > 0 && ReadsMatch(files, current, size, 0, block) && id !in files && id != 0
    ensures ReadsMatch(files[id := Progress(newSize, Blocks(newSize, block), 0, 0, [])], id, newSize, newSize, block)
    ensures ReadsMatch(files, 0, newSize, 0, block)
  {
    if current in files {
      NoTiles(size, block);
      assert files[current].asked + [] == files[current].asked;
    }
    assert [] + Tiles(0, newSize, block) == Tiles(0, newSize, block);
  }

  lemma {:induction false} BusyIsCounted(busy: seq<bool>, entries: seq<Overlapped>, i: nat, k: nat)
    requires |busy| == |entries| && i < k <= |busy| && busy[i]
    ensures OutstandingOf(busy, entries, entries[i].fileId, k) >= 1
    decreases k
  {
    if i < k - 1 { BusyIsCounted(busy, entries, i, k - 1); }
  }

  lemma {:induction false} NoneOutstanding(busy: seq<bool>, entries: seq<Overlapped>, id: nat, k: nat)
    requires k <= |busy| == |entries| && forall i :: 0 <= i < k && busy[i] ==> entries[i].fileId != id
    ensures OutstandingOf(busy, entries, id, k) == 0
    decreases k
  {
    if k > 0 { NoneOutstanding(busy, entries, id, k - 1); }
  }

  /** The handle that a new read uses is still open. */
  lemma CurrentIsOpen(handles: map<nat, FileHandleInfo>, files: map<nat, Progress>, busy: seq<bool>,
                      entries: seq<Overlapped>,
                      current: nat, remaining: nat, block: nat)
    requires block > 0 && |busy| == |entries| && remaining > 0
    requires HandlesMatch(handles, files) && InFlightMatch(busy, entries, files)
    requires CurrentMatches(files, current, remaining, block)
    ensures current in handles && current in files && files[current].submitted < files[current].total
  {}

  /** Rewriting an entry without an outstanding read changes nothing. */
  lemma IdleEntryKeeps(files: map<nat, Progress>, busy: seq<bool>, entries: seq<Overlapped>, i: nat, e: Overlapped)
    requires i < |busy| == |entries| && !busy[i]
    requires InFlightMatch(busy, entries, files) && EntriesMatch(busy, entries, files)
    ensures InFlightMatch(busy, entries[i := e], files) && EntriesMatch(busy, entries[i := e], files)
  {
    forall id | id in files
      ensures OutstandingOf(busy, entries[i := e], id, |busy|) == files[id].submitted - files[id].completed
    {
      OutstandingOfUpdate(busy, entries, i, false, e, id, |busy|);
      assert busy[i := false] == busy;
    }
  }

  lemma SubmitKeeps(handles: map<nat, FileHandleInfo>, files: map<nat, Progress>, busy: seq<bool>,
                    entries: seq<Overlapped>,
                    i: nat, e: Overlapped, remaining: nat, block: nat)
    requires block > 0 && i < |busy| == |entries| && !busy[i] && remaining > 0
    requires HandlesMatch(handles, files) && InFlightMatch(busy, entries, files) && EntriesMatch(busy, entries, files)
    requires CurrentMatches(files, e.fileId, remaining, block)
    ensures var f := files[e.fileId];
      var files' := files[e.fileId := f.(submitted := f.submitted + 1,
                                         asked := f.asked + [ReadTask(e.offset, e.length)])];
      && HandlesMatch(handles, files') && InFlightMatch(busy[i := true], entries[i := e], files')
      && EntriesMatch(busy[i := true], entries[i := e], files')
      && CurrentMatches(files', e.fileId, remaining - Least(remaining, block), block)
  {
    var f := files[e.fileId];
    var files' := files[e.fileId := f.(submitted := f.submitted + 1,
                                         asked := f.asked + [ReadTask(e.offset, e.length)])];
    forall id | id in files'
      ensures files'[id].completed <= files'[id].submitted <= files'[id].total
      ensures OutstandingOf(busy[i := true], entries[i := e], id, |busy|) == files'[id].submitted - files'[id].completed
    {
      OutstandingOfUpdate(busy, entries, i, true, e, id, |busy|);
    }
  }

  /** The handles after one more completion of file id. */
  function Completed(handles: map<nat, FileHandleInfo>, id: nat): map<nat, FileHandleInfo>
    requires id in handles
  {
    if handles[id].completed + 1 >= handles[id].total then handles - {id}
    else handles[id := handles[id].(completed := handles[id].completed + 1)]
  }

  /** A completion belongs to an open file, and closes it exactly when it is the last one. */
  lemma CompleteKeeps(handles: map<nat, FileHandleInfo>, files: map<nat, Progress>, busy: seq<bool>,
                      entries: seq<Overlapped>, i: nat)
    requires i < |busy| == |entries| && busy[i]
    requires HandlesMatch(handles, files) && InFlightMatch(busy, entries, files) && EntriesMatch(busy, entries, files)
    ensures var id := entries[i].fileId;
      && id in handles && id in files
      && var files' := files[id := files[id].(completed := files[id].completed + 1)];
      && HandlesMatch(Completed(handles, id), files') && InFlightMatch(busy[i := false], entries, files')
      && EntriesMatch(busy[i := false], entries, files')
      && (id !in Completed(handles, id) <==> files'[id].completed == files'[id].total)
  {
    var e, id := entries[i], entries[i].fileId;
    BusyIsCounted(busy, entries, i, |busy|);
    var files' := files[id := files[id].(completed := files[id].completed + 1)];
    forall f | f in files'
      ensures files'[f].completed <= files'[f].submitted <= files'[f].total
      ensures OutstandingOf(busy[i := false], entries, f, |busy|) == files'[f].submitted - files'[f].completed
    {
      OutstandingOfUpdate(busy, entries, i, false, e, f, |busy|);
      assert entries[i := e] == entries;
    }
  }

  lemma OpenKeeps(handles: map<nat, FileHandleInfo>, files: map<nat, Progress>, busy: seq<bool>,
                  entries: seq<Overlapped>,
                  current: nat, id: nat, size: nat, block: nat)
    requires block > 0 && |busy| == |entries| && id !in files && id !in handles
    requires HandlesMatch(handles, files) && InFlightMatch(busy, entries, files) && EntriesMatch(busy, entries, files)
        && CurrentMatches(files, current, 0, block)
    ensures var files' := files[id := Progress(size, Blocks(size, block), 0, 0, [])];
      && HandlesMatch(handles[id := FileHandleInfo(Blocks(size, block), 0)], files')
      && InFlightMatch(busy, entries, files') && EntriesMatch(busy, entries, files')
      && CurrentMatches(files', id, size, block)
  {
    NoneOutstanding(busy, entries, id, |busy|);
  }

  /** With nothing left to submit, the current file may be none. */
  lemma NoFileKeeps(files: map<nat, Progress>, current: nat, block: nat)
    requires block > 0 && CurrentMatches(files, current, 0, block)
    ensures CurrentMatches(files, 0, 0, block)
  {}

  // ---- how far the reader is ----

  /** Index in the file list, bytes of the current file not yet asked for, reads in flight. */
  datatype Cursor = Cursor(index: nat, remaining: nat, active: nat)

  function NextIndex(index: nat, count: nat, loop: bool): nat {
    if index + 1 < count || !loop then index + 1 else 0
  }

  /** A completion now makes the reader open another file of the list. */
  predicate Opens(cur: Cursor, count: nat, loop: bool) {
    cur.remaining == 0 && (cur.index + 1 < count || loop)
  }

  /** The reader after a completion without error; `nextSize` is the size of the file it opens,
      if it opens one. The entry of the completed read goes on if there is something to read. */
  function AfterCompletion(cur: Cursor, count: nat, loop: bool, block: nat, nextSize: nat): Cursor
    requires cur.active > 0
  {
    var index := if cur.remaining > 0 then cur.index else NextIndex(cur.index, count, loop);
    var left := if Opens(cur, count, loop) then nextSize else cur.remaining;
    if left > 0 then Cursor(index, left - Least(left, block), cur.active) else Cursor(index, 0, cur.active - 1)
  }

  /** Bytes left of n after k reads. */
  function Rest(n: nat, block: nat, k: nat): nat {
    if k == 0 then n else Rest(n, block, k - 1) - Least(Rest(n, block, k - 1), block)
  }

  /** The reader once it has started on a first file of the given size. */
  function Started(size: nat, block: nat, io: nat): Cursor
    requires block > 0
  {
    var w := Least(io, Blocks(size, block));
    Cursor(0, Rest(size, block, w), w)
  }

  /** Files stay in the record with their sizes, and reads are added at the end. */
  ghost predicate FilesGrow(a: map<nat, Progress>, b: map<nat, Progress>) {
    forall id :: id in a ==> id in b && b[id].size == a[id].size && a[id].asked <= b[id].asked
  }

  lemma GrowTwice(a: map<nat, Progress>, b: map<nat, Progress>, c: map<nat, Progress>)
    requires FilesGrow(a, b) && FilesGrow(b, c)
    ensures FilesGrow(a, c)
  {}

  lemma GrowOne(a: map<nat, Progress>, id: nat, task: ReadTask)
    requires id in a
    ensures FilesGrow(a, a[id := a[id].(submitted := a[id].submitted + 1, asked := a[id].asked + [task])])
  {}

  lemma GrowNot(a: map<nat, Progress>)
    ensures FilesGrow(a, a)
  {}

  // ---- the order of the requests ----

  /** Request r is for an earlier file than id, or not behind the offset in that one. */
  predicate Upto(r: Overlapped, id: nat, offset: nat) { r.fileId < id || (r.fileId == id && r.offset <= offset) }

  /** The slot of request k of a run, which is counted in 64 bits. */
  predicate Numbered(r: Overlapped, k: nat, slots: nat) { slots > 0 && r.index == k % WORD64 % slots }

  /** The requests made are numbered in turn over the slots and go from file to file in the order of
      opening, forwards in each; those still outstanding are among them, and the next one, at the
      position given, is behind them. */
  ghost predicate InOrder(requests: seq<Overlapped>, slots: nat, busy: seq<bool>, entries: seq<Overlapped>,
                          current: nat, position: nat, remaining: nat, nextFileId: nat)
    requires |busy| == |entries|
  {
    && (forall k :: 0 <= k < |requests| ==> requests[k].fileId < nextFileId && Numbered(requests[k], k, slots))
    && (forall j, k :: 0 <= j < k < |requests| ==> Upto(requests[j], requests[k].fileId, requests[k].offset))
    && (forall i :: 0 <= i < |busy| && busy[i] ==> entries[i] in requests)
    && (remaining > 0 ==> forall r :: r in requests ==> Upto(r, current, position))
  }

  /** A request at the position, whether it is accepted or not. */
  lemma OrderRequest(requests: seq<Overlapped>, slots: nat, busy: seq<bool>, entries: seq<Overlapped>, current: nat,
                     position: nat, remaining: nat, nextFileId: nat, i: nat, e: Overlapped, n: nat)
    requires i < |busy| == |entries| && !busy[i] && remaining > 0 && slots > 0 && current < nextFileId
    requires InOrder(requests, slots, busy, entries, current, position, remaining, nextFileId)
    requires e.fileId == current && e.offset == position && Numbered(e, |requests|, slots) && n <= remaining
    ensures InOrder(requests + [e], slots, busy, entries[i := e], current, position, remaining, nextFileId)
    ensures InOrder(requests + [e], slots, busy[i := true], entries[i := e], current, position + n, remaining - n,
                    nextFileId)
  {
    var all := requests + [e];
    assert all[|requests|] == e;
    var nowBusy, now := busy[i := true], entries[i := e];
    forall j | 0 <= j < |nowBusy| && nowBusy[j] ensures now[j] in all {
      if j != i { assert entries[j] in requests; }
    }
    forall j, k | 0 <= j < k < |all| ensures Upto(all[j], all[k].fileId, all[k].offset) {
      if k == |requests| { assert all[j] in requests; }
    }
    hide Numbered;
  }

  lemma OrderComplete(requests: seq<Overlapped>, slots: nat, busy: seq<bool>, entries: seq<Overlapped>, current: nat,
                      position: nat, remaining: nat, nextFileId: nat, i: nat)
    requires i < |busy| == |entries|
    requires InOrder(requests, slots, busy, entries, current, position, remaining, nextFileId)
    ensures InOrder(requests, slots, busy[i := false], entries, current, position, remaining, nextFileId)
  {}

  /** Another file becomes current, with an id not given before, or none does. */
  lemma OrderOpen(requests: seq<Overlapped>, slots: nat, busy: seq<bool>, entries: seq<Overlapped>, current: nat,
                  position: nat, nextFileId: nat, id: nat, size: nat)
    requires |busy| == |entries| && nextFileId <= id
    requires InOrder(requests, slots, busy, entries, current, position, 0, nextFileId)
    ensures InOrder(requests, slots, busy, entries, id, 0, size, id + 1)
    ensures InOrder(requests, slots, busy, entries, 0, size, 0, id + 1)
    ensures InOrder(requests, slots, busy, entries, 0, position, 0, nextFileId)
  {}

  lemma OrderNone(slots: nat, busy: seq<bool>, entries: seq<Overlapped>, current: nat, size: nat, nextFileId: nat)
    requires |busy| == |entries| && forall i :: 0 <= i < |busy| ==> !busy[i]
    ensures InOrder([], slots, busy, entries, current, 0, size, nextFileId)
  {}

  lemma NextCount(n: nat)
    ensures (n % WORD64 + 1) % WORD64 == (n + 1) % WORD64
  {
    ModAdd(n, 1, WORD64);
  }

  // ---- the reader ----

  class Reader {
    const io: nat
    const block: nat
    const manager: FileHandleManager
    const fileCount: nat           // length of the file list
    const loop: bool
    var currentFileIndex: nat
    var entries: seq<Overlapped>
    var current: nat               // current_file_id_
    var size: nat                  // current_file_size_
    var remaining: nat
    var active: nat
    var counter: nat
    ghost var busy: seq<bool>      // entries with a read outstanding
    ghost var files: map<nat, Progress>
    ghost var requests: seq<Overlapped>   // all that ReadFile was asked for, in order

    ghost predicate Valid()
      reads this, manager
    {
      && 0 < block < WORD32 && |entries| == |busy| == io
      && remaining <= size < SIZES && manager.nextFileId > 0
      && (forall id :: id in files || id in manager.handles ==> id < manager.nextFileId)
      && active == Outstanding(busy, io)
      && HandlesMatch(manager.handles, files) && InFlightMatch(busy, entries, files)
      && CurrentMatches(files, current, remaining, block)
      && ReadsMatch(files, current, size, remaining, block) && EntriesMatch(busy, entries, files)
      && counter == |requests| % WORD64
      && InOrder(requests, Slots(), busy, entries, current, size - remaining, remaining, manager.nextFileId)
    }

    /** The slots of the ordering ring, in unsigned arithmetic. */
    function Slots(): nat { MAX_DISORDER_GROUPS * io % WORD32 }

    function Position(): Cursor
      reads this
    {
      Cursor(currentFileIndex, remaining, active)
    }

    /** The state when ReadData starts: the first file of the list has just been opened. */
    constructor (io: nat, block: nat, manager: FileHandleManager, fileCount: nat, loop: bool, id: nat, size: nat)
      requires 0 < block < WORD32 && size < SIZES && 0 < id < manager.nextFileId
      requires manager.handles == map[id := FileHandleInfo(Blocks(size, block), 0)]
      ensures Valid() && this.io == io && this.block == block && this.manager == manager
      ensures this.fileCount == fileCount && this.loop == loop
      ensures current == id && this.size == size && Position() == Cursor(0, size, 0)
      ensures busy == seq(io, _ => false) && files == map[id := Progress(size, Blocks(size, block), 0, 0, [])]
      ensures requests == []
    {
      this.io, this.block, this.manager, this.fileCount, this.loop := io, block, manager, fileCount, loop;
      currentFileIndex := 0;
      entries := seq(io, _ => Overlapped(0, 0, 0, 0));
      current, this.size, remaining, active, counter := id, size, size, 0, 0;
      busy, files := seq(io, _ => false), map[id := Progress(size, Blocks(size, block), 0, 0, [])];
      requests := [];
      new;
      OrderNone(Slots(), busy, entries, current, size, manager.nextFileId);
      hide InOrder;
      NoneBusy(busy, io);
      NoneOutstanding(busy, entries, id, io);
      assert [] + Tiles(0, size, block) == Tiles(0, size, block);
    }

    lemma RequestKeepsOrder(i: nat, e: Overlapped, n: nat)
      requires Valid() && i < io && !busy[i] && remaining > 0 && Slots() > 0 && n <= remaining
      requires e.fileId == current && e.offset == size - remaining && e.index == counter % Slots()
      ensures var r, at := requests + [e], size - remaining;
        && InOrder(r, Slots(), busy, entries[i := e], current, at, remaining, manager.nextFileId)
        && InOrder(r, Slots(), busy[i := true], entries[i := e], current, at + n, remaining - n, manager.nextFileId)
        && (counter + 1) % WORD64 == |r| % WORD64
    {
      hide InOrder, Outstanding, OutstandingOf, Blocks, HandlesMatch, InFlightMatch, ReadsMatch, EntriesMatch;
      OrderRequest(requests, Slots(), busy, entries, current, size - remaining, remaining, manager.nextFileId, i, e, n);
      NextCount(|requests|);
    }

    /** SubmitNewReadRequest on entry i, once its slot is free; `readOk` is what ReadFile
        answers. Reads are block by block from the start of the file. */
    method SubmitNewReadRequest(i: nat, readOk: bool) returns (ok: bool)
      requires Valid() && i < io && !busy[i] && remaining > 0 && Slots() > 0
      modifies this
      ensures current in manager.handles && currentFileIndex == old(currentFileIndex)
      ensures ok == readOk && current == old(current) && size == old(size)
      ensures Valid()
      ensures ok ==> busy == old(busy)[i := true] && remaining == old(remaining) - Least(old(remaining), block)
      ensures requests == old(requests) + [entries[i]]
      ensures entries[i] == Overlapped(current, size - old(remaining), Least(old(remaining), block),
                                       |old(requests)| % WORD64 % Slots())
      ensures active == old(active) + (if ok then 1 else 0) <= io
      ensures ok ==> var f := old(files)[current];
        files == old(files)[current := f.(submitted := f.submitted + 1,
                                          asked := f.asked + [ReadTask(entries[i].offset, entries[i].length)])]
      ensures forall j :: 0 <= j < io && j != i ==> entries[j] == old(entries)[j]
      ensures !ok ==> remaining == old(remaining) && busy == old(busy) && files == old(files)
      ensures FilesGrow(old(files), files)
    {
      hide Outstanding, OutstandingOf, Blocks, HandlesMatch, InFlightMatch, CurrentMatches, ReadsMatch, EntriesMatch,
           InOrder, Tiles, Numbered, FilesGrow;
      CurrentIsOpen(manager.handles, files, busy, entries, current, remaining, block);
      OutstandingUpdate(busy, i, false, io);
      var length := if block > remaining then remaining else block;
      var e := Overlapped(current, size - remaining, length, counter % Slots());
      RequestKeepsOrder(i, e, length);
      if !readOk {
        IdleEntryKeeps(files, busy, entries, i, e);
        GrowNot(files);
        counter, entries, requests := (counter + 1) % WORD64, entries[i := e], requests + [e];
        return false;
      }
      SubmitKeeps(manager.handles, files, busy, entries, i, e, remaining, block);
      OutstandingUpdate(busy, i, true, io);
      OutstandingUpdate(busy[i := true], i, true, io);
      ReadsMatchSubmit(files, current, size, remaining, block);
      GrowOne(files, current, ReadTask(e.offset, e.length));
      files := files[current := files[current].(submitted := files[current].submitted + 1,
                                                asked := files[current].asked + [ReadTask(e.offset, e.length)])];
      counter, entries, requests := (counter + 1) % WORD64, entries[i := e], requests + [e];
      busy, active, remaining := busy[i := true], active + 1, remaining - length;
      ok := true;
    }

    lemma ActiveBounded()
      requires Valid()
      ensures active <= io == |busy| == |entries|
    {
      if io > 0 { OutstandingUpdate(busy, 0, false, io); }
    }

    /** The initial reads: as many entries as there are reads in the first file, up to io. */
    method StartReads(readOk: seq<bool>) returns (ok: bool)
      requires Valid() && (io > 0 ==> Slots() > 0) && |readOk| == io && forall i :: 0 <= i < io ==> !busy[i]
      modifies this
      ensures Valid() && current == old(current) && currentFileIndex == old(currentFileIndex)
      ensures ok ==> Position() == Started(old(remaining), block, io).(index := currentFileIndex)
      ensures ok <== forall i :: 0 <= i < io ==> readOk[i]
      ensures FilesGrow(old(files), files) && old(requests) <= requests
    {
      hide FilesGrow, ReadsMatch, EntriesMatch, HandlesMatch, InFlightMatch, CurrentMatches, InOrder;
      NoneBusy(busy, io);
      GrowNot(files);
      for i := 0 to io
        invariant Valid() && current == old(current) && active == i && currentFileIndex == old(currentFileIndex)
        invariant forall j :: i <= j < io ==> !busy[j]
        invariant remaining == Rest(old(remaining), block, i)
        invariant i + Blocks(remaining, block) == Blocks(old(remaining), block)
        invariant FilesGrow(old(files), files) && old(requests) <= requests
      {
        if remaining == 0 { return true; }
        ghost var before := files;
        var submitted := SubmitNewReadRequest(i, readOk[i]);
        GrowTwice(old(files), before, files);
        if !submitted { return false; }
      }
      return true;
    }

    /** The accounting of a completion: the file is closed exactly when it was its last. */
    method CountCompletion(i: nat) returns (closed: bool)
      requires Valid() && i < io && busy[i]
      modifies this`active, this`busy, this`files, manager`handles
      ensures Valid() && busy == old(busy)[i := false] && active == old(active) - 1
      ensures var id := entries[i].fileId;
        && id in old(manager.handles) && id in old(files) && id in files
        && files == old(files)[id := old(files)[id].(completed := old(files)[id].completed + 1)]
        && FilesGrow(old(files), files)
        && closed == (files[id].completed == files[id].total) && closed == (id !in manager.handles)
    {
      hide Outstanding, OutstandingOf, Blocks, HandlesMatch, InFlightMatch, ReadsMatch, EntriesMatch, InOrder;
      var id := entries[i].fileId;
      OrderComplete(requests, Slots(), busy, entries, current, size - remaining, remaining, manager.nextFileId, i);
      CompleteKeeps(manager.handles, files, busy, entries, i);
      ReadsMatchComplete(files, current, size, remaining, block, id);
      OutstandingUpdate(busy, i, false, io);
      active := active - 1;
      files := files[id := files[id].(completed := files[id].completed + 1)];
      busy := busy[i := false];
      closed := manager.UpdateCompletedRequests(id, 1);
    }

    /** Opens the next file of the list; `associates` is whether the port takes its handle. If
        it does not, the file is closed again, but its size has replaced the current one. */
    method OpenFile(fileSize: Option<nat>, associates: bool) returns (id: nat)
      requires Valid() && remaining == 0 && (fileSize.Some? ==> fileSize.value < SIZES)
      modifies this`current, this`size, this`remaining, this`files, manager
      ensures Valid() && (id == 0 <==> !(fileSize.Some? && associates))
      ensures busy == old(busy) && active == old(active) && entries == old(entries)
      ensures id == current
      ensures id == 0 ==> remaining == 0 && files == old(files) && manager.handles == old(manager.handles)
      ensures FilesGrow(old(files), files)
      ensures id == 0 ==> size == if fileSize.Some? then fileSize.value else old(size)
      ensures id != 0 ==> size == fileSize.value == remaining && id !in old(files)
      ensures id != 0 ==> files == old(files)[id := Progress(fileSize.value, Blocks(fileSize.value, block), 0, 0, [])]
    {
      hide Outstanding, OutstandingOf, Blocks, HandlesMatch, InFlightMatch, CurrentMatches, ReadsMatch, EntriesMatch,
           InOrder;
      ghost var handles := manager.handles;
      OrderOpen(requests, Slots(), busy, entries, current, size, manager.nextFileId, manager.nextFileId,
                if fileSize.Some? then fileSize.value else 0);
      var newId := manager.OpenFile(fileSize, block);
      if newId == 0 {
        NoFileKeeps(files, current, block);
        ReadsMatchOpen(files, current, size, block, manager.nextFileId, size);
        current := 0;
        return 0;
      }
      if !associates {
        var closed := manager.CloseFileHandle(newId);
        assert manager.handles == handles;
        NoFileKeeps(files, current, block);
        ReadsMatchOpen(files, current, size, block, newId, fileSize.value);
        current, size := 0, fileSize.value;
        return 0;
      }
      OpenKeeps(handles, files, busy, entries, current, newId, fileSize.value, block);
      ReadsMatchOpen(files, current, size, block, newId, fileSize.value);
      current, size, remaining := newId, fileSize.value, fileSize.value;
      files := files[newId := Progress(fileSize.value, Blocks(fileSize.value, block), 0, 0, [])];
      id := newId;
    }

    /** Moves to the next file of the list, or answers that there is none. */
    method NextFile() returns (more: bool)
      requires Valid()
      modifies this`currentFileIndex
      ensures Valid() && more == (old(currentFileIndex) + 1 < fileCount || loop)
      ensures var i := old(currentFileIndex) + 1;
        currentFileIndex == if i < fileCount || !loop then i else 0
    {
      currentFileIndex := currentFileIndex + 1;
      if currentFileIndex >= fileCount {
        if !loop { return false; }
        currentFileIndex := 0;
      }
      more := true;
    }

    /** The end of a completion: reuses entry i for the next read, of the next file in the
        list if this one has no more. */
    method ReadOn(i: nat, next: Option<nat>, associates: bool, readOk: bool) returns (ok: bool)
      requires Valid() && i < io && !busy[i] && Slots() > 0 && (next.Some? ==> next.value < SIZES)
      modifies this, manager
      ensures Valid() && active <= io
      ensures !ok <==>
        var opens := Opens(old(Position()), fileCount, loop);
        || (opens && !(next.Some? && associates)) || (!readOk && (old(remaining) > 0 || (opens && next.value > 0)))
      ensures ok ==> Position() == AfterCompletion(old(Position()).(active := old(active) + 1), fileCount, loop, block,
                                                   if next.Some? then next.value else 0)
      ensures forall j :: 0 <= j < io && j != i ==> entries[j] == old(entries)[j]
      ensures FilesGrow(old(files), files) && old(requests) <= requests
      ensures ok && !busy[i] ==>
        old(remaining) == 0 && (next == Some(0) || (old(currentFileIndex) + 1 >= fileCount && !loop))
    {
      hide Valid, FilesGrow;
      ActiveBounded();
      GrowNot(files);
      if remaining == 0 {
        var more := NextFile();
        if !more { return true; }
        var id := OpenFile(next, associates);
        if id == 0 { return false; }
      }
      ok := true;
      ghost var before := files;
      if remaining > 0 {
        ok := SubmitNewReadRequest(i, readOk);
        GrowTwice(old(files), before, files);
      }
    }

    /** One completion in the main loop: count it, check its length, and read on. */
    method HandleCompletion(i: nat, bytes: nat, next: Option<nat>, associates: bool, readOk: bool)
      returns (hasError: bool, delivered: bool)
      requires Valid() && i < io && busy[i] && Slots() > 0 && (next.Some? ==> next.value < SIZES)
      modifies this, manager
      ensures Valid() && active <= io && old(active) > 0
      ensures delivered == (bytes == old(entries[i].length))
      ensures hasError <==>
        var opens := Opens(old(Position()), fileCount, loop);
        || !delivered || (opens && !(next.Some? && associates))
        || (!readOk && (old(remaining) > 0 || (opens && next.value > 0)))
      ensures !delivered ==> busy == old(busy)[i := false]
      ensures !hasError ==> Position() == AfterCompletion(old(Position()), fileCount, loop, block,
                                                          if next.Some? then next.value else 0)
      ensures forall j :: 0 <= j < io && j != i ==> entries[j] == old(entries)[j]
      ensures FilesGrow(old(files), files) && old(requests) <= requests
      ensures !hasError && !busy[i] ==>
        old(remaining) == 0 && (next == Some(0) || (old(currentFileIndex) + 1 >= fileCount && !loop))
    {
      hide Valid, AfterCompletion, FilesGrow;
      ActiveBounded();
      var closed := CountCompletion(i);
      ActiveBounded();
      ghost var before := files;
      if bytes != entries[i].length { return true, false; }
      delivered := true;
      var ok := ReadOn(i, next, associates, readOk);
      GrowTwice(old(files), before, files);
      hasError := !ok;
    }
  }

  /** With no read outstanding and none left to submit, every opened file was read to its
      end, and only empty files still have a handle. */
  lemma AllRead(r: Reader)
    requires r.Valid() && r.active == 0 && r.remaining == 0
    ensures forall id :: id in r.files ==> r.files[id].completed == r.files[id].total
    ensures forall id :: id in r.manager.handles <==> id in r.files && r.files[id].total == 0
  {
    SomeBusy(r.busy, r.io);
    forall id | id in r.files ensures r.files[id].completed == r.files[id].total {
      NoneOutstanding(r.busy, r.entries, id, r.io);
    }
  }

  /** Whatever the order of completions, the reads submitted for a file are a prefix of its tiles,
      and all of them once it is complete; every read in flight is one of them. */
  lemma ReadsAreTiles(r: Reader, id: nat)
    requires r.Valid() && id in r.files
    ensures r.files[id].asked <= Tiles(0, r.files[id].size, r.block) && |r.files[id].asked| == r.files[id].submitted
    ensures r.files[id].submitted == r.files[id].total ==> r.files[id].asked == Tiles(0, r.files[id].size, r.block)
    ensures r.files[id].completed == r.files[id].total ==> r.files[id].asked == Tiles(0, r.files[id].size, r.block)
    ensures forall i :: 0 <= i < r.io && r.busy[i] && r.entries[i].fileId == id ==>
      ReadTask(r.entries[i].offset, r.entries[i].length) in r.files[id].asked
  {
    hide Tiles, Blocks, Outstanding, OutstandingOf, InOrder, HandlesMatch;
    TilesPartition(0, r.files[id].size, r.block);
    if id == r.current { TilesPartition(r.size - r.remaining, r.size, r.block); }
  }

  /** Whatever the order of completions, request k of the whole run is for slot k (modulo their
      number, and 2^64), and the requests go through the files in the order of opening and forwards
      in each; those outstanding are among them. */
  lemma RequestsInOrder(r: Reader, k: nat)
    requires r.Valid() && k < |r.requests|
    ensures Numbered(r.requests[k], k, r.Slots())
    ensures forall j :: 0 <= j < k ==> Upto(r.requests[j], r.requests[k].fileId, r.requests[k].offset)
    ensures forall i :: 0 <= i < r.io && r.busy[i] ==> r.entries[i] in r.requests
  {}

  lemma {:induction false} SomeBusy(busy: seq<bool>, k: nat)
    requires k <= |busy| && Outstanding(busy, k) == 0
    ensures forall i :: 0 <= i < k ==> !busy[i]
    decreases k
  {
    if k > 0 { SomeBusy(busy, k - 1); }
  }

  lemma {:induction false} NoneBusy(busy: seq<bool>, k: nat)
    requires k <= |busy| && forall i :: 0 <= i < k ==> !busy[i]
    ensures Outstanding(busy, k) == 0
    decreases k
  {
    if k > 0 { NoneBusy(busy, k - 1); }
  }

  // ---- whole lists ----

  /** One completion without error in a list of files of the given sizes; without a read in
      flight none comes. */
  function Completion(sizes: seq<nat>, block: nat, loop: bool, cur: Cursor): Cursor {
    var k := NextIndex(cur.index, |sizes|, loop);
    if cur.active == 0 then cur
    else AfterCompletion(cur, |sizes|, loop, block, if k < |sizes| then sizes[k] else 0)
  }

  /** The reader after n completions, which may be those of any entries. */
  function After(sizes: seq<nat>, block: nat, loop: bool, cur: Cursor, n: nat): Cursor {
    if n == 0 then cur else Completion(sizes, block, loop, After(sizes, block, loop, cur, n - 1))
  }

  /** What the loop's exit test asks, which is tried after completions only. */
  predicate Past(sizes: seq<nat>, cur: Cursor) {
    cur.remaining == 0 && cur.index + 1 >= |sizes| && cur.active == 0
  }

  /** No read is in flight, and the exit test fails: nothing will ever happen again. */
  predicate Stalled(sizes: seq<nat>, cur: Cursor) { cur.active == 0 && !Past(sizes, cur) }

  /** The loop comes to its exit test and passes it. */
  ghost predicate Exits(sizes: seq<nat>, block: nat, loop: bool, cur: Cursor) {
    exists n: nat :: ExitsAt(sizes, block, loop, cur, n)
  }

  ghost predicate ExitsAt(sizes: seq<nat>, block: nat, loop: bool, cur: Cursor, n: nat) {
    After(sizes, block, loop, cur, n).active > 0 && Past(sizes, After(sizes, block, loop, cur, n + 1))
  }

  /** A completion leaves the reader stalled exactly if it is the last one outstanding and
      opens an empty file that is not the last of the list. */
  lemma StallsIff(sizes: seq<nat>, block: nat, loop: bool, cur: Cursor)
    requires cur.active > 0 && block > 0
    ensures Stalled(sizes, Completion(sizes, block, loop, cur)) <==>
      var k := NextIndex(cur.index, |sizes|, loop);
      cur.active == 1 && cur.remaining == 0 && k + 1 < |sizes| && sizes[k] == 0
  {}

  /** Empty files among those from the second to index k. */
  function EmptyUpTo(sizes: seq<nat>, k: nat): nat
    requires k < |sizes|
  {
    if k == 0 then 0 else EmptyUpTo(sizes, k - 1) + if sizes[k] == 0 then 1 else 0
  }

  lemma {:induction false} EmptyUpToMono(sizes: seq<nat>, j: nat, k: nat)
    requires j <= k < |sizes|
    ensures EmptyUpTo(sizes, j) <= EmptyUpTo(sizes, k)
  {
    if j < k { EmptyUpToMono(sizes, j, k - 1); }
  }

  /** Empty files that are neither the first nor the last. */
  function InnerEmpty(sizes: seq<nat>): nat {
    if |sizes| < 2 then 0 else EmptyUpTo(sizes, |sizes| - 2)
  }

  /** Every empty file costs one of the w reads that the reader started with. */
  ghost predicate OnTrack(sizes: seq<nat>, w: nat, cur: Cursor) {
    && |sizes| > 0 && cur.active <= w && (cur.remaining > 0 ==> cur.active > 0 && cur.index < |sizes|)
    && (cur.index < |sizes| ==> cur.active + EmptyUpTo(sizes, cur.index) == w)
    && (0 < cur.index < |sizes| ==> EmptyUpTo(sizes, cur.index - 1) < w)
    && (cur.index >= |sizes| ==> EmptyUpTo(sizes, |sizes| - 1) < w)
  }

  lemma {:induction false} StartOnTrack(size: nat, block: nat, k: nat)
    requires block > 0 && k <= Blocks(size, block)
    ensures k + Blocks(Rest(size, block, k), block) == Blocks(size, block)
    decreases k
  {
    if k > 0 { StartOnTrack(size, block, k - 1); }
  }

  lemma {:induction false} StaysOnTrack(sizes: seq<nat>, block: nat, io: nat, n: nat)
    requires |sizes| > 0 && block > 0 && io > 0
    ensures OnTrack(sizes, Started(sizes[0], block, io).active,
                    After(sizes, block, false, Started(sizes[0], block, io), n))
    decreases n
  {
    StartOnTrack(sizes[0], block, Least(io, Blocks(sizes[0], block)));
    if n > 0 { StaysOnTrack(sizes, block, io, n - 1); }
  }

  /** While files are left, the reads in flight are those it started with, which are no more
      than the first file has blocks, less the empty files opened since. */
  lemma InFlight(sizes: seq<nat>, block: nat, io: nat, n: nat)
    requires |sizes| > 0 && block > 0 && io > 0
    ensures var cur := After(sizes, block, false, Started(sizes[0], block, io), n);
      cur.index < |sizes| ==>
        cur.active + EmptyUpTo(sizes, cur.index) == Least(io, Blocks(sizes[0], block))
  {
    StaysOnTrack(sizes, block, io, n);
  }

  /** Reads still to come if nothing is lost. */
  function BlocksOf(sizes: seq<nat>, block: nat, lo: nat, hi: nat): nat
    requires block > 0
    decreases hi - lo
  {
    if lo >= hi || lo >= |sizes| then 0 else Blocks(sizes[lo], block) + BlocksOf(sizes, block, lo + 1, hi)
  }

  lemma {:induction false} AfterShift(sizes: seq<nat>, block: nat, loop: bool, cur: Cursor, n: nat)
    ensures After(sizes, block, loop, Completion(sizes, block, loop, cur), n) == After(sizes, block, loop, cur, n + 1)
    decreases n
  {
    if n > 0 { AfterShift(sizes, block, loop, cur, n - 1); }
  }

  /** A reader that does not loop comes to its last outstanding completion. */
  lemma {:induction false} Quiesces(sizes: seq<nat>, block: nat, cur: Cursor) returns (n: nat)
    requires cur.active > 0 && block > 0
    ensures After(sizes, block, false, cur, n).active > 0 && After(sizes, block, false, cur, n + 1).active == 0
    decreases cur.active + Blocks(cur.remaining, block) + BlocksOf(sizes, block, cur.index + 1, |sizes|)
  {
    var cur' := Completion(sizes, block, false, cur);
    assert After(sizes, block, false, cur, 1) == cur' by { assert After(sizes, block, false, cur, 0) == cur; }
    if cur'.active == 0 {
      n := 0;
    } else {
      n := Quiesces(sizes, block, cur');
      AfterShift(sizes, block, false, cur, n);
      AfterShift(sizes, block, false, cur, n + 1);
      n := n + 1;
    }
  }

  /** Without errors and whatever the order of completions, a reader that does not loop gets
      past every file of its list and ends, exactly if it starts with more reads in flight
      than there are empty files between the first and the last. */
  lemma ExitsIff(sizes: seq<nat>, block: nat, io: nat)
    requires |sizes| > 0 && block > 0 && io > 0
    ensures Exits(sizes, block, false, Started(sizes[0], block, io)) <==>
      InnerEmpty(sizes) < Least(io, Blocks(sizes[0], block))
  {
    var cur := Started(sizes[0], block, io);
    if InnerEmpty(sizes) < cur.active {
      var n := Quiesces(sizes, block, cur);
      StaysOnTrack(sizes, block, io, n + 1);
      QuietIsPast(sizes, cur.active, After(sizes, block, false, cur, n + 1));
      assert ExitsAt(sizes, block, false, cur, n);
    } else {
      forall n: nat ensures !ExitsAt(sizes, block, false, cur, n) {
        StaysOnTrack(sizes, block, io, n);
        StaysOnTrack(sizes, block, io, n + 1);
        if ExitsAt(sizes, block, false, cur, n) {
          PastNeedsReads(sizes, cur.active, After(sizes, block, false, cur, n + 1));
        }
      }
    }
  }

  lemma QuietIsPast(sizes: seq<nat>, w: nat, cur: Cursor)
    requires OnTrack(sizes, w, cur) && cur.active == 0 && InnerEmpty(sizes) < w
    ensures Past(sizes, cur)
  {
    if cur.index + 1 < |sizes| { EmptyUpToMono(sizes, cur.index, |sizes| - 2); }
  }

  lemma PastNeedsReads(sizes: seq<nat>, w: nat, cur: Cursor)
    requires OnTrack(sizes, w, cur) && Past(sizes, cur) && w > 0
    ensures InnerEmpty(sizes) < w
  {
    if |sizes| >= 2 { EmptyUpToMono(sizes, |sizes| - 2, |sizes| - 1); }
  }

  /** One request, and an empty file between two others: the third is never read. */
  lemma StallIsReachable()
    ensures var cur := After([1, 0, 1], 1, false, Started(1, 1, 1), 1);
      Stalled([1, 0, 1], cur) && cur.index == 1
    ensures !Exits([1, 0, 1], 1, false, Started(1, 1, 1))
  {
    var sizes: seq<nat> := [1, 0, 1];
    var cur := Started(1, 1, 1);
    assert Blocks(1, 1) == 1 && cur == Cursor(0, 0, 1);
    assert After(sizes, 1, false, cur, 0) == cur;
    assert Completion(sizes, 1, false, cur) == Cursor(1, 0, 0);
    assert InnerEmpty(sizes) == 1;
    ExitsIff(sizes, 1, 1);
  }

  /** A reader told to loop goes on for ever exactly if no file of its list is empty. */
  lemma LoopsForEverIff(sizes: seq<nat>, block: nat, io: nat)
    requires |sizes| > 0 && block > 0 && io > 0
    ensures (forall n: nat :: After(sizes, block, true, Started(sizes[0], block, io), n).active > 0) <==>
            forall k :: 0 <= k < |sizes| ==> sizes[k] > 0
  {
    var cur := Started(sizes[0], block, io);
    StartOnTrack(sizes[0], block, Least(io, Blocks(sizes[0], block)));
    if e :| 0 <= e < |sizes| && sizes[e] == 0 {
      var n := RunsDry(sizes, block, cur, e);
    } else {
      forall n: nat ensures After(sizes, block, true, cur, n).active > 0 { KeepsReading(sizes, block, cur, n); }
    }
  }

  lemma {:induction false} KeepsReading(sizes: seq<nat>, block: nat, cur: Cursor, n: nat)
    requires block > 0 && cur.index < |sizes| && cur.active > 0 && forall k :: 0 <= k < |sizes| ==> sizes[k] > 0
    ensures var cur' := After(sizes, block, true, cur, n); cur'.index < |sizes| && cur'.active == cur.active
    decreases n
  {
    if n > 0 { KeepsReading(sizes, block, cur, n - 1); }
  }

  /** Blocks that a looping reader reads before it comes to file e. */
  function Ahead(sizes: seq<nat>, block: nat, cur: Cursor, e: nat): nat
    requires block > 0
  {
    Blocks(cur.remaining, block) +
    if cur.index < e then BlocksOf(sizes, block, cur.index + 1, e)
    else BlocksOf(sizes, block, cur.index + 1, |sizes|) + BlocksOf(sizes, block, 0, e)
  }

  lemma {:induction false} RunsDry(sizes: seq<nat>, block: nat, cur: Cursor, e: nat) returns (n: nat)
    requires block > 0 && cur.index < |sizes| && e < |sizes| && sizes[e] == 0
    ensures After(sizes, block, true, cur, n).active == 0
    decreases cur.active, Ahead(sizes, block, cur, e)
  {
    if cur.active == 0 {
      n := 0;
    } else {
      var cur' := Completion(sizes, block, true, cur);
      n := RunsDry(sizes, block, cur', e);
      AfterShift(sizes, block, true, cur, n);
      n := n + 1;
    }
  }
}
