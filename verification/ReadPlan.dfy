/** How files are cut into reads: the producer's tiling and its throttle, and the two
    readers that follow whatever lengths the kernel returns. */
module ReadPlan {
  import opened Basics
  import opened Tiling

  // ---- the bound on pending tasks ----

  /** Tasks allowed beyond n if no slack is configured: half as many up to 16, an eighth from 64
      on, and 8 in between. */
  function AutoSlack(n: nat): nat {
    if n < 2 then 1 else if n < 16 then n / 2 else if n < 64 then 8 else n / 8
  }

  /** The soft limit that ProducerThread computes: at least one task per outstanding request,
      and fewer than the slots of the ring, for every configured slack. */
  method SoftLimit(io: nat, workers: nat, slack: nat) returns (softLimit: nat)
    requires io < WORD32 && slack < WORD32
    ensures softLimit >= io && softLimit >= 1
    ensures 1 <= io < 0x1000_0000 ==> softLimit <= MAX_DISORDER_GROUPS * io - 1
    ensures 1 <= io < 0x1000_0000 ==> softLimit == MAX_DISORDER_GROUPS * io - 1 || softLimit > io
    ensures 1 <= io < 0x1000_0000 && slack == 0 ==> softLimit == io + AutoSlack(io)
    ensures 1 <= io < 0x1000_0000 && slack > 0 ==> softLimit == Least(io + slack, MAX_DISORDER_GROUPS * io - 1)
    ensures var n := if io > 0 then io else Most(workers, 1);
      var wanted, slots := n + (if slack > 0 then slack else AutoSlack(n)), MAX_DISORDER_GROUPS * io % WORD32;
      softLimit == if slots == 0 then wanted else Most(n, Least(wanted, slots - 1))
  {
    var totalSlots := (MAX_DISORDER_GROUPS * io) % WORD32;
    var workerCount := if workers == 0 then io else workers;
    if workerCount == 0 { workerCount := 1; }
    var concurrency := if io > 0 then io else workerCount;
    if concurrency == 0 { concurrency := 1; }
    var minSoftLimit := concurrency;
    var configuredSlack := slack;
    if slack == 0 {
      configuredSlack := Most(minSoftLimit / 8, 8);
      var maxAutoSlack := minSoftLimit / 2;
      if maxAutoSlack == 0 { maxAutoSlack := 1; }
      configuredSlack := Least(configuredSlack, maxAutoSlack);
    }
    softLimit := minSoftLimit + configuredSlack;
    if totalSlots > 0 {
      var maxAllowed := if totalSlots > 1 then totalSlots - 1 else totalSlots;
      softLimit := Least(softLimit, maxAllowed);
    }
    if softLimit < minSoftLimit { softLimit := minSoftLimit; }
  }

  // ---- tiling ----

  /** The producer's loop over one file; it is stopped, or refused capacity, after at most
      `limit` tasks. */
  method EnqueueFile(size: nat, block: nat, limit: nat) returns (tasks: seq<ReadTask>)
    requires 0 < block < WORD32 && size < SIZES
    ensures tasks <= Tiles(0, size, block) && |tasks| <= limit
    ensures |tasks| < limit ==> tasks == Tiles(0, size, block) && |tasks| == GetTotalRequestCount(size, block)
  {
    TotalIsBlocks(size, block);
    TilesPartition(0, size, block);
    ghost var all := Tiles(0, size, block);
    NoTiles(size, block);
    hide Tiles, Blocks, GetTotalRequestCount;
    tasks := [];
    var remaining: nat, offset: nat := size, 0;
    while remaining > 0 && |tasks| < limit
      invariant remaining + offset == size && |tasks| <= limit
      invariant all == tasks + Tiles(offset, size, block)
      decreases remaining
    {
      TilesStep(tasks, offset, size, block);
      var length := Least(block, remaining);
      tasks := tasks + [ReadTask(offset, length)];
      remaining := remaining - length;
      offset := offset + length;
    }
  }

  // ---- reading with short reads ----

  /** A block handed on: its bytes, their place in the file, and its request index. */
  datatype Block = Block(bytes: seq<Byte>, offset: nat, index: nat)

  function BytesOf(blocks: seq<Block>): seq<Byte> {
    if blocks == [] then [] else BytesOf(blocks[..|blocks| - 1]) + blocks[|blocks| - 1].bytes
  }

  lemma {:induction false} BytesOfAppend(a: seq<Block>, b: seq<Block>)
    ensures BytesOf(a + b) == BytesOf(a) + BytesOf(b)
  {
    assert BytesOf([]) == [];
    hide BytesOf;
    if b == [] {
      assert a + b == a && BytesOf(a) + [] == BytesOf(a);
    } else {
      var m, last := b[..|b| - 1], b[|b| - 1];
      BytesOfAppend(a, m);
      assert b == m + [last] && a + b == (a + m) + [last];
      BytesOfOne(a + m, last);
      BytesOfOne(m, last);
      assert (BytesOf(a) + BytesOf(m)) + last.bytes == BytesOf(a) + (BytesOf(m) + last.bytes);
    }
  }

  /** Where block k of a file goes: right behind block k - 1. */
  function Place(blocks: seq<Block>, k: nat): nat
    requires k <= |blocks|
  {
    if k == 0 then 0 else blocks[k - 1].offset + |blocks[k - 1].bytes|
  }

  /** Blocks of one file: consecutive from its start, with consecutive indices. */
  ghost predicate Follows(blocks: seq<Block>, content: seq<Byte>, first: nat, block: nat) {
    && BytesOf(blocks) <= content && |BytesOf(blocks)| == Place(blocks, |blocks|)
    && forall k :: 0 <= k < |blocks| ==> InPlace(blocks, k, first, block)
  }

  ghost predicate InPlace(blocks: seq<Block>, k: nat, first: nat, block: nat)
    requires k < |blocks|
  {
    0 < |blocks[k].bytes| <= block && blocks[k].index == first + k && blocks[k].offset == Place(blocks, k)
  }

  /** What reading a file handed on, given what pread answered: consecutive blocks from its
      start, each as long as the answer and what is left allow; then either a failing answer,
      or the end of the file, or the answers ran out. The index claimed by a failing read is
      not used again. */
  ghost predicate ReadAs(content: seq<Byte>, block: nat, answers: seq<int>, first: nat, blocks: seq<Block>,
                         failed: bool) {
    var used := |blocks| + if failed then 1 else 0;
    && Follows(blocks, content, first, block) && used <= |answers|
    && (forall k :: 0 <= k < |blocks| ==> Answered(blocks[k], content, answers[k]))
    && (failed ==> answers[used - 1] <= 0 && |BytesOf(blocks)| < |content|)
    && (!failed && used < |answers| ==> BytesOf(blocks) == content)
  }

  predicate Answered(b: Block, content: seq<Byte>, answer: int) {
    b.offset < |content| && |b.bytes| == if answer < |content| - b.offset then answer else |content| - b.offset
  }

  /** The read loop of one file. `answers` are what pread returns, in order: a number of
      bytes, or zero or less for the end of the file or an error; the loop stops for good
      when they run out. */
  method ReadFile(content: seq<Byte>, block: nat, answers: seq<int>, first: nat)
    returns (blocks: seq<Block>, used: nat, failed: bool)
    requires block > 0
    requires forall k :: 0 <= k < |answers| ==> answers[k] <= block
    ensures ReadAs(content, block, answers, first, blocks, failed)
    ensures used == |blocks| + if failed then 1 else 0
  {
    hide BytesOf, Follows;
    NoBlocks(content, first, block);
    blocks, used, failed := [], 0, false;
    var offset: nat, remaining: nat := 0, |content|;
    while remaining > 0 && used < |answers|
      invariant offset + remaining == |content| && BytesOf(blocks) == content[..offset]
      invariant used <= |answers| && |blocks| == used && !failed
      invariant Follows(blocks, content, first, block)
      invariant forall k :: 0 <= k < |blocks| ==> Answered(blocks[k], content, answers[k])
      decreases remaining
    {
      var readLength := Least(block, remaining);
      var n := if answers[used] < readLength then answers[used] else readLength;
      used := used + 1;
      if n <= 0 { return blocks, used, true; }
      var b := Block(content[offset..offset + n], offset, first + used - 1);
      FollowsNext(blocks, content, first, block, b);
      blocks := blocks + [b];
      remaining := remaining - n;
      offset := offset + n;
    }
    assert remaining == 0 ==> content[..offset] == content;
  }

  lemma NoBlocks(content: seq<Byte>, first: nat, block: nat)
    ensures BytesOf([]) == content[..0] && Follows([], content, first, block)
  {}

  lemma FollowsNext(blocks: seq<Block>, content: seq<Byte>, first: nat, block: nat, b: Block)
    requires b.offset + |b.bytes| <= |content|
    requires Follows(blocks, content, first, block) && BytesOf(blocks) == content[..b.offset]
    requires 0 < |b.bytes| <= block && b.index == first + |blocks|
    requires b.bytes == content[b.offset..b.offset + |b.bytes|]
    ensures Follows(blocks + [b], content, first, block)
    ensures BytesOf(blocks + [b]) == content[..b.offset + |b.bytes|]
  {
    var all, end := blocks + [b], b.offset + |b.bytes|;
    assert content[..b.offset] + b.bytes == content[..end];
    BytesOfOne(blocks, b);
    InPlaceNext(blocks, content, first, block, b);
    hide BytesOf, InPlace;
  }

  lemma InPlaceNext(blocks: seq<Block>, content: seq<Byte>, first: nat, block: nat, b: Block)
    requires b.offset + |b.bytes| <= |content|
    requires Follows(blocks, content, first, block) && BytesOf(blocks) == content[..b.offset]
    requires 0 < |b.bytes| <= block && b.index == first + |blocks|
    ensures Place(blocks + [b], |blocks| + 1) == b.offset + |b.bytes|
    ensures forall k :: 0 <= k <= |blocks| ==> InPlace(blocks + [b], k, first, block)
  {
    var all := blocks + [b];
    hide BytesOf;
    forall k | 0 <= k < |all| ensures InPlace(all, k, first, block) {
      if k < |blocks| { assert InPlace(blocks, k, first, block); }
    }
  }

  lemma BytesOfOne(blocks: seq<Block>, b: Block)
    ensures BytesOf(blocks + [b]) == BytesOf(blocks) + b.bytes
  {
    assert (blocks + [b])[..|blocks|] == blocks;
  }

  /** The first ends[i] bytes of each file, in list order. */
  function Joined(files: seq<seq<Byte>>, ends: seq<nat>): seq<Byte>
    requires |files| == |ends| && forall i :: 0 <= i < |files| ==> ends[i] <= |files[i]|
  {
    if files == [] then []
    else
      var n := |files| - 1;
      Joined(files[..n], ends[..n]) + files[n][..ends[n]]
  }

  function Failures(failed: seq<bool>): nat {
    if failed == [] then 0 else Failures(failed[..|failed| - 1]) + if failed[|failed| - 1] then 1 else 0
  }

  /** The index of the first block of file i: one for each block before it, and one for each
      read that failed before it. */
  function FirstIndex(parts: seq<seq<Block>>, failed: seq<bool>, i: nat): nat
    requires i <= |parts| == |failed|
  {
    |Concat(parts[..i])| + Failures(failed[..i])
  }

  ghost predicate ReadsAsAnswered(files: seq<seq<Byte>>, block: nat, answers: seq<seq<int>>, parts: seq<seq<Block>>,
                                  failed: seq<bool>)
    requires |parts| == |failed| <= |files| == |answers|
  {
    forall i :: 0 <= i < |parts| ==> ReadAs(files[i], block, answers[i], FirstIndex(parts, failed, i), parts[i],
                                            failed[i])
  }

  /** One pass over the file list, a file given up at its first failing read. What is handed
      on are the blocks of each file in list order, exactly those that the answers call for;
      `failures` counts the files that were given up, and a block's index is its place plus
      the failures before it. */
  method ReadFiles(files: seq<seq<Byte>>, block: nat, answers: seq<seq<int>>)
    returns (blocks: seq<Block>, ghost parts: seq<seq<Block>>, ghost failed: seq<bool>, failures: nat)
    requires block > 0 && |answers| == |files|
    requires forall i, k :: 0 <= i < |answers| && 0 <= k < |answers[i]| ==> answers[i][k] <= block
    ensures |parts| == |failed| == |files| && blocks == Concat(parts)
    ensures ReadsAsAnswered(files, block, answers, parts, failed) && failures == Failures(failed)
  {
    blocks, parts, failed, failures := [], [], [], 0;
    var counter := 0;
    assert Concat<Block>([]) == [] && Failures([]) == 0;
    hide ReadAs, Concat, Failures;
    for i := 0 to |files|
      invariant |parts| == |failed| == i && blocks == Concat(parts) && failures == Failures(failed)
      invariant counter == |blocks| + failures && ReadsAsAnswered(files, block, answers, parts, failed)
    {
      var more, used, fails := ReadFile(files[i], block, answers[i], counter);
      OnePart(parts, failed, more, fails);
      OneMoreRead(files, block, answers, parts, failed, more, fails);
      blocks, parts, failed := blocks + more, parts + [more], failed + [fails];
      counter := counter + used;
      if fails { failures := failures + 1; }
    }
  }

  lemma OnePart(parts: seq<seq<Block>>, failed: seq<bool>, more: seq<Block>, fails: bool)
    ensures Concat(parts + [more]) == Concat(parts) + more
    ensures Failures(failed + [fails]) == Failures(failed) + if fails then 1 else 0
  {
    ConcatOne(parts, more);
    assert (failed + [fails])[..|failed|] == failed;
  }

  lemma OneMoreRead(files: seq<seq<Byte>>, block: nat, answers: seq<seq<int>>, parts: seq<seq<Block>>,
                    failed: seq<bool>,
                    more: seq<Block>, fails: bool)
    requires |parts| == |failed| < |files| == |answers| && ReadsAsAnswered(files, block, answers, parts, failed)
    requires ReadAs(files[|parts|], block, answers[|parts|], |Concat(parts)| + Failures(failed), more, fails)
    ensures ReadsAsAnswered(files, block, answers, parts + [more], failed + [fails])
  {
    hide ReadAs, FirstIndex, Concat, Failures;
    var p, f := parts + [more], failed + [fails];
    forall i | 0 <= i < |p| ensures ReadAs(files[i], block, answers[i], FirstIndex(p, f, i), p[i], f[i]) {
      FirstIndexSame(parts, failed, more, fails, i);
    }
  }

  lemma FirstIndexSame(parts: seq<seq<Block>>, failed: seq<bool>, more: seq<Block>, fails: bool, i: nat)
    requires |parts| == |failed| && i <= |parts|
    ensures FirstIndex(parts + [more], failed + [fails], i) == FirstIndex(parts, failed, i)
    ensures FirstIndex(parts, failed, |parts|) == |Concat(parts)| + Failures(failed)
  {
    hide Concat, Failures;
    assert (parts + [more])[..i] == parts[..i] && (failed + [fails])[..i] == failed[..i];
    assert parts[..|parts|] == parts && failed[..|parts|] == failed;
  }

  /** How much of each file its blocks hold. */
  function Ends(parts: seq<seq<Block>>): (ends: seq<nat>)
    ensures |ends| == |parts| && forall i :: 0 <= i < |ends| ==> ends[i] == |BytesOf(parts[i])|
  {
    if parts == [] then [] else Ends(parts[..|parts| - 1]) + [|BytesOf(parts[|parts| - 1])|]
  }

  /** What ReadFiles hands on concatenates to a prefix of each file, in list order: a proper one
      if the file was given up, and otherwise all of it unless its answers ran out. */
  lemma PrefixOfEachFile(files: seq<seq<Byte>>, block: nat, answers: seq<seq<int>>, parts: seq<seq<Block>>,
                         failed: seq<bool>)
    requires |parts| == |failed| == |files| == |answers| && ReadsAsAnswered(files, block, answers, parts, failed)
    ensures forall i :: 0 <= i < |files| ==> Ends(parts)[i] <= |files[i]|
    ensures BytesOf(Concat(parts)) == Joined(files, Ends(parts))
    ensures forall i :: 0 <= i < |files| ==> (failed[i] ==> Ends(parts)[i] < |files[i]|)
    ensures forall i :: 0 <= i < |files| && !failed[i] && |parts[i]| < |answers[i]| ==> Ends(parts)[i] == |files[i]|
  {
    forall i | 0 <= i < |files|
      ensures BytesOf(parts[i]) <= files[i] && (failed[i] ==> |BytesOf(parts[i])| < |files[i]|)
      ensures !failed[i] && |parts[i]| < |answers[i]| ==> |BytesOf(parts[i])| == |files[i]|
    {
      PartIsPrefix(files[i], block, answers[i], FirstIndex(parts, failed, i), parts[i], failed[i]);
    }
    hide ReadsAsAnswered;
    JoinedParts(files, parts);
  }

  lemma PartIsPrefix(content: seq<Byte>, block: nat, answers: seq<int>, first: nat, blocks: seq<Block>, failed: bool)
    requires ReadAs(content, block, answers, first, blocks, failed)
    ensures BytesOf(blocks) <= content && (failed ==> |BytesOf(blocks)| < |content|)
    ensures !failed && |blocks| < |answers| ==> BytesOf(blocks) == content
  {
    hide BytesOf, InPlace, Answered;
  }

  lemma {:induction false} JoinedParts(files: seq<seq<Byte>>, parts: seq<seq<Block>>)
    requires |parts| == |files| && forall i :: 0 <= i < |files| ==> BytesOf(parts[i]) <= files[i]
    ensures BytesOf(Concat(parts)) == Joined(files, Ends(parts))
  {
    if parts != [] {
      var n := |parts| - 1;
      JoinedParts(files[..n], parts[..n]);
      hide BytesOf;
      BytesOfAppend(Concat(parts[..n]), parts[n]);
      assert BytesOf(parts[n]) == files[n][..|BytesOf(parts[n])|];
      assert Ends(parts)[..n] == Ends(parts[..n]);
    } else {
      assert BytesOf([]) == [];
    }
  }

  /** The index of each block: its place among all that were handed on, and the failures in
      the files before its own. */
  lemma IndexSkipsFailures(files: seq<seq<Byte>>, block: nat, answers: seq<seq<int>>,
                           parts: seq<seq<Block>>, failed: seq<bool>, i: nat, k: nat)
    requires |parts| == |failed| == |files| == |answers| && ReadsAsAnswered(files, block, answers, parts, failed)
    requires i < |parts| && k < |parts[i]|
    ensures |Concat(parts[..i])| + k < |Concat(parts)| && Concat(parts)[|Concat(parts[..i])| + k] == parts[i][k]
    ensures parts[i][k].index == |Concat(parts[..i])| + k + Failures(failed[..i])
  {
    assert InPlace(parts[i], k, FirstIndex(parts, failed, i), block);
    hide BytesOf, Failures, Answered;
    ConcatAt(parts, i, k);
  }

  lemma {:induction false} ConcatAt(parts: seq<seq<Block>>, i: nat, k: nat)
    requires i < |parts| && k < |parts[i]|
    ensures |Concat(parts[..i])| + k < |Concat(parts)| && Concat(parts)[|Concat(parts[..i])| + k] == parts[i][k]
    decreases |parts|
  {
    var n := |parts| - 1;
    if i < n {
      ConcatAt(parts[..n], i, k);
      assert parts[..n][..i] == parts[..i];
    }
  }
}
