/** The reads that a file is cut into: block by block, the last one shorter. */
module Tiling {
  import opened Basics
  import opened Bits

  /** Reads that a file of n bytes takes, b bytes at a time. */
  function Blocks(n: nat, b: nat): nat
    requires b > 0
    decreases n
  {
    if n == 0 then 0 else 1 + Blocks(n - Least(n, b), b)
  }

  const SIZES: nat := 0x8000_0000_0000_0000   // file lengths are below 2^63

  function GetTotalRequestCount(size: nat, block: nat): nat
    requires block > 0
  {
    (size + block - 1) % WORD64 / block
  }

  lemma {:induction false} BlocksIsCeiling(n: nat, b: nat)
    requires b > 0
    ensures (n + b - 1) / b == Blocks(n, b)
    decreases n
  {
    if n > b {
      BlocksIsCeiling(n - b, b);
      var q, r := (n - b + b - 1) / b, (n - b + b - 1) % b;
      assert n + b - 1 == b * (q + 1) + r;
      DivModUnique(n + b - 1, b, q + 1, r);
    } else if n > 0 {
      DivModUnique(n + b - 1, b, 1, n - 1);
      assert Blocks(n, b) == 1 + Blocks(0, b);
    } else {
      DivModUnique(b - 1, b, 0, b - 1);
    }
  }

  /** The rounded-up division counts the reads of the file. */
  lemma TotalIsBlocks(size: nat, block: nat)
    requires 0 < block < WORD32 && size < SIZES
    ensures GetTotalRequestCount(size, block) == Blocks(size, block)
  {
    assert (size + block - 1) % WORD64 == size + block - 1;
    hide Blocks;
    BlocksIsCeiling(size, block);
  }

  datatype ReadTask = ReadTask(offset: nat, length: nat)

  /** The reads of a file from `offset` on. */
  function Tiles(offset: nat, size: nat, block: nat): seq<ReadTask>
    requires block > 0 && offset <= size
    decreases size - offset
  {
    if offset == size then []
    else
      var length := Least(block, size - offset);
      [ReadTask(offset, length)] + Tiles(offset + length, size, block)
  }

  predicate Covers(t: ReadTask, x: nat) { t.offset <= x < t.offset + t.length }

  /** The reads are as many as the ceiling says, and cut the file without gap or overlap. */
  lemma {:induction false} TilesPartition(offset: nat, size: nat, block: nat)
    requires block > 0 && offset <= size
    ensures var tiles := Tiles(offset, size, block);
      && |tiles| == Blocks(size - offset, block)
      && (forall k :: 0 <= k < |tiles| ==> 0 < tiles[k].length <= block)
      && (forall k :: 0 <= k < |tiles| ==> tiles[k].offset >= offset && tiles[k].offset + tiles[k].length <= size)
      && (forall k :: 0 < k < |tiles| ==> tiles[k].offset == tiles[k - 1].offset + tiles[k - 1].length)
      && (tiles != [] ==> tiles[0].offset == offset)
      && (tiles != [] ==> tiles[|tiles| - 1].offset + tiles[|tiles| - 1].length == size)
    decreases size - offset
  {
    if offset < size {
      TilesPartition(offset + Least(block, size - offset), size, block);
    }
  }

  /** Tile k is the only one that covers byte x. */
  ghost predicate OnlyTile(tiles: seq<ReadTask>, k: nat, x: nat) {
    k < |tiles| && forall j :: 0 <= j < |tiles| ==> (Covers(tiles[j], x) <==> j == k)
  }

  /** Every byte of the file is in exactly one read. */
  lemma {:induction false} EveryByteOnce(offset: nat, size: nat, block: nat, x: nat) returns (k: nat)
    requires block > 0 && offset <= x < size
    ensures OnlyTile(Tiles(offset, size, block), k, x)
    decreases size - offset
  {
    var tiles, next := Tiles(offset, size, block), offset + Least(block, size - offset);
    var rest := Tiles(next, size, block);
    TilesPartition(next, size, block);
    assert tiles == [ReadTask(offset, next - offset)] + rest;
    hide Tiles;
    if x < next {
      k := 0;
      forall j | 0 < j < |tiles| ensures !Covers(tiles[j], x) { assert tiles[j] == rest[j - 1]; }
    } else {
      k := EveryByteOnce(next, size, block, x);
      k := k + 1;
      forall j | 0 < j < |tiles| ensures Covers(tiles[j], x) <==> j == k { assert tiles[j] == rest[j - 1]; }
    }
  }

  lemma NoTiles(size: nat, block: nat)
    requires block > 0
    ensures Tiles(size, size, block) == []
  {}

  lemma TilesStep(tasks: seq<ReadTask>, offset: nat, size: nat, block: nat)
    requires block > 0 && offset < size
    ensures var length := Least(block, size - offset);
      tasks + Tiles(offset, size, block) == tasks + [ReadTask(offset, length)] + Tiles(offset + length, size, block)
  {}
}
