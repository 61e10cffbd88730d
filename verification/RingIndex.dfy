/** Rings of power-of-two size addressed by free-running indices of a fixed word width:
    the arithmetic that the byte queue and the descriptor queue share. */
module RingIndex {
  import opened Basics
  import opened Bits
  import opened Modular

  predicate IsWord(word: nat) {
    word == WORD32 || word == WORD64
  }

  /** Entries in the ring, from the two indices. */
  function Used(word: nat, putIndex: nat, getIndex: nat): nat
    requires word > 0
  {
    (putIndex - getIndex) % word
  }

  function FreeSpace(word: nat, size: nat, putIndex: nat, getIndex: nat): nat
    requires word > 0
  {
    (size - putIndex + getIndex) % word
  }

  /** Array position of an index: index & (size - 1). */
  function Position(index: nat, size: nat): nat
    requires size > 0
  {
    And(index, size - 1)
  }

  ghost predicate RingSize(size: nat) {
    exists k: nat :: k <= 31 && size == Pow2(k)
  }

  lemma PositionIsMod(index: nat, size: nat)
    requires RingSize(size)
    ensures 0 < size <= 0x8000_0000 && WORD32 % size == 0 && WORD64 % size == 0
    ensures Position(index, size) == index % size < size
  {
    var k: nat :| k <= 31 && size == Pow2(k);
    AndMask(index, k);
    Pow2Values();
    Pow2Mono(k, 31);
    Pow2Divides(k, 32);
    Pow2Of64();
    Pow2Divides(k, 64);
  }

  lemma PositionDistinct(a: nat, b: nat, size: nat)
    requires RingSize(size) && a < b < a + size
    ensures Position(a, size) != Position(b, size)
  {
    PositionIsMod(a, size);
    PositionIsMod(b, size);
    ModDistinct(a, b, size);
  }

  /** Reducing an index to the word width does not move it: the size divides it. */
  lemma PositionWraps(word: nat, index: nat, j: nat, size: nat)
    requires IsWord(word) && RingSize(size)
    ensures Position(index % word + j, size) == Position(index + j, size)
  {
    PositionIsMod(index % word + j, size);
    PositionIsMod(index + j, size);
    ModOfMultiple(index, word, size);
    ModAdd(index % word, j, size);
    ModAdd(index, j, size);
  }

  /** Positions run to the end of the buffer and go on from its start. */
  lemma PositionLap(index: nat, j: nat, size: nat)
    requires RingSize(size) && j <= size
    ensures var p := Position(index, size);
      p < size && Position(index + j, size) == if p + j < size then p + j else p + j - size
  {
    PositionIsMod(index, size);
    PositionIsMod(index + j, size);
    ModAdd(index, j, size);
    ModLap(index % size, j, size);
  }

  lemma FreeIsRest(word: nat, size: nat, putIndex: nat, getIndex: nat)
    requires IsWord(word) && size < word && Used(word, putIndex, getIndex) <= size
    ensures FreeSpace(word, size, putIndex, getIndex) == size - Used(word, putIndex, getIndex)
  {
    if word == WORD32 {} else {}
  }

  lemma UsedAfterPut(word: nat, putIndex: nat, getIndex: nat, n: nat)
    requires IsWord(word) && Used(word, putIndex, getIndex) + n < word
    ensures Used(word, (putIndex + n) % word, getIndex) == Used(word, putIndex, getIndex) + n
  {
    if word == WORD32 {} else {}
  }

  lemma UsedAfterGet(word: nat, putIndex: nat, getIndex: nat, n: nat)
    requires IsWord(word) && n <= Used(word, putIndex, getIndex)
    ensures Used(word, putIndex, (getIndex + n) % word) == Used(word, putIndex, getIndex) - n
  {
    if word == WORD32 {} else {}
  }

  lemma EqualIndices(word: nat, putIndex: nat, getIndex: nat)
    requires IsWord(word) && putIndex < word && getIndex < word
    ensures putIndex == getIndex <==> Used(word, putIndex, getIndex) == 0
  {
    if word == WORD32 {} else {}
  }

  // ---- contents ----

  /** What a reader of the ring would see, oldest entry first. */
  ghost function RingContents<T>(word: nat, buffer: seq<T>, putIndex: nat, getIndex: nat): (s: seq<T>)
    requires RingSize(|buffer|) && word > 0
  {
    seq(Used(word, putIndex, getIndex), i requires i >= 0 => At(buffer, getIndex + i))
  }

  ghost function At<T>(buffer: seq<T>, index: nat): T
    requires RingSize(|buffer|)
  {
    PositionIsMod(index, |buffer|);
    buffer[Position(index, |buffer|)]
  }

  /** b' is b with data written at index and the positions after it. */
  ghost predicate Written<T>(b: seq<T>, b': seq<T>, index: nat, data: seq<T>)
    requires RingSize(|b|)
  {
    && |b'| == |b|
    && (forall j :: 0 <= j < |data| ==> At(b', index + j) == data[j])
    && (forall k: nat :: index + |data| <= k + |b| && k < index ==> At(b', k) == At(b, k))
  }

  /** Writing data at the producer's positions appends it to what the reader sees. */
  lemma Appended<T>(word: nat, b: seq<T>, b': seq<T>, putIndex: nat, getIndex: nat, data: seq<T>)
    requires IsWord(word) && RingSize(|b|)
    requires Used(word, putIndex, getIndex) + |data| <= |b|
    requires Written(b, b', getIndex + Used(word, putIndex, getIndex), data)
    ensures Used(word, (putIndex + |data|) % word, getIndex) == Used(word, putIndex, getIndex) + |data|
    ensures RingContents(word, b', (putIndex + |data|) % word, getIndex)
         == RingContents(word, b, putIndex, getIndex) + data
  {
    var n, u := |data|, Used(word, putIndex, getIndex);
    PositionIsMod(0, |b|);
    UsedAfterPut(word, putIndex, getIndex, n);
    var l := RingContents(word, b', (putIndex + n) % word, getIndex);
    var r := RingContents(word, b, putIndex, getIndex) + data;
    forall i | 0 <= i < u + n ensures l[i] == r[i] {
      if i >= u { assert At(b', getIndex + u + (i - u)) == data[i - u]; }
    }
  }

  lemma PutIsGetPlusUsed(word: nat, putIndex: nat, getIndex: nat)
    requires IsWord(word) && putIndex < word && getIndex < word
    ensures (getIndex + Used(word, putIndex, getIndex)) % word == putIndex
  {
    if word == WORD32 {} else {}
  }

  /** The producer's j-th entry lands just behind those already in the ring. */
  lemma SamePosition(word: nat, putIndex: nat, getIndex: nat, j: nat, size: nat)
    requires IsWord(word) && RingSize(size) && putIndex < word && getIndex < word
    ensures Position(putIndex + j, size) == Position(getIndex + Used(word, putIndex, getIndex) + j, size)
  {
    PutIsGetPlusUsed(word, putIndex, getIndex);
    PositionWraps(word, getIndex + Used(word, putIndex, getIndex), j, size);
  }

  /** Advancing the reader drops the oldest entries. */
  lemma Dropped<T>(word: nat, b: seq<T>, putIndex: nat, getIndex: nat, n: nat)
    requires IsWord(word) && RingSize(|b|)
    requires n <= Used(word, putIndex, getIndex) <= |b|
    ensures Used(word, putIndex, (getIndex + n) % word) == Used(word, putIndex, getIndex) - n
    ensures RingContents(word, b, putIndex, (getIndex + n) % word) == RingContents(word, b, putIndex, getIndex)[n..]
  {
    UsedAfterGet(word, putIndex, getIndex, n);
    var l := RingContents(word, b, putIndex, (getIndex + n) % word);
    var r := RingContents(word, b, putIndex, getIndex)[n..];
    forall i | 0 <= i < |l| ensures l[i] == r[i] {
      PositionWraps(word, getIndex + n, i, |b|);
      assert r[i] == At(b, getIndex + (n + i));
    }
  }
}
