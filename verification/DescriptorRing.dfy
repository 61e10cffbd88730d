/** The descriptor queue of pcie/SPSCDescriptorQueue.cpp: a power-of-two ring of buffer
    descriptors with free-running 64-bit indices. */
module DescriptorRing {
  import opened Basics
  import opened Bits
  import opened BufferPool
  import opened RingIndex

  /** A block, its length, and the pool to give it back to. */
  datatype Descriptor = Descriptor(ptr: Ptr, length: nat, context: AlignedBufferPool?)

  const WORD: nat := WORD64

  class SPSCDescriptorQueue {
    var capacity: nat
    var mask: nat
    var buffer: array<Descriptor>
    var getIndex: nat
    var putIndex: nat

    ghost predicate Valid()
      reads this, buffer
    {
      && RingSize(capacity) && mask == capacity - 1 && buffer.Length == capacity
      && getIndex < WORD && putIndex < WORD
      && Used(WORD, putIndex, getIndex) <= capacity
    }

    /** The descriptors put and not yet taken, oldest first. */
    ghost function Contents(): (s: seq<Descriptor>)
      requires Valid()
      reads this, buffer
      ensures |s| == Used(WORD, putIndex, getIndex) <= capacity
    {
      RingContents(WORD, buffer[..], putIndex, getIndex)
    }

    constructor ()
      ensures capacity == 0 && fresh(buffer)
    {
      capacity, mask, getIndex, putIndex := 0, 0, 0, 0;
      buffer := new Descriptor[0];
    }

    /** Init: one slot per 64 units of the hint, rounded up to a power of two. */
    method Init(hint: nat, mallocOk: bool) returns (ok: bool)
      requires hint < WORD32
      modifies this
      ensures ok == mallocOk
      ensures ok ==> Valid() && Contents() == [] && fresh(buffer)
      ensures ok ==> var m := if hint < 64 then 1 else hint / 64; m <= capacity < 2 * m
    {
      var minDesc := if hint / 64 > 1 then hint / 64 else 1;
      var c := 1;
      ghost var k := 0;
      while c < minDesc
        invariant c == Pow2(k) && c < 2 * minDesc
        decreases minDesc - c
      {
        c := (c * 2) % WORD32;
        k := k + 1;
      }
      Pow2Values();
      if k > 31 { Pow2Mono(31, k); }
      if !mallocOk { return false; }
      buffer := new Descriptor[c](_ => Descriptor(0, 0, null));
      capacity := c;
      mask := c - 1;
      Reset();
      assert Contents() == [];
      ok := true;
    }

    method Reset()
      modifies this`getIndex, this`putIndex
      ensures getIndex == putIndex == 0
    {
      getIndex, putIndex := 0, 0;
    }

    /** Appends a descriptor unless the ring is full. */
    method PutDescriptor(desc: Descriptor) returns (ok: bool)
      requires Valid()
      modifies buffer, this`putIndex
      ensures Valid()
      ensures ok == (|old(Contents())| < capacity)
      ensures Contents() == old(Contents()) + if ok then [desc] else []
    {
      PositionIsMod(putIndex, capacity);
      var free := (capacity - Used(WORD, putIndex, getIndex)) % WORD;
      if free == 0 { return false; }
      ghost var b := buffer[..];
      buffer[Position(putIndex, mask + 1)] := desc;
      OnePut(b, putIndex, getIndex, desc);
      putIndex := (putIndex + 1) % WORD;
      ok := true;
    }

    /** Takes the oldest descriptor. */
    method GetDescriptor() returns (ok: bool, desc: Descriptor)
      requires Valid()
      modifies this`getIndex
      ensures Valid()
      ensures ok == (old(Contents()) != [])
      ensures ok ==> desc == old(Contents())[0] && Contents() == old(Contents())[1..]
      ensures !ok ==> Contents() == old(Contents())
    {
      EqualIndices(WORD, putIndex, getIndex);
      if getIndex == putIndex { return false, Descriptor(0, 0, null); }
      PositionIsMod(getIndex, capacity);
      desc := buffer[Position(getIndex, mask + 1)];
      assert Contents()[0] == At(buffer[..], getIndex + 0);
      Dropped(WORD, buffer[..], putIndex, getIndex, 1);
      getIndex := (getIndex + 1) % WORD;
      ok := true;
    }

    /** The count, truncated to 32 bits; the truncation loses nothing. */
    method GetDataSize() returns (n: nat)
      requires Valid()
      ensures n == |Contents()|
    {
      PositionIsMod(0, capacity);
      n := Used(WORD, putIndex, getIndex) % WORD32;
    }
  }

  /** Storing at the put position and publishing appends one entry. */
  lemma OnePut<T>(b: seq<T>, putIndex: nat, getIndex: nat, desc: T)
    requires RingSize(|b|) && putIndex < WORD && getIndex < WORD
    requires Used(WORD, putIndex, getIndex) < |b| && Position(putIndex, |b|) < |b|
    ensures var b' := b[Position(putIndex, |b|) := desc];
      && Used(WORD, (putIndex + 1) % WORD, getIndex) == Used(WORD, putIndex, getIndex) + 1
      && RingContents(WORD, b', (putIndex + 1) % WORD, getIndex)
         == RingContents(WORD, b, putIndex, getIndex) + [desc]
  {
    var size, tail := |b|, getIndex + Used(WORD, putIndex, getIndex);
    var b' := b[Position(putIndex, size) := desc];
    SamePosition(WORD, putIndex, getIndex, 0, size);
    forall k: nat | tail + 1 <= k + size && k < tail ensures At(b', k) == At(b, k) {
      PositionIsMod(k, size);
      PositionDistinct(k, tail, size);
    }
    assert At(b', tail + 0) == desc;
    Appended(WORD, b, b', putIndex, getIndex, [desc]);
  }
}
