/** The single-producer single-consumer byte queue of pcie/SPSCMemoryQueue.cpp:
    a power-of-two ring addressed by 32-bit indices that are never reduced. */
module ByteRing {
  import opened Basics
  import opened Bits
  import opened RingIndex

  /** Indices are unsigned 32-bit. */
  const WORD: nat := WORD32

  // ---- sizing ----

  /** Of the n bits of x, the top j are set and nothing is above them. */
  ghost predicate TopOnes(x: nat, n: nat, j: nat) {
    j <= n && Shr(x, n - j) == Ones(j)
  }

  /** OR-ing x with itself shifted by j doubles the run of leading ones. */
  lemma SmearStep(x: nat, n: nat, j: nat)
    requires 1 <= j && TopOnes(x, n, Least(j, n))
    ensures TopOnes(Or(x, Shr(x, j)), n, Least(2 * j, n))
  {
    hide *;
    LeastCases(j, n);
    TopOnesMeans(x, n, Least(j, n));
    var y := Or(x, Shr(x, j));
    if j >= n {
      SmearDone(x, n, j);
      TopOnesFrom(y, n, n);
    } else if 2 * j <= n {
      SmearDouble(x, n - 2 * j, j);
      TopOnesFrom(y, n, 2 * j);
    } else {
      SmearFill(x, n - j, j);
      TopOnesFrom(y, n, n);
    }
  }

  lemma LeastCases(j: nat, n: nat)
    ensures Least(j, n) == (if j < n then j else n) && Least(2 * j, n) == if 2 * j < n then 2 * j else n
    ensures forall x: nat :: Shr(x, 0) == x
  {}

  lemma TopOnesMeans(x: nat, n: nat, k: nat)
    requires TopOnes(x, n, k)
    ensures k <= n && Shr(x, n - k) == Ones(k)
  {}

  lemma TopOnesFrom(y: nat, n: nat, m: nat)
    requires m <= n && Shr(y, n - m) == Ones(m)
    ensures TopOnes(y, n, m)
  {}

  lemma SmearDone(x: nat, n: nat, j: nat)
    requires n <= j && x == Ones(n)
    ensures Or(x, Shr(x, j)) == x
  {
    OnesValue(n);
    Pow2Mono(n, j);
    ShrSmall(x, j);
    OrZero(x);
  }

  lemma SmearDouble(x: nat, m: nat, j: nat)
    requires Shr(x, m + j) == Ones(j)
    ensures Shr(Or(x, Shr(x, j)), m) == Ones(2 * j)
  {
    ShrOr(x, Shr(x, j), m);
    ShrShr(x, j, m);
    ShrShr(x, m, j);
    OrFill(Shr(x, m), j, j);
  }

  lemma SmearFill(x: nat, m: nat, j: nat)
    requires m <= j && Shr(x, m) == Ones(j)
    ensures Or(x, Shr(x, j)) == Ones(m + j)
  {
    ShrShr(x, m, j - m);
    ShrOnes(j - m, j);
    OrFill(x, m, j);
  }

  /** The first r OR-shifts, by 1, 2, 4, ... */
  function Smear(w: nat, r: nat): nat {
    if r == 0 then w else var u := Smear(w, r - 1); Or(u, Shr(u, Pow2(r - 1)))
  }

  /** r OR-shifts set the top 2^r bits, or all of them. */
  lemma {:induction false} SmearOnes(w: nat, n: nat, r: nat)
    requires 1 <= n && Pow2(n - 1) <= w < Pow2(n)
    ensures TopOnes(Smear(w, r), n, Least(Pow2(r), n))
  {
    if r == 0 {
      TopBit(w, n);
    } else {
      SmearOnes(w, n, r - 1);
      SmearStep(Smear(w, r - 1), n, Pow2(r - 1));
    }
  }

  lemma {:induction false} TopBit(w: nat, n: nat)
    requires 1 <= n && Pow2(n - 1) <= w < Pow2(n)
    ensures Shr(w, n - 1) == 1 == Ones(1)
  {
    if n > 1 { TopBit(w / 2, n - 1); }
  }

  lemma {:induction false} BitLength(w: nat, k: nat) returns (n: nat)
    requires 1 <= w < Pow2(k)
    ensures 1 <= n <= k && Pow2(n - 1) <= w < Pow2(n)
  {
    if Pow2(k - 1) <= w { n := k; } else { n := BitLength(w, k - 1); }
  }

  predicate IsPowerOfTwo(x: nat)
    ensures IsPowerOfTwo(x) <==> IsPow2(x)
  {
    PowerOfTwoTest(x);
    x != 0 && And(x, x - 1) == 0
  }

  lemma PowerOfTwoTest(x: nat)
    ensures x != 0 && And(x, x - 1) == 0 <==> IsPow2(x)
  {
    if x > 0 { AndPredecessor(x); }
  }

  /** next_power_of_two: exact up to 2^31, zero beyond, where the increment wraps. */
  method NextPowerOfTwo(v: nat) returns (r: nat)
    requires v < WORD
    ensures v <= 0x8000_0000 ==> IsPow2(r) && v <= r <= 0x8000_0000 && forall p :: IsPow2(p) && v <= p ==> r <= p
    ensures v > 0x8000_0000 ==> r == 0
  {
    Pow2Values();
    if v == 0 {
      assert 1 == Pow2(0);
      return 1;
    }
    var w := v - 1;
    w := Or(w, Shr(w, 1));   assert w == Smear(v - 1, 1);
    w := Or(w, Shr(w, 2));   assert w == Smear(v - 1, 2);
    w := Or(w, Shr(w, 4));   assert w == Smear(v - 1, 3);
    w := Or(w, Shr(w, 8));   assert w == Smear(v - 1, 4);
    w := Or(w, Shr(w, 16));  assert w == Smear(v - 1, 5);
    SmearRounds(v, w, 5);
    r := (w + 1) % WORD;
  }

  lemma SmearRounds(v: nat, s: nat, rounds: nat)
    requires 1 <= v < WORD && s == Smear(v - 1, rounds) && Pow2(rounds) >= 32
    ensures var r := (s + 1) % WORD;
      && (v <= 0x8000_0000 ==> IsPow2(r) && v <= r <= 0x8000_0000 && forall p :: IsPow2(p) && v <= p ==> r <= p)
      && (v > 0x8000_0000 ==> r == 0)
  {
    if v == 1 {
      SmearZero(rounds);
      assert 1 == Pow2(0);
    } else {
      Pow2Values();
      var n := BitLength(v - 1, 32);
      SmearOnes(v - 1, n, rounds);
      OnesValue(n);
      RoundUp(v, n, s);
    }
  }

  lemma RoundUp(v: nat, n: nat, s: nat)
    requires 1 < v < WORD && 1 <= n <= 32 && Pow2(n - 1) <= v - 1 < Pow2(n) && s == Pow2(n) - 1
    ensures var r := (s + 1) % WORD;
      && (v <= 0x8000_0000 ==> IsPow2(r) && v <= r <= 0x8000_0000 && forall p :: IsPow2(p) && v <= p ==> r <= p)
      && (v > 0x8000_0000 ==> r == 0)
  {
    RoundedSize(n);
    LeastAbove(v, n);
    if n < 32 { assert (s + 1) % WORD == Pow2(n); }
  }

  lemma RoundedSize(n: nat)
    requires 1 <= n <= 32
    ensures if n < 32 then Pow2(n) <= 0x8000_0000 else Pow2(n) == WORD && Pow2(n - 1) == 0x8000_0000
  {
    Pow2Values();
    if n < 32 { Pow2Mono(n, 31); }
  }

  lemma {:induction false} SmearZero(r: nat)
    ensures Smear(0, r) == 0
  {
    if r > 0 {
      SmearZero(r - 1);
      ShrSmall(0, Pow2(r - 1));
    }
  }

  lemma LeastAbove(v: nat, n: nat)
    requires 1 <= n && Pow2(n - 1) <= v - 1
    ensures forall p :: IsPow2(p) && v <= p ==> Pow2(n) <= p
  {
    forall p | IsPow2(p) && v <= p ensures Pow2(n) <= p {
      var e: nat :| p == Pow2(e);
      if e < n { Pow2Mono(e, n - 1); } else { Pow2Mono(n, e); }
    }
  }

  // ---- the queue ----

  /** Two contiguous pieces, at the producer's position and at the start, amount to
      writing the ring positions one by one. */
  lemma TwoPieces(b: seq<Byte>, b': seq<Byte>, tail: nat, data: seq<Byte>, p: nat, e: nat)
    requires RingSize(|b|) && |b'| == |b| && |data| <= |b|
    requires p == Position(tail, |b|) < |b| && e == Least(|data|, |b| - p)
    requires forall i :: 0 <= i < |b| ==> b'[i] == Piece(b, p, e, data, i)
    ensures Written(b, b', tail, data)
  {
    forall j | 0 <= j < |data| ensures At(b', tail + j) == data[j] {
      PositionLap(tail, j, |b|);
    }
    forall k: nat | tail + |data| <= k + |b| && k < tail ensures At(b', k) == At(b, k) {
      OldPiece(k, tail, |b|, |data|, p, e);
    }
  }

  lemma PiecesAppended(b: seq<Byte>, b': seq<Byte>, putIndex: nat, getIndex: nat, data: seq<Byte>, e: nat)
    requires RingSize(|b|) && |b'| == |b| && putIndex < WORD && getIndex < WORD
    requires Used(WORD, putIndex, getIndex) + |data| <= |b|
    requires Position(putIndex, |b|) < |b| && e == Least(|data|, |b| - Position(putIndex, |b|))
    requires forall i :: 0 <= i < |b| ==> b'[i] == Piece(b, Position(putIndex, |b|), e, data, i)
    ensures Used(WORD, (putIndex + |data|) % WORD, getIndex) == Used(WORD, putIndex, getIndex) + |data|
    ensures RingContents(WORD, b', (putIndex + |data|) % WORD, getIndex)
        == RingContents(WORD, b, putIndex, getIndex) + data
  {
    SamePosition(WORD, putIndex, getIndex, 0, |b|);
    TwoPieces(b, b', getIndex + Used(WORD, putIndex, getIndex), data, Position(putIndex, |b|), e);
    Appended(WORD, b, b', putIndex, getIndex, data);
  }

  /** A position the reader still needs is outside both pieces. */
  lemma OldPiece(k: nat, tail: nat, size: nat, n: nat, p: nat, e: nat)
    requires RingSize(size) && n <= size && tail + n <= k + size && k < tail
    requires p == Position(tail, size) < size && e == Least(n, size - p)
    ensures var i := Position(k, size); i < size && i >= n - e && !(p <= i < p + e)
  {
    PositionIsMod(k, size);
    var i := Position(k, size);
    if p <= i < p + e {
      PositionLap(tail, i - p, size);
      PositionDistinct(k, tail + (i - p), size);
    } else if i < n - e {
      PositionLap(tail, e + i, size);
      PositionDistinct(k, tail + (e + i), size);
    }
  }

  /** Byte i of the buffer after data[..e] went to p and data[e..] to the start. */
  function Piece(b: seq<Byte>, p: nat, e: nat, data: seq<Byte>, i: nat): Byte
    requires e <= |data| && i < |b|
  {
    if i < |data| - e then data[e + i] else if p <= i < p + e then data[i - p] else b[i]
  }

  lemma SmallPow2(x: nat)
    requires IsPow2(x)
    ensures x <= 0x8000_0000 ==> RingSize(x)
    ensures x >= 1 && (x < WORD ==> x <= 0x8000_0000)
  {
    var n: nat :| x == Pow2(n);
    Pow2Values();
    if n > 31 { Pow2Mono(32, n); } else { Pow2Mono(n, 31); }
  }

  class SPSCMemoryQueue {
    var size: nat
    var buffer: array<Byte>
    var getIndex: nat
    var putIndex: nat

    ghost predicate Valid()
      reads this, buffer
    {
      && RingSize(size) && buffer.Length == size
      && getIndex < WORD && putIndex < WORD
      && Used(WORD, putIndex, getIndex) <= size
    }

    /** The bytes put and not yet got, oldest first. */
    ghost function Contents(): (s: seq<Byte>)
      requires Valid()
      reads this, buffer
      ensures |s| == Used(WORD, putIndex, getIndex) <= size
    {
      RingContents(WORD, buffer[..], putIndex, getIndex)
    }

    constructor ()
      ensures size == 0 && getIndex == putIndex == 0 && fresh(buffer)
    {
      size, getIndex, putIndex := 0, 0, 0;
      buffer := new Byte[0];
    }

    /** Init; `mallocOk` is whether malloc succeeds. The ring is usable exactly
        for requests up to 2^31: beyond that the rounded size wraps to zero. */
    method Init(request: nat, mallocOk: bool) returns (ok: bool)
      requires request < WORD
      modifies this
      ensures ok == (request != 0 && mallocOk)
      ensures ok ==> fresh(buffer) && buffer.Length == size && getIndex == putIndex == 0
      ensures ok ==> (request <= 0x8000_0000 <==> Valid())
      ensures ok && Valid() ==> Contents() == [] && request <= size
      ensures ok && Valid() ==> forall p :: IsPow2(p) && request <= p ==> size <= p
      ensures ok && !Valid() ==> size == 0
      ensures !ok && request != 0 ==> size == 0
      ensures request == 0 ==> unchanged(this)
    {
      if request == 0 { return false; }
      var rounded := request;
      if !IsPowerOfTwo(request) {
        rounded := NextPowerOfTwo(request);
      } else {
        SmallPow2(request);
      }
      if !mallocOk {
        size := 0;
        return false;
      }
      buffer := new Byte[rounded];
      size := rounded;
      Reset();
      if request <= 0x8000_0000 {
        SmallPow2(size);
        assert Contents() == [];
      } else if Valid() {
        PositionIsMod(0, size);
      }
      ok := true;
    }

    method Reset()
      modifies this`getIndex, this`putIndex
      ensures getIndex == putIndex == 0
    {
      getIndex := 0;
      putIndex := 0;
    }

    /** Copies len bytes of data, from `first` on, to a contiguous part of the buffer. */
    method CopyIn(at: nat, data: seq<Byte>, first: nat, len: nat)
      requires at + len <= buffer.Length && first + len <= |data|
      modifies buffer
      ensures forall p :: 0 <= p < buffer.Length ==>
        buffer[p] == if at <= p < at + len then data[first + p - at] else old(buffer[p])
    {
      forall j | 0 <= j < len { buffer[at + j] := data[first + j]; }
    }

    /** The two memcpy calls of a put, up to the end of the ring and from its start. */
    method CopyPieces(p: nat, data: seq<Byte>) returns (ghost e: nat)
      requires p < buffer.Length && |data| <= buffer.Length
      modifies buffer
      ensures e == Least(|data|, buffer.Length - p)
      ensures forall i :: 0 <= i < buffer.Length ==> buffer[i] == Piece(old(buffer[..]), p, e, data, i)
    {
      var toEnd := Least(|data|, buffer.Length - p);
      CopyIn(p, data, 0, toEnd);
      CopyIn(0, data, toEnd, |data| - toEnd);
      e := toEnd;
    }

    /** Copies the data behind the bytes in the ring and publishes the new index. */
    method Place(data: seq<Byte>)
      requires Valid() && Used(WORD, putIndex, getIndex) + |data| <= size
      modifies buffer, this`putIndex
      ensures Valid()
      ensures Contents() == old(Contents()) + data
      ensures putIndex == (old(putIndex) + |data|) % WORD
    {
      ghost var b := buffer[..];
      PositionIsMod(putIndex, size);
      ghost var e := CopyPieces(Position(putIndex, size), data);
      PiecesAppended(b, buffer[..], putIndex, getIndex, data, e);
      putIndex := (putIndex + |data|) % WORD;
    }

    /** Puts as much as fits. */
    method Put(data: seq<Byte>) returns (n: nat)
      requires Valid() && |data| < WORD
      modifies buffer, this`putIndex
      ensures Valid()
      ensures n == (if |data| <= size - |old(Contents())| then |data| else size - |old(Contents())|)
      ensures Contents() == old(Contents()) + data[..n]
    {
      PositionIsMod(0, size);
      FreeIsRest(WORD, size, putIndex, getIndex);
      var free := FreeSpace(WORD, size, putIndex, getIndex);
      n := Least(|data|, free);
      Place(data[..n]);
    }

    /** Puts all of the data or nothing. */
    method PutFixedLength(data: seq<Byte>) returns (ok: bool)
      requires Valid() && |data| < WORD
      modifies buffer, this`putIndex
      ensures Valid()
      ensures ok == (|old(Contents())| + |data| <= size)
      ensures Contents() == old(Contents()) + if ok then data else []
      ensures !ok ==> buffer[..] == old(buffer[..]) && putIndex == old(putIndex)
    {
      PositionIsMod(0, size);
      FreeIsRest(WORD, size, putIndex, getIndex);
      if |data| > FreeSpace(WORD, size, putIndex, getIndex) { return false; }
      Place(data);
      ok := true;
    }

    /** The two memcpy calls of a get. */
    method Fetch(out: array<Byte>, n: nat)
      requires Valid() && out != buffer && n <= out.Length && n <= Used(WORD, putIndex, getIndex)
      modifies out, this`getIndex
      ensures Valid()
      ensures out[..n] == old(Contents())[..n] && out[n..] == old(out[n..])
      ensures Contents() == old(Contents())[n..]
    {
      CopyOut(out, n);
      Dropped(WORD, buffer[..], putIndex, getIndex, n);
      getIndex := (getIndex + n) % WORD;
    }

    method CopyOut(out: array<Byte>, n: nat)
      requires Valid() && out != buffer && n <= out.Length && n <= Used(WORD, putIndex, getIndex)
      modifies out
      ensures out[..n] == Contents()[..n] && out[n..] == old(out[n..])
    {
      hide Used;
      PositionIsMod(getIndex, size);
      var p := Position(getIndex, size);
      var toEnd := Least(n, size - p);
      forall j | 0 <= j < toEnd { out[j] := buffer[p + j]; }
      forall j | 0 <= j < n - toEnd { out[toEnd + j] := buffer[j]; }
      forall j | 0 <= j < n ensures out[j] == Contents()[j] {
        PositionLap(getIndex, j, size);
        assert Contents()[j] == At(buffer[..], getIndex + j);
      }
    }

    /** Gets up to `want` bytes. */
    method Get(out: array<Byte>, want: nat) returns (n: nat)
      requires Valid() && out != buffer && want <= out.Length
      modifies out, this`getIndex
      ensures Valid()
      ensures n == (if want <= |old(Contents())| then want else |old(Contents())|)
      ensures out[..n] == old(Contents())[..n] && out[n..] == old(out[n..])
      ensures Contents() == old(Contents())[n..]
    {
      var available := Used(WORD, putIndex, getIndex);
      n := Least(want, available);
      Fetch(out, n);
    }

    /** Gets exactly `want` bytes or nothing. */
    method GetFixedLength(out: array<Byte>, want: nat) returns (ok: bool)
      requires Valid() && out != buffer && want <= out.Length
      modifies out, this`getIndex
      ensures Valid()
      ensures ok == (want <= |old(Contents())|)
      ensures ok ==> out[..want] == old(Contents())[..want] && out[want..] == old(out[want..])
      ensures !ok ==> out[..] == old(out[..])
      ensures Contents() == if ok then old(Contents())[want..] else old(Contents())
    {
      if want > Used(WORD, putIndex, getIndex) { return false; }
      Fetch(out, want);
      ok := true;
    }

    method GetDataSize() returns (n: nat)
      requires Valid()
      ensures n == |Contents()|
    {
      n := Used(WORD, putIndex, getIndex);
    }

    method IsEmpty() returns (empty: bool)
      requires Valid()
      ensures empty <==> Contents() == []
    {
      empty := getIndex == putIndex;
      EqualIndices(WORD, putIndex, getIndex);
    }
  }
}
