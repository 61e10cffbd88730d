/** The multi-word unsigned arithmetic behind number printing: 64-bit limbs, each
    handled as two 32-bit halves so that no partial sum overflows. */
module WideProduct {
  import opened Basics
  import opened Bits
  import opened Modular

  /** A uint64_t. Giving a variable this type is the claim that its value did not wrap. */
  type U64 = x: nat | x < WORD64

  function High(x: U64): U64 { x / WORD32 }

  function Low(x: U64): U64 { x % WORD32 }

  /** x << k, dropping the bits that leave the word. */
  function Shl(x: U64, k: nat): U64 { (x * Pow2(k)) % WORD64 }

  /** The number held by two limbs, low limb first. */
  function Value(a: seq<U64>): nat
    requires |a| == 2
  {
    a[0] + WORD64 * a[1]
  }

  lemma Join(lo: nat, hi: nat)
    requires lo < WORD32 && hi < WORD32
    ensures Or(lo, WORD32 * hi) == lo + WORD32 * hi < WORD64
    ensures Shl(hi, 32) == WORD32 * hi
  {
    var k := 32;
    Pow2Values();
    OrDisjoint(lo, hi, k);
    assert hi * WORD32 < WORD64;
  }

  /** b += a: addition modulo 2^128. */
  method Add(a: seq<U64>, b: array<U64>)
    requires |a| == 2 && b.Length == 2
    modifies b
    ensures Value(b[..]) == (Value(a) + old(Value(b[..]))) % (WORD64 * WORD64)
  {
    ghost var before := b[..];
    AddWord(a[0], b[0], 0);
    hide High, Low, Shl, Or, Value;
    var low0: U64, low1: U64 := Low(a[0]) + Low(b[0]), Low(a[1]) + Low(b[1]);
    var high0: U64, high1: U64 := High(a[0]) + High(b[0]), High(a[1]) + High(b[1]);
    high0 := high0 + High(low0);
    AddWord(a[1], b[1], High(high0));
    low1 := low1 + High(high0);
    high1 := high1 + High(low1);
    JoinHalves(low0, high0);
    JoinHalves(low1, high1);
    b[0] := Or(Low(low0), Shl(high0, 32));
    b[1] := Or(Low(low1), Shl(high1, 32));
    TwoWords(a, before, b[..], High(high0), High(high1));
  }

  /** Word sums, with the carry of the first in the second, are the sum modulo 2^128. */
  lemma TwoWords(x: seq<U64>, y: seq<U64>, z: seq<U64>, c: nat, d: nat)
    requires |x| == |y| == |z| == 2
    requires (x[0] as int) + y[0] == z[0] + WORD64 * c && (x[1] as int) + y[1] + c == z[1] + WORD64 * d
    ensures Value(z) == (Value(x) + Value(y)) % (WORD64 * WORD64)
  {
    assert Value(x) + Value(y) == WORD64 * WORD64 * d + Value(z);
    DivModUnique(Value(x) + Value(y), WORD64 * WORD64, d, Value(z));
  }

  /** One word of a sum: its halves, added with their carries, lose nothing. */
  lemma AddWord(x: U64, y: U64, carry: nat)
    requires carry <= 1
    ensures Low(x) + Low(y) + carry < WORD64 && High(x) + High(y) + 1 < WORD64
    ensures var low: U64 := Low(x) + Low(y) + carry;
      && High(low) <= 1
      && var high: U64 := High(x) + High(y) + High(low);
      && High(high) <= 1 && x + y + carry == Low(low) + WORD32 * Low(high) + WORD64 * High(high)
  {}

  lemma JoinHalves(low: U64, high: U64)
    ensures Or(Low(low), Shl(high, 32)) == Low(low) + WORD32 * Low(high) < WORD64
  {
    ShlDrops(high);
    Join(Low(low), Low(high));
    hide Low, Shl, Or;
  }

  /** Shifting by half a word keeps the low half only. */
  lemma ShlDrops(x: U64)
    ensures Shl(x, 32) == WORD32 * Low(x)
  {
    Pow2Values();
    assert x * WORD32 == WORD64 * High(x) + WORD32 * Low(x);
    DivModUnique(x * WORD32, WORD64, High(x), WORD32 * Low(x));
  }

  /** a /= 10: floor division of the 128-bit number. */
  method DivideBy10(a: array<U64>)
    requires a.Length == 2
    modifies a
    ensures Value(a[..]) == old(Value(a[..])) / 10
  {
    ghost var v := Value(a[..]);
    var remainder := a[1] % 10;
    a[1] := a[1] / 10;
    ShlSmall(remainder);
    var highPart: U64 := High(a[0]) + Shl(remainder, 32);
    var highD, highR := highPart / 10, highPart % 10;
    ShlSmall(highR);
    var lowPart: U64 := Low(a[0]) + Shl(highR, 32);
    var lowD := lowPart / 10;
    ShlSmall(highD);
    Join(lowD, highD);
    OrComm(Shl(highD, 32), lowD);
    a[0] := Or(Shl(highD, 32), lowD);
    assert v == 10 * Value(a[..]) + lowPart % 10;
  }

  lemma ShlSmall(x: U64)
    requires x < WORD32
    ensures Shl(x, 32) == WORD32 * x
  {
    LowOfSmall(x, x);
    hide Shl, Low;
    ShlDrops(x);
  }

  // ---- the 64 by 128 bit product ----

  lemma DistributeOver(x: nat, u: nat, c: nat, v: nat)
    ensures x * (u + c * v) == x * u + c * (x * v)
  {}

  /** One word by two halves. */
  lemma HalfRow(x: nat, lo: nat, hi: nat, rest: nat)
    ensures x * ((lo + WORD32 * hi) + WORD64 * rest) == x * lo + WORD32 * (x * hi) + WORD64 * (x * rest)
  {
    DistributeOver(x, lo + WORD32 * hi, WORD64, rest);
    DistributeOver(x, lo, WORD32, hi);
  }

  /** The schoolbook product of two 32-bit halves and four. */
  lemma Expand(a0: nat, a1: nat, b0: nat, b1: nat, b2: nat, b3: nat)
    ensures (a0 + WORD32 * a1) * ((b0 + WORD32 * b1) + WORD64 * (b2 + WORD32 * b3))
         == a0 * b0 + WORD32 * (a0 * b1 + a1 * b0) + WORD64 * (a0 * b2 + a1 * b1)
            + WORD32 * WORD64 * (a0 * b3 + a1 * b2) + WORD64 * WORD64 * (a1 * b3)
  {
    var b := (b0 + WORD32 * b1) + WORD64 * (b2 + WORD32 * b3);
    DistributeOver(b, a0, WORD32, a1);
    HalfRow(a0, b0, b1, b2 + WORD32 * b3);
    HalfRow(a1, b0, b1, b2 + WORD32 * b3);
    DistributeOver(a0, b2, WORD32, b3);
    DistributeOver(a1, b2, WORD32, b3);
  }

  lemma MulMono(x: nat, c: nat, y: nat)
    requires x <= c
    ensures 0 <= x * y <= c * y
  {
    assert (c - x) * y >= 0;
  }

  lemma HalfProduct(x: nat, y: nat)
    requires x < WORD32 && y < WORD32
    ensures 0 <= x * y <= (WORD32 - 1) * (WORD32 - 1)
  {
    MulMono(x, WORD32 - 1, y);
  }

  /** The limb sums of the product, none of which wraps. */
  method Multiply(a: U64, b: seq<U64>) returns (ret: seq<U64>)
    requires |b| == 2
    ensures |ret| == 3 && ret[0] + WORD64 * ret[1] + WORD64 * WORD64 * ret[2] == a * Value(b)
  {
    var a0, a1, b0, b1, b2, b3 := Low(a), High(a), Low(b[0]), High(b[0]), Low(b[1]), High(b[1]);
    HalfProduct(a0, b0); HalfProduct(a0, b1); HalfProduct(a0, b2); HalfProduct(a0, b3);
    HalfProduct(a1, b0); HalfProduct(a1, b1); HalfProduct(a1, b2); HalfProduct(a1, b3);
    var a0b0: U64, a0b1: U64, a0b2: U64, a0b3: U64 := a0 * b0, a0 * b1, a0 * b2, a0 * b3;
    var a1b0: U64, a1b1: U64, a1b2: U64, a1b3: U64 := a1 * b0, a1 * b1, a1 * b2, a1 * b3;
    Expand(a0, a1, b0, b1, b2, b3);
    MulMono(a, WORD64 - 1, Value(b));
    ret := SumLimbs(a0b0, a0b1, a0b2, a0b3, a1b0, a1b1, a1b2, a1b3);
  }

  method SumLimbs(a0b0: U64, a0b1: U64, a0b2: U64, a0b3: U64, a1b0: U64, a1b1: U64, a1b2: U64, a1b3: U64)
    returns (ret: seq<U64>)
    requires a1b3 <= (WORD32 - 1) * (WORD32 - 1)
    requires a0b0 + WORD32 * (a0b1 + a1b0) + WORD64 * (a0b2 + a1b1) + WORD32 * WORD64 * (a0b3 + a1b2)
           + WORD64 * WORD64 * a1b3 < WORD64 * WORD64 * WORD64
    ensures |ret| == 3
    ensures ret[0] + WORD64 * ret[1] + WORD64 * WORD64 * ret[2]
         == a0b0 + WORD32 * (a0b1 + a1b0) + WORD64 * (a0b2 + a1b1) + WORD32 * WORD64 * (a0b3 + a1b2)
            + WORD64 * WORD64 * a1b3
  {
    Halves(a0b0); Halves(a0b1); Halves(a0b2); Halves(a0b3);
    Halves(a1b0); Halves(a1b1); Halves(a1b2); Halves(a1b3);
    hide High, Low, Shl, Or;
    var r0: U64 := Low(a0b0);
    var r1: U64 := Low(a0b1) + Low(a1b0) + High(a0b0);
    var r2: U64 := Low(a0b2) + Low(a1b1) + High(a0b1) + High(a1b0);
    var r3: U64 := Low(a0b3) + Low(a1b2) + High(a0b2) + High(a1b1);
    var r4: U64 := a1b3 + High(a0b3) + High(a1b2);
    Halves(r0);
    r1 := r1 + High(r0);
    Halves(r1);
    r2 := r2 + High(r1);
    Halves(r2);
    r3 := r3 + High(r2);
    Halves(r3);
    r4 := r4 + High(r3);
    Halves(r4);
    var r5: U64 := High(r4);
    LowOfSmall(r0, r5);
    Join(Low(r0), Low(r1));
    Join(Low(r2), Low(r3));
    Join(Low(r4), Low(r5));
    ret := [Or(Low(r0), Shl(Low(r1), 32) + High(r0)), Or(Low(r2), Shl(Low(r3), 32)), Or(Low(r4), Shl(Low(r5), 32))];
  }

  lemma Halves(x: U64)
    ensures x == Low(x) + WORD32 * High(x) && Low(x) < WORD32 && High(x) < WORD32
  {}

  lemma LowOfSmall(x: U64, y: U64)
    requires x < WORD32 && y < WORD32
    ensures Low(x) == x && High(x) == 0 && Low(y) == y
  {}

  /** multiply_and_shift: the product of a and b shifted right, rounded half up if asked,
      truncated to 64 bits. Shifts by whole words are undefined in the source. */
  method MultiplyAndShift(a: U64, b: seq<U64>, shift: nat, roundUp: bool) returns (r: U64)
    requires |b| == 2 && shift < 128 && shift % 64 != 0
    ensures r == ((a * Value(b) + (if roundUp then Pow2(shift - 1) else 0)) / Pow2(shift)) % WORD64
  {
    var ret := Multiply(a, b);
    hide Shr, Or, And, Shl, Pow2;
    var index := shift / 64;
    var t := shift - index * 64;
    var round := roundUp;
    if round && And(ret[index], Pow2(t - 1)) == 0 { round := false; }
    r := ShiftPair(ret[index], ret[index + 1], t);
    r := (r + (if round then 1 else 0)) % WORD64;
    ghost var product := a * Value(b);
    hide Value, ShiftPair;
    ShiftedProduct(product, ret, index, t);
    RoundedShift(product, shift, roundUp, round);
  }

  lemma RoundedShift(product: nat, s: nat, roundUp: bool, round: bool)
    requires s > 0 && (round <==> roundUp && (product / Pow2(s - 1)) % 2 == 1)
    ensures ((product / Pow2(s)) % WORD64 + (if round then 1 else 0)) % WORD64
         == ((product + (if roundUp then Pow2(s - 1) else 0)) / Pow2(s)) % WORD64
  {
    hide Pow2;
    Rounding(product, s);
    ModAdd(product / Pow2(s), if round then 1 else 0, WORD64);
  }

  /** x >> t with the low bits of y shifted in. */
  function ShiftPair(x: U64, y: U64, t: nat): U64
    requires 0 < t < 64
  {
    ShiftPairValue(x, y, t);
    Or(Shr(x, t), Shl(And(y, Pow2(t) - 1), 64 - t))
  }

  lemma ShiftPairValue(x: U64, y: U64, t: nat)
    requires 0 < t < 64
    ensures And(y, Pow2(t) - 1) < WORD64
    ensures Or(Shr(x, t), Shl(And(y, Pow2(t) - 1), 64 - t)) == x / Pow2(t) + Pow2(64 - t) * (y % Pow2(t)) < WORD64
  {
    hide Pow2, Or, And, Shr, Shl;
    var p, q := Pow2(t), Pow2(64 - t);
    Pow2Add(t, 64 - t);
    Pow2Of64();
    PairFits(x, y, p, q);
    ShrIsDiv(x, t);
    AndMask(y, t);
    OrDisjoint(x / p, y % p, 64 - t);
    ShlFits(y % p, 64 - t);
  }

  lemma ShlFits(x: U64, k: nat)
    requires Pow2(k) * x < WORD64
    ensures Shl(x, k) == Pow2(k) * x
  {
    assert x * Pow2(k) == Pow2(k) * x;
    ModSmall(Pow2(k) * x, WORD64);
  }

  lemma PairFits(x: U64, y: nat, p: nat, q: nat)
    requires p > 0 && p * q == WORD64
    ensures x / p < q && 0 <= q * (y % p) && x / p + q * (y % p) < WORD64
  {
    DivLess(x, p, q);
    MulMono(y % p, p - 1, q);
    assert (p - 1) * q == p * q - q;
    assert q * (y % p) == (y % p) * q;
  }

  lemma DivLess(x: nat, p: nat, q: nat)
    requires p > 0 && x < p * q
    ensures x / p < q
  {
    Distribute(p, q, x / p);
    PositiveFactor(p, q - x / p);
  }

  lemma PositiveFactor(p: nat, k: int)
    requires p * k > 0
    ensures k > 0
  {}

  lemma DivDiv(x: nat, a: nat, b: nat)
    requires a > 0 && b > 0
    ensures a * b > 0 && x / (a * b) == (x / a) / b
  {
    hide Pow2, Or, And, Shr, Shl;
    var u, r := x / a, x % a;
    var v, t := u / b, u % b;
    DistributeSum(a, t, b * v);
    Assoc(a, b, v);
    RemainderFits(a, b, t, r);
    DivModUnique(x, a * b, v, a * t + r) by { assert x == a * (t + b * v) + r; }
  }

  lemma DistributeSum(a: nat, x: nat, y: nat)
    ensures a * (x + y) == a * x + a * y
  {}

  lemma RemainderFits(a: nat, b: nat, t: nat, r: nat)
    requires r < a && t < b
    ensures 0 <= a * t + r < a * b
  {
    MulMono(t + 1, b, a);
    assert (t + 1) * a == a * t + a;
  }

  /** Dividing a number with high part p * k. */
  lemma DivAdd(x: nat, p: nat, k: nat)
    requires p > 0
    ensures (x + p * k) / p == x / p + k && (x + p * k) % p == x % p
  {
    assert p * (x / p + k) == p * (x / p) + p * k;
    DivModUnique(x + p * k, p, x / p + k, x % p);
  }

  /** The 64 bits from bit t on, of a number whose low limbs are x and y. */
  lemma WindowAt(x: U64, y: U64, z: nat, t: nat)
    requires 0 < t < 64
    ensures ((x + WORD64 * (y + WORD64 * z)) / Pow2(t)) % WORD64 == x / Pow2(t) + Pow2(64 - t) * (y % Pow2(t))
    ensures ((x + WORD64 * (y + WORD64 * z)) / Pow2(t - 1)) % 2 == (x / Pow2(t - 1)) % 2
  {
    hide Pow2, Or, And, Shr, Shl;
    var p, q, h := Pow2(t), Pow2(64 - t), Pow2(t - 1);
    Pow2Add(t, 64 - t);
    Pow2Double(t);
    Pow2Of64();
    WindowDiv(x, y, z, p, q);
    BitBelow(x, y + WORD64 * z, h, q);
  }

  lemma Assoc(a: nat, b: nat, c: nat)
    ensures (a * b) * c == a * (b * c)
  {}

  lemma BitBelow(x: nat, rest: nat, h: nat, q: nat)
    requires h > 0 && (2 * h) * q == WORD64
    ensures ((x + WORD64 * rest) / h) % 2 == (x / h) % 2
  {
    Assoc(2 * h, q, rest);
    Assoc(h, 2, q * rest);
    assert 2 * h == h * 2;
    DivAdd(x, h, 2 * (q * rest));
  }

  lemma WindowDiv(x: U64, y: U64, z: nat, p: nat, q: nat)
    requires p > 0 && p * q == WORD64
    ensures ((x + WORD64 * (y + WORD64 * z)) / p) % WORD64 == x / p + q * (y % p)
  {
    var rest := y + WORD64 * z;
    SplitRest(y, WORD64 * z, p, q, q * z) by { Assoc(p, q, z); }
    DivAdd(x, p, q * rest) by { Assoc(p, q, rest); }
    Assoc(p, q, rest);
    PairFits(x, y, p, q);
    DivModUnique(x / p + q * rest, WORD64, rest / p, x / p + q * (y % p));
  }

  /** q * (y + p * k), split at p. */
  lemma SplitRest(y: nat, wz: nat, p: nat, q: nat, k: nat)
    requires p > 0 && wz == p * k
    ensures q * (y + wz) == (p * q) * ((y + wz) / p) + q * (y % p)
  {
    DivAdd(y, p, k);
    var d := (y + wz) / p;
    DistributeOver(q, y % p, p, d);
    Assoc(p, q, d);
  }

  /** The three-limb product seen from limb `index` on. */
  lemma ShiftedProduct(product: nat, ret: seq<U64>, index: nat, t: nat)
    requires |ret| == 3 && index < 2 && 0 < t < 64
    requires product == ret[0] + WORD64 * ret[1] + WORD64 * WORD64 * ret[2]
    ensures (product / Pow2(64 * index + t)) % WORD64 == ShiftPair(ret[index], ret[index + 1], t)
    ensures (product / Pow2(64 * index + t - 1)) % 2 == 1 <==> And(ret[index], Pow2(t - 1)) != 0
  {
    hide Pow2, Or, And, Shr, Shl;
    var x, y, z: nat := ret[index], ret[index + 1], if index == 0 then ret[2] else 0;
    if index == 1 {
      DropLimb(product, ret[0], ret[1] + WORD64 * ret[2], t);
      DropLimb(product, ret[0], ret[1] + WORD64 * ret[2], t - 1);
    }
    WindowAt(x, y, z, t);
    ShiftPairValue(x, y, t);
    AndBit(x, t - 1);
  }

  /** Shifting past the low limb leaves the others. */
  lemma DropLimb(product: nat, low: U64, rest: nat, t: nat)
    requires product == low + WORD64 * rest
    ensures product / Pow2(64 + t) == rest / Pow2(t)
  {
    hide Pow2;
    Pow2Of64();
    Pow2Add(64, t);
    DivAdd(low, WORD64, rest);
    DivDiv(product, WORD64, Pow2(t));
  }

  /** Adding half before a shift adds the highest bit shifted out. */
  lemma Rounding(x: nat, s: nat)
    requires s > 0
    ensures (x + Pow2(s - 1)) / Pow2(s) == x / Pow2(s) + (x / Pow2(s - 1)) % 2
  {
    var h := Pow2(s - 1);
    DivDiv(x, h, 2);
    DivDiv(x + h, h, 2);
    DivAdd(x, h, 1);
  }
}
