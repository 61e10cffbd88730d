/** Bitwise operators on natural numbers, with the facts that masks, shifts and
    disjoint ORs are modulo, division and addition. */
module Bits {

  function Pow2(n: nat): (r: nat)
    ensures r >= 1
    ensures n > 0 ==> r % 2 == 0
  {
    if n == 0 then 1 else 2 * Pow2(n - 1)
  }

  /** Bitwise or. */
  function Or(x: nat, y: nat): nat {
    if x == 0 && y == 0 then 0
    else (if x % 2 == 1 || y % 2 == 1 then 1 else 0) + 2 * Or(x / 2, y / 2)
  }

  /** Bitwise and. */
  function And(x: nat, y: nat): nat {
    if x == 0 || y == 0 then 0
    else (if x % 2 == 1 && y % 2 == 1 then 1 else 0) + 2 * And(x / 2, y / 2)
  }

  ghost predicate IsPow2(x: nat) {
    exists n: nat :: x == Pow2(n)
  }

  // ---- powers of two ----

  lemma {:induction false} Pow2Add(a: nat, b: nat)
    ensures Pow2(a + b) == Pow2(a) * Pow2(b)
  {
    if a > 0 {
      Pow2Add(a - 1, b);
      MulDouble(Pow2(a - 1), Pow2(b));
    }
  }

  lemma Pow2Double(k: nat)
    requires k > 0
    ensures Pow2(k) == 2 * Pow2(k - 1)
  {}

  lemma MulDouble(x: int, y: int)
    ensures (2 * x) * y == 2 * (x * y)
  {}

  lemma {:induction false} Pow2Mono(a: nat, b: nat)
    requires a <= b
    ensures Pow2(a) <= Pow2(b)
    decreases b
  {
    if a < b { Pow2Mono(a, b - 1); }
  }

  lemma Pow2Values()
    ensures Pow2(5) == 32 && Pow2(31) == 0x8000_0000 && Pow2(32) == 0x1_0000_0000
  {
    assert Pow2(8) == 256;
    Pow2Add(8, 8);
    Pow2Add(16, 16);
    assert Pow2(32) == 2 * Pow2(31);
  }

  lemma Pow2Of64()
    ensures Pow2(64) == 0x1_0000_0000_0000_0000
  {
    Pow2Values();
    Pow2Add(32, 32);
  }

  /** 2^a divides 2^b when a <= b. */
  lemma Pow2Divides(a: nat, b: nat)
    requires a <= b
    ensures Pow2(b) == Pow2(a) * Pow2(b - a)
    ensures Pow2(b) % Pow2(a) == 0
  {
    Pow2Add(a, b - a);
    MultipleMod(Pow2(b - a), Pow2(a));
  }

  lemma MultipleMod(q: int, m: int)
    requires m > 0
    ensures (m * q) % m == 0
    ensures (m * q) / m == q
  {
    DivModUnique(m * q, m, q, 0);
  }

  lemma DivModUnique(x: int, m: int, q: int, r: int)
    requires m > 0 && 0 <= r < m && x == m * q + r
    ensures x / m == q && x % m == r
  {
    var q', r' := x / m, x % m;
    Distribute(m, q, q');
    if q > q' { MulAtLeast(m, q - q'); }
    if q < q' { MulAtLeast(m, q' - q); Distribute(m, q', q); }
  }

  lemma Distribute(m: int, a: int, b: int)
    ensures m * (a - b) == m * a - m * b
  {}

  lemma MulAtLeast(m: int, d: int)
    requires m > 0 && d >= 1
    ensures m * d >= m
  {
    Distribute(m, d, 1);
    assert m * (d - 1) >= 0;
  }

  // ---- or ----

  lemma {:induction false} OrZero(x: nat)
    ensures Or(x, 0) == x && Or(0, x) == x
  {
    if x > 0 { OrZero(x / 2); }
  }

  lemma {:induction false} OrComm(x: nat, y: nat)
    ensures Or(x, y) == Or(y, x)
  {
    if x > 0 || y > 0 { OrComm(x / 2, y / 2); }
  }

  /** An OR of numbers with no common bit is their sum. */
  lemma {:induction false} OrDisjoint(lo: nat, hi: nat, k: nat)
    requires lo < Pow2(k)
    ensures Or(lo, Pow2(k) * hi) == lo + Pow2(k) * hi
    decreases k
  {
    if k == 0 {
      OrZero(hi);
    } else {
      var y := Pow2(k) * hi;
      assert y == 2 * (Pow2(k - 1) * hi);
      assert y % 2 == 0 && y / 2 == Pow2(k - 1) * hi;
      OrDisjoint(lo / 2, hi, k - 1);
      if lo == 0 && y == 0 {
      } else {
        assert Or(lo, y) == lo % 2 + 2 * Or(lo / 2, y / 2);
      }
    }
  }

  /** An OR distributes over a split into high and low bits. */
  lemma {:induction false} OrSplit(a: nat, b: nat, x: nat, y: nat, k: nat)
    requires x < Pow2(k) && y < Pow2(k)
    ensures Or(Pow2(k) * a + x, Pow2(k) * b + y) == Pow2(k) * Or(a, b) + Or(x, y)
    ensures Or(x, y) < Pow2(k)
    decreases k
  {
    if k == 0 {
      assert Or(0, 0) == 0;
    } else {
      var p := Pow2(k - 1);
      DoubleProduct(k, a, x);
      DoubleProduct(k, b, y);
      OrSplit(a, b, x / 2, y / 2, k - 1);
      OrStep(Pow2(k) * a + x, Pow2(k) * b + y);
      OrStep(x, y);
      DoubleProduct(k, Or(a, b), 0);
    }
  }

  lemma OrStep(x: nat, y: nat)
    ensures Or(x, y) == (if x % 2 == 1 || y % 2 == 1 then 1 else 0) + 2 * Or(x / 2, y / 2)
  {}

  lemma DoubleProduct(k: nat, a: nat, x: nat)
    requires k > 0
    ensures Pow2(k) * a == 2 * (Pow2(k - 1) * a) >= 0
    ensures (Pow2(k) * a + x) / 2 == Pow2(k - 1) * a + x / 2
    ensures (Pow2(k) * a + x) % 2 == x % 2
  {
    var p := Pow2(k - 1);
    assert (2 * p) * a == 2 * (p * a);
  }

  // ---- and ----

  /** Masking with 2^k - 1 is the remainder modulo 2^k. */
  lemma {:induction false} AndMask(x: nat, k: nat)
    ensures And(x, Pow2(k) - 1) == x % Pow2(k)
    decreases k
  {
    if k == 0 {
    } else if x == 0 {
    } else {
      var y := Pow2(k) - 1;
      assert y % 2 == 1 && y / 2 == Pow2(k - 1) - 1;
      AndMask(x / 2, k - 1);
      HalfMod(x, Pow2(k - 1));
    }
  }

  lemma HalfMod(x: nat, m: nat)
    requires m >= 1
    ensures x % (2 * m) == x % 2 + 2 * ((x / 2) % m)
  {
    var h := x / 2;
    var q, r := h / m, h % m;
    assert h == m * q + r;
    assert x == 2 * m * q + (2 * r + x % 2) by {
      assert x == 2 * h + x % 2;
      assert 2 * (m * q) == 2 * m * q;
    }
    DivModUnique(x, 2 * m, q, 2 * r + x % 2);
  }

  /** Testing one bit. */
  lemma {:induction false} AndBit(x: nat, k: nat)
    ensures And(x, Pow2(k)) == (if (x / Pow2(k)) % 2 == 1 then Pow2(k) else 0)
    decreases k
  {
    if x == 0 {
      DivModUnique(0, Pow2(k), 0, 0);
    } else if k == 0 {
      assert And(x, 1) == (if x % 2 == 1 then 1 else 0) + 2 * And(x / 2, 0);
    } else {
      assert Pow2(k) % 2 == 0 && Pow2(k) / 2 == Pow2(k - 1);
      AndBit(x / 2, k - 1);
      HalfDiv(x, Pow2(k - 1));
    }
  }

  lemma HalfDiv(x: nat, m: nat)
    requires m >= 1
    ensures x / (2 * m) == (x / 2) / m
  {
    var h := x / 2;
    var q, r := h / m, h % m;
    assert x == 2 * m * q + (2 * r + x % 2) by {
      assert h == m * q + r;
      assert x == 2 * h + x % 2;
      assert 2 * (m * q) == 2 * m * q;
    }
    DivModUnique(x, 2 * m, q, 2 * r + x % 2);
  }

  // ---- shifts ----

  /** x >> k. */
  function Shr(x: nat, k: nat): nat {
    if k == 0 then x else Shr(x / 2, k - 1)
  }

  /** k one bits: 2^k - 1. */
  function Ones(k: nat): nat {
    if k == 0 then 0 else 2 * Ones(k - 1) + 1
  }

  lemma {:induction false} OnesValue(k: nat)
    ensures Ones(k) == Pow2(k) - 1
  {
    if k > 0 { OnesValue(k - 1); }
  }

  lemma {:induction false} ShrIsDiv(x: nat, k: nat)
    ensures Shr(x, k) == x / Pow2(k)
    decreases k
  {
    if k > 0 {
      ShrIsDiv(x / 2, k - 1);
      HalfDiv(x, Pow2(k - 1));
    }
  }

  lemma {:induction false} ShrShr(x: nat, a: nat, b: nat)
    ensures Shr(Shr(x, a), b) == Shr(x, a + b)
    decreases a
  {
    if a > 0 { ShrShr(x / 2, a - 1, b); }
  }

  lemma {:induction false} ShrOr(x: nat, y: nat, k: nat)
    ensures Shr(Or(x, y), k) == Or(Shr(x, k), Shr(y, k))
    decreases k
  {
    if k > 0 {
      OrStep(x, y);
      ShrOr(x / 2, y / 2, k - 1);
    }
  }

  lemma {:induction false} ShrOnes(a: nat, b: nat)
    requires a <= b
    ensures Shr(Ones(b), a) == Ones(b - a)
    decreases a
  {
    if a > 0 { ShrOnes(a - 1, b - 1); }
  }

  lemma {:induction false} ShrSmall(x: nat, k: nat)
    requires x < Pow2(k)
    ensures Shr(x, k) == 0
    decreases k
  {
    if k > 0 { ShrSmall(x / 2, k - 1); }
  }

  /** A number whose bits from i up are all ones becomes all ones when its low i
      bits are filled in. */
  lemma {:induction false} OrFill(x: nat, i: nat, t: nat)
    requires Shr(x, i) == Ones(t)
    ensures Or(x, Ones(i)) == Ones(t + i)
    decreases i
  {
    if i == 0 {
      OrZero(x);
    } else {
      OrFill(x / 2, i - 1, t);
      OrStep(x, Ones(i));
    }
  }

  /** x & (x - 1) clears the lowest set bit: it is zero exactly for powers of two. */
  lemma {:induction false} AndPredecessor(x: nat)
    requires x > 0
    ensures And(x, x - 1) == 0 <==> IsPow2(x)
  {
    if x == 1 {
      assert x == Pow2(0);
    } else if x % 2 == 1 {
      assert And(x, x - 1) == 2 * And(x / 2, (x - 1) / 2);
      assert (x - 1) / 2 == x / 2;
      AndSelf(x / 2);
      forall n: nat ensures x != Pow2(n) { if n == 0 { assert Pow2(0) == 1; } }
    } else {
      assert (x - 1) / 2 == x / 2 - 1;
      assert And(x, x - 1) == 2 * And(x / 2, x / 2 - 1);
      AndPredecessor(x / 2);
      if IsPow2(x / 2) {
        var n: nat :| x / 2 == Pow2(n);
        assert x == Pow2(n + 1);
      }
      if IsPow2(x) {
        var n: nat :| x == Pow2(n);
        assert n > 0 && x / 2 == Pow2(n - 1);
      }
    }
  }

  lemma {:induction false} AndSelf(x: nat)
    ensures And(x, x) == x
  {
    if x > 0 { AndSelf(x / 2); }
  }
}
