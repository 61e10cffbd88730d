/** Facts about indices that wrap: ring positions and fixed-width counters. */
module Modular {
  import opened Bits

  /** Positions less than n apart fall on different slots of a ring of n. */
  lemma ModDistinct(a: nat, b: nat, n: nat)
    requires n > 0 && a < b < a + n
    ensures a % n != b % n
  {
    Distribute(n, b / n, a / n);
    NoMultipleBetween(n, b / n - a / n);
  }

  lemma NoMultipleBetween(n: int, k: int)
    requires n > 0
    ensures n * k <= 0 || n * k >= n
  {
    if k >= 1 { MulAtLeast(n, k); }
  }

  /** Reducing modulo a multiple of n first does not change the slot. */
  lemma ModOfMultiple(x: int, m: nat, n: nat)
    requires n > 0 && m > 0 && m % n == 0
    ensures (x % m) % n == x % n
  {
    var q := x / m;
    var c := m / n;
    assert m == n * c;
    var r, t := (x % m) / n, (x % m) % n;
    assert x == m * q + (n * r + t);
    assert (n * c) * q == n * (c * q);
    assert n * (c * q) + n * r == n * (c * q + r);
    DivModUnique(x, n, c * q + r, t);
  }

  /** Adding before or after reducing gives the same remainder. */
  lemma ModAdd(x: int, y: int, n: nat)
    requires n > 0
    ensures ((x % n) + y) % n == (x + y) % n
  {
    var q := x / n;
    var u := (x % n) + y;
    var r, t := u / n, u % n;
    assert x + y == n * q + u;
    assert n * q + n * r == n * (q + r);
    DivModUnique(x + y, n, q + r, t);
  }

  /** The difference of two wrapped counters is the true distance, if it fits. */
  lemma ModSub(p: nat, g: nat, n: nat)
    requires n > 0 && g <= p < g + n
    ensures ((p % n) - (g % n)) % n == p - g
  {
    var d := p / n - g / n;
    Distribute(n, p / n, g / n);
    assert (p % n) - (g % n) == (p - g) - n * d;
    assert n * (-d) == -(n * d);
    DivModUnique((p % n) - (g % n), n, -d, p - g);
  }

  lemma ModSmall(x: int, n: nat)
    requires 0 <= x < n
    ensures x % n == x
  {}

  lemma ModLapDown(x: nat, n: nat)
    requires n > 0 && x >= n
    ensures x % n == (x - n) % n
  {
    DivModUnique(x, n, (x - n) / n + 1, (x - n) % n);
  }

  /** A wrapped position is its offset, or its offset less one lap. */
  lemma ModLap(p: nat, j: nat, n: nat)
    requires p < n && j <= n
    ensures (p + j) % n == if p + j < n then p + j else p + j - n
  {
    if p + j >= n { DivModUnique(p + j, n, 1, p + j - n); }
    else { DivModUnique(p + j, n, 0, p + j); }
  }

  /** Multiplying before or after reducing gives the same remainder. */
  lemma ModTimes(x: nat, y: nat, m: nat)
    requires m > 0
    ensures ((x % m) * y) % m == (x * y) % m
  {
    var q, r := x / m, x % m;
    var u, v := (r * y) / m, (r * y) % m;
    Factor(m, q, y);
    assert x * y == (m * q) * y + r * y;
    assert m * (q * y + u) == m * (q * y) + m * u;
    DivModUnique(x * y, m, q * y + u, v);
  }

  lemma Factor(m: nat, q: nat, y: nat)
    ensures (m * q) * y == m * (q * y)
  {}
}
