/** Decimal text of the fixed-width integers: digit counting, printing into a buffer,
    parsing, and the round trip between them. */
module IntegerText {
  import opened Basics

  datatype IntType = IntType(bits: nat, signed: bool)

  /** 2^bits, for the widths of the standard integer types. */
  function Limit(t: IntType): (r: nat)
    ensures r >= 256 && r % 2 == 0
  {
    if t.bits == 8 then 0x100 else if t.bits == 16 then 0x1_0000
    else if t.bits == 32 then 0x1_0000_0000 else 0x1_0000_0000_0000_0000
  }

  predicate Standard(t: IntType) { t.bits in {8, 16, 32, 64} }

  function Max(t: IntType): (r: nat)
    ensures r >= 127
  {
    if t.signed then Limit(t) / 2 - 1 else Limit(t) - 1
  }

  function Min(t: IntType): int { if t.signed then -(Limit(t) / 2) else 0 }

  predicate InType(t: IntType, n: int) { Min(t) <= n <= Max(t) }

  function Unsigned(t: IntType): IntType { IntType(t.bits, false) }

  function Abs(n: int): nat { if n < 0 then -n else n }

  function Exp10(n: nat): (r: nat)
    ensures r >= 1
  {
    if n == 0 then 1 else 10 * Exp10(n - 1)
  }

  /** How many decimal digits n has. */
  function NumDigits(n: nat): (r: nat)
    ensures r >= 1
  {
    if n < 10 then 1 else 1 + NumDigits(n / 10)
  }

  lemma {:induction false} NumDigitsBrackets(n: nat)
    ensures n < Exp10(NumDigits(n))
    ensures n > 0 ==> Exp10(NumDigits(n) - 1) <= n
  {
    if n >= 10 { NumDigitsBrackets(n / 10); }
  }

  lemma {:induction false} Exp10Mono(a: nat, b: nat)
    requires a <= b
    ensures Exp10(a) <= Exp10(b)
    decreases b
  {
    if a < b { Exp10Mono(a, b - 1); }
  }

  lemma BracketsDetermine(n: nat, k: nat)
    requires k >= 1 && Exp10(k - 1) <= n < Exp10(k)
    ensures NumDigits(n) == k
  {
    NumDigitsBrackets(n);
    var d := NumDigits(n);
    if d < k { Exp10Mono(d, k - 1); }
    if k < d { Exp10Mono(k, d - 1); }
  }

  // ---- counting digits by binary search over powers of ten ----

  function Pow10(count: nat, sum: nat): nat
    decreases count
  {
    if count == 0 then 1 else if count == 1 then sum else Pow10(count - 1, sum * 10)
  }

  lemma {:induction false} Pow10Value(count: nat, sum: nat)
    requires count > 0
    ensures Pow10(count, sum) == sum * Exp10(count - 1)
    decreases count
  {
    if count > 1 {
      Pow10Value(count - 1, sum * 10);
      MulTen(sum, Exp10(count - 2));
    }
  }

  lemma MulTen(a: nat, b: nat)
    ensures (a * 10) * b == a * (10 * b)
  {}

  /** The digit count of a type's largest value, as a compile-time constant. */
  function StaticLog10(value: nat, sum: nat, more: bool): nat
    decreases if more then value + 1 else 0
  {
    if !more then sum else StaticLog10(value / 10, sum + 1, value / 10 != 0)
  }

  lemma {:induction false} StaticLog10Counts(value: nat, sum: nat)
    ensures StaticLog10(value, sum, true) == sum + NumDigits(value)
  {
    if value >= 10 { StaticLog10Counts(value / 10, sum + 1); }
  }

  /** The power of ten probed for c characters. It fits the type for every probe made. */
  function Probe(t: IntType, c: nat): (r: nat)
    requires c <= NumDigits(Max(t))
    ensures r <= Max(t) && r == if c == 0 then 1 else Exp10(c - 1)
  {
    ProbeFits(t, c);
    Pow10(c, 1)
  }

  lemma ProbeFits(t: IntType, c: nat)
    requires c <= NumDigits(Max(t))
    ensures Pow10(c, 1) <= Max(t)
    ensures Pow10(c, 1) == if c == 0 then 1 else Exp10(c - 1)
  {
    if c > 0 {
      Pow10Value(c, 1);
      NumDigitsBrackets(Max(t));
      Exp10Mono(c - 1, NumDigits(Max(t)) - 1);
    }
  }

  /** The powers of ten the search compares with, for type t. */
  function Bounds(t: IntType): (bounds: seq<int>)
    ensures |bounds| == NumDigits(Max(t)) + 1
    ensures forall c :: 0 <= c < |bounds| ==> bounds[c] == if c == 0 then 1 else Exp10(c - 1)
  {
    seq(NumDigits(Max(t)) + 1, c requires 0 <= c <= NumDigits(Max(t)) => Probe(t, c))
  }

  /** CharsInDigit: the search over `width` candidates from `current` on ends on the
      first candidate whose bound is above n. */
  function LowerBounds(bounds: seq<int>, width: nat, current: nat, n: nat): (r: nat)
    requires current + width <= |bounds|
    requires current + width < |bounds| ==> n <= bounds[current + width] - 1
    ensures current <= r <= current + width
    ensures r < |bounds| ==> n <= bounds[r] - 1
    ensures r > current ==> bounds[r - 1] - 1 < n
    decreases width
  {
    var half := width / 2;
    if width == 0 then current
    else if bounds[current + half] - 1 < n then
      LowerBounds(bounds, width - (half + 1), current + half + 1, n)
    else LowerBounds(bounds, half, current, n)
  }

  function MaxChars(t: IntType): (r: nat)
    ensures r == NumDigits(Max(t)) + 1
  {
    StaticLog10Counts(Max(t), 0);
    StaticLog10(Max(t), 0, true) + 1
  }

  /** The search over all candidates of the type. */
  function SearchDigits(t: IntType, n: nat): int {
    LowerBounds(Bounds(t), MaxChars(t), 0, n) - 1
  }

  lemma SearchCountsDigits(t: IntType, n: nat)
    requires 0 < n <= Max(t)
    ensures SearchDigits(t, n) == NumDigits(n)
  {
    hide Bounds, MaxChars, Max;
    var r := LowerBounds(Bounds(t), MaxChars(t), 0, n);
    if r == MaxChars(t) { NumDigitsBrackets(Max(t)); }
    BracketsDetermine(n, r - 1);
  }

  /** iabs: the least value has no negation, so its successor is negated instead. */
  function IAbs(t: IntType, n: int): (a: int)
    requires InType(t, n)
    ensures a == if t.signed && n == Min(t) then Max(t) else Abs(n)
  {
    if !t.signed || n > 0 then n else if n == Min(t) then -(n + 1) else -n
  }

  function CountChars(t: IntType, n: int): int
    requires InType(t, n)
  {
    if IAbs(t, n) < 10 then 1 else SearchDigits(t, IAbs(t, n))
  }

  /** The search counts the decimal digits of every value of the type, the least included. */
  lemma CountCharsIsDigits(t: IntType, n: int)
    requires Standard(t) && InType(t, n)
    ensures CountChars(t, n) == NumDigits(Abs(n))
  {
    hide SearchDigits;
    LeastHasSameDigits(t);
    if IAbs(t, n) >= 10 { SearchCountsDigits(t, IAbs(t, n)); }
  }

  lemma LeastHasSameDigits(t: IntType)
    requires Standard(t)
    ensures t.signed ==> NumDigits(Max(t) + 1) == NumDigits(Max(t))
    ensures Max(t) >= 10
  {
    assert (Max(t) + 1) / 10 == Max(t) / 10;
  }

  // ---- decimal text ----

  function Digit(d: nat): char
    requires d < 10
  {
    '0' + d as char
  }

  function Text(n: nat): (s: string)
    ensures |s| == NumDigits(n)
  {
    if n < 10 then [Digit(n)] else Text(n / 10) + [Digit(n % 10)]
  }

  function SignedText(n: int): string { (if n < 0 then "-" else "") + Text(Abs(n)) }

  /** n with its last k digits dropped. */
  function DropDigits(n: nat, k: nat): nat
    decreases k
  {
    if k == 0 then n else DropDigits(n / 10, k - 1)
  }

  lemma {:induction false} DropDrop(n: nat, a: nat, b: nat)
    ensures DropDigits(DropDigits(n, a), b) == DropDigits(n, a + b)
    decreases a
  {
    if a > 0 { DropDrop(n / 10, a - 1, b); }
  }

  lemma DropOneMore(n: nat, k: nat)
    ensures DropDigits(n, k + 1) == DropDigits(n, k) / 10
  {
    DropDrop(n, k, 1);
    assert DropDigits(DropDigits(n, k), 1) == DropDigits(DropDigits(n, k) / 10, 0);
  }

  lemma {:induction false} TextAt(n: nat, k: nat)
    requires k < NumDigits(n)
    ensures Text(n)[NumDigits(n) - 1 - k] == Digit(DropDigits(n, k) % 10)
    decreases k
  {
    if k > 0 { TextAt(n / 10, k - 1); }
  }

  // C++ division truncates toward zero; the remainder takes the dividend's sign.

  function TruncDiv10(n: int): int { if n < 0 then -(-n / 10) else n / 10 }

  function TruncRem10(n: int): int { if n < 0 then -(-n % 10) else n % 10 }

  /** Prints an integer into a buffer of `size` characters. When it does not fit, the
      leading characters are written and the digits dropped at the end are counted. */
  method ToBuffer(t: IntType, n: int, buffer: array<char>, size: nat) returns (written: nat, truncated: nat)
    requires Standard(t) && InType(t, n)
    requires size <= buffer.Length && (n < 0 ==> size >= 1)
    modifies buffer
    ensures written == if |SignedText(n)| <= size then |SignedText(n)| else size
    ensures buffer[..] == SignedText(n)[..written] + old(buffer[written..])
    ensures truncated == |SignedText(n)| - written
  {
    assert n < 0 ==> t.signed;
    assert Abs(n) == if n < 0 then -n else n;
    assert DropDigits(Abs(n), 0) == Abs(n);
    hide *;
    CountCharsIsDigits(t, n);
    var integer, room := n, size;
    var chars: nat := CountChars(t, n);
    var start := 0;
    var negative := false;
    if t.signed && n < 0 {
      buffer[0] := '-';
      start, room, negative := 1, room - 1, true;
    }
    truncated := if chars > room then chars - room else 0;
    integer := DropTrailing(n, truncated);
    chars := chars - truncated;
    SignedPrefix(n, chars);
    assert buffer[..start] == if n < 0 then "-" else "";
    assert buffer[start + chars..] == old(buffer[start + chars..]);
    WriteDigits(integer, t.signed && negative, buffer, start, chars, Abs(n), truncated);
    written := chars + start;
  }

  lemma SignedPrefix(n: int, chars: nat)
    requires chars <= NumDigits(Abs(n))
    ensures var start := if n < 0 then 1 else 0;
      && |SignedText(n)| == start + NumDigits(Abs(n))
      && SignedText(n)[..start + chars] == (if n < 0 then "-" else "") + Text(Abs(n))[..chars]
  {}

  method DropTrailing(n: int, k: nat) returns (integer: int)
    ensures Abs(integer) == DropDigits(Abs(n), k)
    ensures if n < 0 then integer <= 0 else integer >= 0
  {
    integer := n;
    for i := 0 to k
      invariant Abs(integer) == DropDigits(Abs(n), i)
      invariant if n < 0 then integer <= 0 else integer >= 0
    {
      DropOneMore(Abs(n), i);
      integer := TruncDiv10(integer);
    }
  }

  /** The digit loop, from the last character to the first. */
  method WriteDigits(n: int, negative: bool, buffer: array<char>, start: nat, chars: nat, ghost whole: nat,
                     ghost dropped: nat)
    requires start + chars <= buffer.Length && dropped + chars == NumDigits(whole)
    requires Abs(n) == DropDigits(whole, dropped)
    requires if negative then n <= 0 else n >= 0
    modifies buffer
    ensures buffer[..] == old(buffer[..start]) + Text(whole)[..chars] + old(buffer[start + chars..])
  {
    hide Text, NumDigits, Digit;
    var integer := n;
    for i := 0 to chars
      invariant Abs(integer) == DropDigits(whole, dropped + i)
      invariant if negative then integer <= 0 else integer >= 0
      invariant forall j :: chars - i <= j < chars ==> buffer[start + j] == Text(whole)[j]
      invariant buffer[..start] == old(buffer[..start]) && buffer[start + chars..] == old(buffer[start + chars..])
    {
      TextAt(whole, dropped + i);
      DropOneMore(whole, dropped + i);
      var remainder := TruncRem10(integer);
      if negative { remainder := -remainder; }
      integer := TruncDiv10(integer);
      buffer[start + chars - 1 - i] := Digit(remainder);
    }
  }
}
