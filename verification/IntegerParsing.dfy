/** Parsing of decimal text into the fixed-width integers, and what printing followed by
    parsing gives back. */
module IntegerParsing {
  import opened Basics
  import opened Bits
  import opened IntegerText
  import opened Modular

  datatype ParseError = Ok | EmptyString | MultipleCommas | IllegalExponentValue

  /** inf and nan are cleared by the number parser and never set by it. */
  datatype Parsed = Parsed(negative: bool, inf: bool, nan: bool, significand: nat, digitCount: nat, exp: int, end: nat)

  predicate IsSpace(c: char) {
    c as int in {0x20, 0x09, 0x0a, 0x0b, 0x0c, 0x0d}
  }

  predicate IsDigit(c: char) { '0' <= c <= '9' }

  function DigitValue(c: char): (d: nat)
    requires IsDigit(c)
    ensures d < 10 && Digit(d) == c
  {
    (c - '0') as int
  }

  // ---- the scan over digits and the decimal point ----

  const DIGIT_COUNTS: nat := 256   // the digit count is an unsigned char

  /** Where the scan is: the significand so far (in the unsigned type), its digit count,
      that before the point (-1 when there was none), and the next character. */
  datatype Scan = Scan(significand: nat, count: nat, point: int, at: nat)

  /** Storing a number into an unsigned type of `limit` values. */
  function Wrap(n: nat, limit: nat): (r: nat)
    requires limit > 0
    ensures r < limit && (n < limit ==> r == n)
  {
    n % limit
  }

  predicate Scanned(c: char) { IsDigit(c) || c == '.' }

  function ScanOne(limit: nat, c: char, s: Scan): Scan
    requires limit > 0 && Scanned(c)
  {
    if c == '.' then s.(point := s.count, at := s.at + 1)
    else s.(significand := Wrap(s.significand * 10 + DigitValue(c), limit),
              count := Wrap(s.count + 1, DIGIT_COUNTS), at := s.at + 1)
  }

  /** The scan stops at the first other character, at a second point, or at `size`. */
  function ScanAll(limit: nat, memory: string, size: nat, s: Scan): (r: Scan)
    requires limit > 0 && s.at <= size <= |memory|
    ensures r.at <= size
    decreases size - s.at
  {
    if s.at == size || !Scanned(memory[s.at]) || (memory[s.at] == '.' && s.point >= 0) then s
    else ScanAll(limit, memory, size, ScanOne(limit, memory[s.at], s))
  }

  predicate IsExponent(c: char) { c == 'e' || c == 'E' }

  function SkipSpaces(memory: string, size: nat, at: nat): (r: nat)
    requires at <= size <= |memory|
    ensures at <= r <= size
    ensures forall k :: at <= k < r ==> IsSpace(memory[k])
    ensures r < size ==> !IsSpace(memory[r])
    decreases size - at
  {
    if at == size || !IsSpace(memory[at]) then at else SkipSpaces(memory, size, at + 1)
  }

  function ExponentDigits(memory: string, size: nat, at: nat, value: nat): (r: (nat, nat))
    requires at <= |memory| && size <= |memory|
    ensures r.1 >= at
    decreases size - at
  {
    if at >= size || !IsDigit(memory[at]) then (value, at)
    else ExponentDigits(memory, size, at + 1, value * 10 + DigitValue(memory[at]))
  }

  /** The exponent after the e: how it ends the parse. A mantissa's own exponent is `shift`. */
  function ParseExponent(memory: string, size: nat, p: Parsed, shift: int): (ParseError, Parsed)
    requires size < |memory| && p.end <= size + 1
    requires p.end < |memory| || p.end == size
  {
    if p.end == size then (IllegalExponentValue, p)
    else
      var negative := memory[p.end] == '-';
      var start := if negative || memory[p.end] == '+' then p.end + 1 else p.end;
      if start == size then (IllegalExponentValue, p.(end := start))
      else
        var (value, end) := ExponentDigits(memory, size, start, 0);
        if end == start then (IllegalExponentValue, p.(end := end))
        else (Ok, p.(exp := if negative then shift - value else shift + value, end := end))
  }

  /** The exponent digits read at `at`, and their sum with the shift, are within an int. */
  predicate ExponentFits(memory: string, size: nat, at: nat, shift: int)
    requires size < |memory| && at <= size + 1 && (at < |memory| || at == size)
  {
    var (error, p) := ParseExponent(memory, size, Parsed(false, false, false, 0, 0, 0, at), shift);
    error == Ok ==> -INT_MAX <= p.exp - shift <= INT_MAX && INT_MIN <= p.exp <= INT_MAX
  }

  /** What the number parser answers. */
  function Parse(limit: nat, memory: string, size: nat): (ParseError, Parsed)
    requires limit > 0 && Readable(memory, size)
  {
    var start := SkipSpaces(memory, size, 0);
    if start == size then (EmptyString, Parsed(false, false, false, 0, 0, 0, start))
    else
      var negative := memory[start] == '-';
      var first := if negative then start + 1 else start;
      ParseRest(memory, size, negative, ScanAll(limit, memory, size, Scan(0, 0, -1, first)))
  }

  /** What it answers once the scan has stopped. */
  function ParseRest(memory: string, size: nat, negative: bool, s: Scan): (ParseError, Parsed)
    requires Readable(memory, size) && s.at <= size
  {
    var p := Parsed(negative, false, false, s.significand, s.count, 0, s.at);
    if s.at < size && memory[s.at] == '.' then (MultipleCommas, p)
    else
      var shift := if s.point >= 0 then s.point - s.count else 0;
      if !IsExponent(memory[s.at]) then (Ok, p.(exp := shift))
      else ParseExponent(memory, size, p.(end := s.at + 1), shift)
  }

  /** The exponent that the parse meets, if it meets one, is within an int. */
  predicate NumberFits(limit: nat, memory: string, size: nat)
    requires limit > 0 && Readable(memory, size)
  {
    var start := SkipSpaces(memory, size, 0);
    start < size ==>
      var first := if memory[start] == '-' then start + 1 else start;
      RestFits(memory, size, ScanAll(limit, memory, size, Scan(0, 0, -1, first)))
  }

  predicate RestFits(memory: string, size: nat, s: Scan)
    requires Readable(memory, size) && s.at <= size
  {
    && !(s.at < size && memory[s.at] == '.') && IsExponent(memory[s.at]) ==>
      ExponentFits(memory, size, s.at + 1, if s.point >= 0 then s.point - s.count else 0)
  }

  /** What the parser reads: one character past the text, and one more after an e there. */
  predicate Readable(memory: string, size: nat) {
    size < |memory| && (IsExponent(memory[size]) ==> size + 1 < |memory|)
  }

  /** parseNumber, without a limit on the digit count. The answer is that of the mathematical
      exponent; `overflow` is whether the source's int has overflowed on the way to it. */
  method ParseNumber(limit: nat, memory: string, size: nat) returns (error: ParseError, p: Parsed, overflow: bool)
    requires limit > 0 && Readable(memory, size)
    ensures (error, p) == Parse(limit, memory, size)
    ensures overflow <==> !NumberFits(limit, memory, size)
  {
    hide ScanAll, ExponentDigits, ParseExponent, ExponentFits, Wrap, IsSpace, Scanned;
    overflow := false;
    p := Parsed(false, false, false, 0, 0, 0, 0);
    var current := 0;
    while current < size && IsSpace(memory[current])
      invariant current <= size && SkipSpaces(memory, size, 0) == SkipSpaces(memory, size, current)
    {
      current := current + 1;
    }
    if current == size { return EmptyString, p.(end := current), false; }
    if memory[current] == '-' {
      p := p.(negative := true);
      current := current + 1;
    }
    var scan;
    error, scan := ScanNumber(limit, memory, size, current);
    p := p.(significand := scan.significand, digitCount := scan.count, end := scan.at);
    if error != Ok { return; }
    var shift := if scan.point >= 0 then scan.point - scan.count else 0;
    if !IsExponent(memory[p.end]) {
      p := p.(exp := shift);
      return;
    }
    error, p, overflow := ParseExponentPart(memory, size, p.(end := p.end + 1), shift);
  }

  /** The digit loop of parseNumber; a second point ends the parse. */
  method ScanNumber(limit: nat, memory: string, size: nat, start: nat) returns (error: ParseError, s: Scan)
    requires limit > 0 && start <= size <= |memory|
    ensures s == ScanAll(limit, memory, size, Scan(0, 0, -1, start))
    ensures error == if s.at < size && memory[s.at] == '.' then MultipleCommas else Ok
  {
    s := Scan(0, 0, -1, start);
    while s.at < size && Scanned(memory[s.at])
      invariant s.at <= size
      invariant ScanAll(limit, memory, size, Scan(0, 0, -1, start)) == ScanAll(limit, memory, size, s)
      decreases size - s.at
    {
      if memory[s.at] == '.' {
        if s.point >= 0 { return MultipleCommas, s; }
        s := s.(point := s.count);
      } else {
        s := s.(significand := Wrap(s.significand * 10 + DigitValue(memory[s.at]), limit),
                count := Wrap(s.count + 1, DIGIT_COUNTS));
      }
      s := s.(at := s.at + 1);
    }
    error := Ok;
  }

  method ParseExponentPart(memory: string, size: nat, scaled: Parsed, shift: int)
    returns (error: ParseError, p: Parsed, overflow: bool)
    requires size < |memory| && scaled.end <= size + 1
    requires scaled.end < |memory| || scaled.end == size
    ensures (error, p) == ParseExponent(memory, size, scaled, shift)
    ensures overflow <==> !ExponentFits(memory, size, scaled.end, shift)
  {
    var current := scaled.end;
    if current == size { return IllegalExponentValue, scaled.(end := current), false; }
    var exponentNegative := false;
    if memory[current] == '-' {
      exponentNegative := true;
      current := current + 1;
    } else if memory[current] == '+' {
      current := current + 1;
    }
    if current == size { return IllegalExponentValue, scaled.(end := current), false; }
    var exponent: int, anyDigit := 0, false;
    ghost var start := current;
    overflow := false;
    while current < size && IsDigit(memory[current])
      invariant exponent >= 0 && start <= current && (current <= size || current == start)
      invariant anyDigit == (current > start)
      invariant ExponentDigits(memory, size, start, 0) == ExponentDigits(memory, size, current, exponent)
      invariant overflow <==> exponent > INT_MAX
    {
      anyDigit := true;
      exponent := exponent * 10 + (memory[current] - '0') as int;
      overflow := overflow || exponent > INT_MAX;
      current := current + 1;
    }
    if !anyDigit { return IllegalExponentValue, scaled.(end := current), false; }
    if exponentNegative { exponent := -exponent; }
    overflow := overflow || shift + exponent > INT_MAX || shift + exponent < INT_MIN;
    return Ok, scaled.(exp := shift + exponent, end := current), overflow;
  }

  // ---- conversion ----

  function Signed(negative: bool, n: int): int { if negative then -n else n }

  /** A significand read as type t and given its sign; None is a signed overflow: negating
      the least value of a type that is not promoted to a wider one. */
  function WithSign(t: IntType, significand: nat, negative: bool): Option<int> {
    var v := if t.signed && significand > Max(t) then significand - Limit(t) else significand;
    if !t.signed || !negative then Some(v)
    else if v != Min(t) then Some(-v)
    else if t.bits < 32 then Some(v)
    else None
  }

  /** significand * 10^exp in the unsigned type. */
  function Scaled(limit: nat, significand: nat, exp: nat): nat
    requires limit > 0
    decreases exp
  {
    if exp == 0 then significand else Scaled(limit, Wrap(significand * 10, limit), exp - 1)
  }

  function Convert(t: IntType, p: Parsed): Option<int> {
    if p.inf then Some(if p.negative then Min(t) else Max(t))
    else if p.nan then Some(0)
    else if p.exp < 0 then
      if -p.exp >= NumDigits(p.significand) then Some(0)
      else WithSign(t, DropDigits(p.significand, -p.exp), p.negative)
    else if p.exp > 0 && p.exp > NumDigits(Max(t)) - NumDigits(p.significand) then
      Some(if p.negative then Min(t) else Max(t))
    else WithSign(t, Scaled(Limit(t), p.significand, p.exp), p.negative)
  }

  method ConvertToInteger(t: IntType, p: Parsed) returns (r: Option<int>)
    requires Standard(t) && p.significand < Limit(t)
    ensures r == Convert(t, p)
  {
    UnsignedFits(t, p.significand);
    ConvertCases(t, p);
    hide *;
    if p.inf { return Some(if p.negative then Min(t) else Max(t)); }
    if p.nan { return Some(0); }
    CountCharsIsDigits(Unsigned(t), p.significand);
    var chars := CountChars(Unsigned(t), p.significand);
    if p.exp < 0 {
      r := ConvertDown(t, p, chars);
    } else if p.exp > 0 {
      r := ConvertUp(t, p, chars);
    } else {
      NoScaling(Limit(t), p.significand);
      r := WithSign(t, p.significand, p.negative);
    }
  }

  /** A negative exponent drops digits, all of them or that many. */
  method ConvertDown(t: IntType, p: Parsed, chars: int) returns (r: Option<int>)
    requires !p.inf && !p.nan && p.exp < 0 && chars == NumDigits(p.significand)
    ensures r == Convert(t, p)
  {
    ConvertCases(t, p);
    hide *;
    if -p.exp >= chars { return Some(0); }
    var significand := ScaleDown(p.significand, p.exp);
    r := WithSign(t, significand, p.negative);
  }

  /** A positive exponent saturates on the digit count, or multiplies. */
  method ConvertUp(t: IntType, p: Parsed, chars: int) returns (r: Option<int>)
    requires !p.inf && !p.nan && p.exp > 0 && chars == NumDigits(p.significand)
    ensures r == Convert(t, p)
  {
    ConvertCases(t, p);
    StaticLog10Counts(Max(t), 0);
    hide *;
    if p.exp > StaticLog10(Max(t), 0, true) - chars { return Some(if p.negative then Min(t) else Max(t)); }
    var significand := ScaleUp(Limit(t), p.significand, p.exp);
    r := WithSign(t, significand, p.negative);
  }

  /** Convert, case by case. */
  lemma ConvertCases(t: IntType, p: Parsed)
    ensures p.inf ==> Convert(t, p) == Some(if p.negative then Min(t) else Max(t))
    ensures !p.inf && p.nan ==> Convert(t, p) == Some(0)
    ensures !p.inf && !p.nan && p.exp < 0 && -p.exp >= NumDigits(p.significand) ==> Convert(t, p) == Some(0)
    ensures !p.inf && !p.nan && p.exp < 0 && -p.exp < NumDigits(p.significand) ==>
      Convert(t, p) == WithSign(t, DropDigits(p.significand, -p.exp), p.negative)
    ensures !p.inf && !p.nan && p.exp > 0 && p.exp > NumDigits(Max(t)) - NumDigits(p.significand) ==>
      Convert(t, p) == Some(if p.negative then Min(t) else Max(t))
    ensures !p.inf && !p.nan && p.exp >= 0 && !(p.exp > 0 && p.exp > NumDigits(Max(t)) - NumDigits(p.significand)) ==>
      Convert(t, p) == WithSign(t, Scaled(Limit(t), p.significand, p.exp), p.negative)
  {}

  lemma UnsignedFits(t: IntType, n: nat)
    requires Standard(t) && n < Limit(t)
    ensures Standard(Unsigned(t)) && InType(Unsigned(t), n) && Abs(n) == n
  {}

  lemma NoScaling(limit: nat, n: nat)
    requires limit > 0
    ensures Scaled(limit, n, 0) == n
  {}

  /** The division loop for a negative exponent. */
  method ScaleDown(n: nat, exponent: int) returns (significand: nat)
    requires exponent <= 0
    ensures significand == DropDigits(n, -exponent)
  {
    var exp: int := exponent;
    significand := n;
    while exp < 0
      invariant exp <= 0 && DropDigits(significand, -exp) == DropDigits(n, -exponent)
    {
      significand := significand / 10;
      exp := exp + 1;
    }
  }

  /** The multiplication loop for a positive exponent. */
  method ScaleUp(limit: nat, n: nat, exponent: nat) returns (significand: nat)
    requires limit > 0
    ensures significand == Scaled(limit, n, exponent)
  {
    var exp := exponent;
    significand := n;
    while exp > 0
      invariant Scaled(limit, significand, exp) == Scaled(limit, n, exponent)
    {
      significand := Wrap(significand * 10, limit);
      exp := exp - 1;
    }
  }

  /** to_integer: parses and converts; on an error the target is zero. The conversion negates
      a negative exponent, which overflows for the least int. */
  method ToInteger(t: IntType, memory: string, size: nat)
    returns (error: ParseError, target: Option<int>, end: nat, overflow: bool)
    requires Standard(t) && Readable(memory, size)
    ensures overflow <==>
      var (e, p) := Parse(Limit(t), memory, size);
      !NumberFits(Limit(t), memory, size) || (e == Ok && p.exp == INT_MIN)
    ensures error == Parse(Limit(t), memory, size).0 && end == Parse(Limit(t), memory, size).1.end
    ensures target == if error == Ok then Convert(t, Parse(Limit(t), memory, size).1) else Some(0)
  {
    var p;
    error, p, overflow := ParseNumber(Limit(t), memory, size);
    SignificandFits(Limit(t), memory, size);
    end := p.end;
    if error != Ok { return error, Some(0), end, overflow; }
    overflow := overflow || p.exp == INT_MIN;
    target := ConvertToInteger(t, p);
  }

  lemma SignificandFits(limit: nat, memory: string, size: nat)
    requires limit > 0 && Readable(memory, size)
    ensures Parse(limit, memory, size).1.significand < limit
  {
    var start := SkipSpaces(memory, size, 0);
    if start < size {
      ScanFits(limit, memory, size, Scan(0, 0, -1, if memory[start] == '-' then start + 1 else start));
    }
  }

  lemma {:induction false} ScanFits(limit: nat, memory: string, size: nat, s: Scan)
    requires limit > 0 && s.at <= size <= |memory| && s.significand < limit
    ensures ScanAll(limit, memory, size, s).significand < limit
    decreases size - s.at
  {
    if s.at < size && Scanned(memory[s.at]) && !(memory[s.at] == '.' && s.point >= 0) {
      ScanFits(limit, memory, size, ScanOne(limit, memory[s.at], s));
    }
  }

  // ---- what parsing means ----

  predicate AllDigits(ds: string) { forall k :: 0 <= k < |ds| ==> '0' <= ds[k] <= '9' }

  /** The six characters of white space: blank, tab, line feed, vertical tab, form feed, return. */
  predicate AllSpaces(w: string) {
    forall k :: 0 <= k < |w| ==> w[k] == ' ' || w[k] == '\t' || w[k] == '\n' || w[k] == '\r' || w[k] as int in {11, 12}
  }

  /** The number that digits denote, after what the digits before them denote. */
  function Value(before: nat, ds: string): nat
    requires AllDigits(ds)
  {
    if ds == [] then before else 10 * Value(before, ds[..|ds| - 1]) + DigitValue(ds[|ds| - 1])
  }

  lemma {:induction false} ValueOfText(n: nat)
    ensures AllDigits(Text(n)) && Value(0, Text(n)) == n
  {
    if n >= 10 {
      ValueOfText(n / 10);
      assert Text(n)[..|Text(n)| - 1] == Text(n / 10);
    } else {
      assert Text(n)[..0] == [];
    }
  }

  lemma {:induction false} ValueAppend(before: nat, a: string, b: string)
    requires AllDigits(a) && AllDigits(b)
    ensures AllDigits(a + b) && Value(before, a + b) == Value(Value(before, a), b)
  {
    if b == [] {
      assert a + b == a;
    } else {
      ValueAppend(before, a, b[..|b| - 1]);
      assert (a + b)[..|a + b| - 1] == a + b[..|b| - 1];
    }
  }

  /** Dropping the digits that were appended gives back what was before them. */
  lemma {:induction false} DropAppended(before: nat, ds: string)
    requires AllDigits(ds)
    ensures DropDigits(Value(before, ds), |ds|) == before
  {
    if ds != [] {
      DropAppended(before, ds[..|ds| - 1]);
    }
  }

  lemma {:induction false} DropAll(n: nat, k: nat)
    requires k >= NumDigits(n)
    ensures DropDigits(n, k) == 0
    decreases k
  {
    if n < 10 { DropZero(k - 1); } else { DropAll(n / 10, k - 1); }
  }

  lemma {:induction false} DropZero(k: nat)
    ensures DropDigits(0, k) == 0
  {
    if k > 0 { DropZero(k - 1); }
  }

  /** A run of digits is scanned into its value, reduced to the unsigned type. */
  lemma {:induction false} ScanDigits(limit: nat, memory: string, size: nat, s: Scan, ds: string)
    requires limit > 0 && AllDigits(ds) && s.at + |ds| <= size <= |memory|
    requires memory[s.at..s.at + |ds|] == ds && s.significand < limit && s.count < DIGIT_COUNTS
    ensures ScanAll(limit, memory, size, s)
         == ScanAll(limit, memory, size, Scan(Wrap(Value(s.significand, ds), limit),
                                              Wrap(s.count + |ds|, DIGIT_COUNTS), s.point, s.at + |ds|))
  {
    hide Wrap, ScanAll, ScanOne, DigitValue;
    if ds == [] {
      ModSmall(s.significand, limit);
      ModSmall(s.count, DIGIT_COUNTS);
    } else {
      var k := |ds| - 1;
      var c := memory[s.at + k];
      assert c == ds[k];
      assert memory[s.at..s.at + k] == ds[..k];
      ScanDigits(limit, memory, size, s, ds[..k]);
      ScanOneDigit(limit, memory, size, Value(s.significand, ds[..k]), s.count + k, s.point, s.at + k);
    }
  }

  lemma ScanOneDigit(limit: nat, memory: string, size: nat, before: nat, count: nat, point: int, at: nat)
    requires limit > 0 && at < size <= |memory| && IsDigit(memory[at])
    ensures ScanAll(limit, memory, size, Scan(Wrap(before, limit), Wrap(count, DIGIT_COUNTS), point, at))
         == ScanAll(limit, memory, size, Scan(Wrap(10 * before + DigitValue(memory[at]), limit),
                                              Wrap(count + 1, DIGIT_COUNTS), point, at + 1))
  {
    Shifted(limit, before, DigitValue(memory[at]));
    ModAdd(count, 1, DIGIT_COUNTS);
  }

  /** Reducing before a digit is appended changes nothing once the result is reduced. */
  lemma Shifted(limit: nat, before: nat, digit: nat)
    requires limit > 0
    ensures ((before % limit) * 10 + digit) % limit == (10 * before + digit) % limit
  {
    ModTimes(before, 10, limit);
    ModAdd((before % limit) * 10, digit, limit);
    ModAdd(before * 10, digit, limit);
  }

  lemma {:induction false} ValueWrap(limit: nat, before: nat, ds: string)
    requires limit > 0 && AllDigits(ds)
    ensures Value(before % limit, ds) % limit == Value(before, ds) % limit
  {
    if ds == [] {
      ModAdd(before, 0, limit);
    } else {
      var init, digit := ds[..|ds| - 1], DigitValue(ds[|ds| - 1]);
      ValueWrap(limit, before, init);
      Shifted(limit, Value(before, init), digit);
      Shifted(limit, Value(before % limit, init), digit);
    }
  }

  lemma {:induction false} SkipExactly(memory: string, size: nat, at: nat, next: nat)
    requires at <= next < size <= |memory| && !IsSpace(memory[next])
    requires forall k :: at <= k < next ==> IsSpace(memory[k])
    ensures SkipSpaces(memory, size, at) == next
    decreases next - at
  {
    if at < next { SkipExactly(memory, size, at + 1, next); }
  }

  /** Spaces, a sign, digits, and possibly a point and more digits. */
  datatype Decimal = Decimal(spaces: string, negative: bool, whole: string, point: bool, fraction: string)

  predicate WellFormed(d: Decimal) {
    AllSpaces(d.spaces) && AllDigits(d.whole) && AllDigits(d.fraction) && (!d.point ==> d.fraction == "")
  }

  function Sign(negative: bool): string { if negative then "-" else "" }

  /** What the parser keeps of a decimal's digits: their value in the unsigned type. */
  function Kept(limit: nat, d: Decimal): (n: nat)
    requires limit > 0 && WellFormed(d)
    ensures n < limit
  {
    DigitsTogether(d);
    Wrap(Value(0, d.whole + d.fraction), limit)
  }

  /** The digit count that the parser arrives at, that before the point, and the power of ten
      that it makes of the fraction. */
  function CountOf(d: Decimal): nat { Wrap(|d.whole| + |d.fraction|, DIGIT_COUNTS) }

  function PointOf(d: Decimal): int { if d.point then Wrap(|d.whole|, DIGIT_COUNTS) else -1 }

  function Shift(d: Decimal): int { if d.point then PointOf(d) - CountOf(d) else 0 }

  /** The fraction counts with all its digits exactly if the count does not wrap in it. */
  lemma ShiftIff(d: Decimal)
    requires WellFormed(d)
    ensures Shift(d) == -|d.fraction| <==> |d.whole| % DIGIT_COUNTS + |d.fraction| < DIGIT_COUNTS
  {
    ModAdd(|d.whole|, |d.fraction|, DIGIT_COUNTS);
  }

  lemma DigitsTogether(d: Decimal)
    requires WellFormed(d)
    ensures AllDigits(d.whole + d.fraction)
  {}

  function Written(d: Decimal): string {
    d.spaces + Sign(d.negative) + d.whole + if d.point then "." + d.fraction else ""
  }

  /** A decimal that fills the text parses completely, with its digits, as far as the
      unsigned type keeps them, as the significand, and one power of ten for each digit of the fraction. */
  lemma ParseDecimal(limit: nat, memory: string, size: nat, d: Decimal)
    requires limit > 0 && Readable(memory, size) && !IsExponent(memory[size])
    requires WellFormed(d) && memory[..size] == Written(d) && |d.spaces| < size
    ensures Parse(limit, memory, size) == (Ok, Parsed(d.negative, false, false, Kept(limit, d),
                                                 CountOf(d), Shift(d), size))
  {
    ParseUpTo(limit, memory, size, size, d);
    hide Parse, ParseExponent, Value, Written, AllDigits, AllSpaces;
  }

  lemma ParseUpTo(limit: nat, memory: string, size: nat, end: nat, d: Decimal)
    requires limit > 0 && Readable(memory, size) && end <= size && (end < size ==> IsExponent(memory[end]))
    requires WellFormed(d) && memory[..end] == Written(d) && |d.spaces| < end
    ensures Parse(limit, memory, size)
         == ParseRest(memory, size, d.negative,
                      Scan(Kept(limit, d), CountOf(d), PointOf(d), end))
  {
    FirstCharacter(memory, size, end, d);
    ScanDecimal(limit, memory, size, end, d);
    hide ParseRest, ScanAll, SkipSpaces, Value, AllDigits, AllSpaces, Written;
  }

  /** An exponent as it is written behind the e. */
  datatype ExponentSign = Bare | Plus | Minus
  datatype Exponent = Exponent(sign: ExponentSign, digits: string)

  function SignText(s: ExponentSign): string {
    match s
    case Bare => ""
    case Plus => "+"
    case Minus => "-"
  }

  predicate ExponentFormed(e: Exponent) { e.digits != "" && AllDigits(e.digits) }

  function ExponentValue(e: Exponent): int
    requires AllDigits(e.digits)
  {
    Signed(e.sign.Minus?, Value(0, e.digits))
  }

  /** The text stands at positions from .. to. */
  predicate At(memory: string, from: nat, to: nat, text: string) {
    from <= to <= |memory| && memory[from..to] == text
  }

  lemma LetterE(memory: string, size: nat, end: nat)
    requires Readable(memory, size) && end < size
    ensures size < |memory| && (IsExponent(memory[end]) <==> memory[end] == 'e' || memory[end] == 'E')
  {}

  /** A decimal, an e, and an exponent that fill the text parse completely. */
  lemma ParseScientific(limit: nat, memory: string, size: nat, end: nat, d: Decimal, e: Exponent)
    requires limit > 0 && Readable(memory, size) && end < size && (memory[end] == 'e' || memory[end] == 'E')
    requires WellFormed(d) && At(memory, 0, end, Written(d)) && |d.spaces| < end
    requires ExponentFormed(e) && At(memory, end + 1, size, SignText(e.sign) + e.digits)
    ensures Parse(limit, memory, size) == (Ok, Parsed(d.negative, false, false, Kept(limit, d),
                                                 CountOf(d), ExponentValue(e) + Shift(d), size))
  {
    hide *;
    LetterE(memory, size, end);
    WholeMantissa(limit, memory, size, end, d);
    var p := Parsed(d.negative, false, false, Kept(limit, d), CountOf(d), 0, end + 1);
    ExponentReads(memory, size, p, Shift(d), e);
  }

  /** Digits that fit are all kept. */
  lemma ScientificFits(limit: nat, memory: string, size: nat, end: nat, d: Decimal, e: Exponent)
    requires limit > 0 && Readable(memory, size) && end < size && (memory[end] == 'e' || memory[end] == 'E')
    requires WellFormed(d) && At(memory, 0, end, Written(d)) && |d.spaces| < end
    requires ExponentFormed(e) && At(memory, end + 1, size, SignText(e.sign) + e.digits)
    requires AllDigits(d.whole + d.fraction) && Value(0, d.whole + d.fraction) < limit
    ensures Parse(limit, memory, size) == (Ok, Parsed(d.negative, false, false, Value(0, d.whole + d.fraction),
                                                 CountOf(d), ExponentValue(e) + Shift(d), size))
  {
    ModSmall(Value(0, d.whole + d.fraction), limit);
    assert Kept(limit, d) == Value(0, d.whole + d.fraction);
    assert AllDigits(e.digits);
    hide *;
    ParseScientific(limit, memory, size, end, d, e);
  }

  /** The exponent of such a text stays within an int exactly if its digits and its sum with
      the shift do: the digit loop only grows. */
  lemma ScientificWithinInt(limit: nat, memory: string, size: nat, end: nat, d: Decimal, e: Exponent)
    requires limit > 0 && Readable(memory, size) && end < size && (memory[end] == 'e' || memory[end] == 'E')
    requires WellFormed(d) && At(memory, 0, end, Written(d)) && |d.spaces| < end
    requires ExponentFormed(e) && At(memory, end + 1, size, SignText(e.sign) + e.digits)
    ensures NumberFits(limit, memory, size) <==>
      Value(0, e.digits) <= INT_MAX && INT_MIN <= ExponentValue(e) + Shift(d) <= INT_MAX
  {
    hide *;
    LetterE(memory, size, end);
    ScientificParts(memory, size, d, e);
    FitsUpTo(limit, memory, size, end, d);
    ExponentReads(memory, size, Parsed(false, false, false, 0, 0, 0, end + 1), Shift(d), e);
    var s := Scan(Kept(limit, d), CountOf(d), PointOf(d), end);
    WithinInt(memory, size, s, Shift(d), e.sign.Minus?, Value(0, e.digits));
  }

  lemma ScientificParts(memory: string, size: nat, d: Decimal, e: Exponent)
    requires Readable(memory, size) && WellFormed(d) && ExponentFormed(e)
    ensures size < |memory|
    ensures Shift(d) == if PointOf(d) >= 0 then PointOf(d) - CountOf(d) else 0
    ensures AllDigits(e.digits) && ExponentValue(e) == Signed(e.sign.Minus?, Value(0, e.digits))
  {}

  lemma WithinInt(memory: string, size: nat, s: Scan, shift: int, negative: bool, value: nat)
    requires Readable(memory, size) && s.at < size && IsExponent(memory[s.at]) && size < |memory|
    requires shift == if s.point >= 0 then s.point - s.count else 0
    requires ParseExponent(memory, size, Parsed(false, false, false, 0, 0, 0, s.at + 1), shift)
          == (Ok, Parsed(false, false, false, 0, 0, shift + Signed(negative, value), size))
    ensures RestFits(memory, size, s) <==> value <= INT_MAX && INT_MIN <= shift + Signed(negative, value) <= INT_MAX
  {
    hide ParseExponent;
  }

  lemma FitsUpTo(limit: nat, memory: string, size: nat, end: nat, d: Decimal)
    requires limit > 0 && Readable(memory, size) && end < size && IsExponent(memory[end])
    requires WellFormed(d) && At(memory, 0, end, Written(d)) && |d.spaces| < end
    ensures NumberFits(limit, memory, size) <==>
      RestFits(memory, size, Scan(Kept(limit, d), CountOf(d), PointOf(d), end))
  {
    assert memory[..end] == memory[0..end] == Written(d);
    FirstCharacter(memory, size, end, d);
    ScanDecimal(limit, memory, size, end, d);
    hide RestFits, ScanAll, SkipSpaces, Value, AllDigits, AllSpaces, Written, Kept;
  }

  /** In front of an e the parser has the decimal, and goes on with the exponent. */
  lemma WholeMantissa(limit: nat, memory: string, size: nat, end: nat, d: Decimal)
    requires limit > 0 && Readable(memory, size) && end < size && IsExponent(memory[end])
    requires WellFormed(d) && At(memory, 0, end, Written(d)) && |d.spaces| < end
    ensures Parse(limit, memory, size)
         == ParseExponent(memory, size, Parsed(d.negative, false, false, Kept(limit, d),
                                               CountOf(d), 0, end + 1), Shift(d))
    ensures size < |memory|
  {
    assert memory[..end] == memory[0..end] == Written(d);
    hide *;
    ParseUpTo(limit, memory, size, end, d);
    RestIsExponent(memory, size, d.negative,
                   Scan(Kept(limit, d), CountOf(d), PointOf(d), end));
  }

  lemma RestIsExponent(memory: string, size: nat, negative: bool, s: Scan)
    requires Readable(memory, size) && s.at < size && IsExponent(memory[s.at])
    ensures size < |memory|
    ensures ParseRest(memory, size, negative, s)
         == ParseExponent(memory, size, Parsed(negative, false, false, s.significand, s.count, 0, s.at + 1),
                          if s.point >= 0 then s.point - s.count else 0)
  {
    hide ParseExponent;
  }

  lemma ExponentReads(memory: string, size: nat, p: Parsed, shift: int, e: Exponent)
    requires size < |memory| && p.end <= size
    requires ExponentFormed(e) && At(memory, p.end, size, SignText(e.sign) + e.digits)
    ensures ParseExponent(memory, size, p, shift) == (Ok, p.(exp := shift + ExponentValue(e), end := size))
  {
    var start := if e.sign.Bare? then p.end else p.end + 1;
    ExponentStart(memory, size, p.end, e);
    assert ExponentValue(e) == Signed(e.sign.Minus?, Value(0, e.digits));
    hide *;
    ExponentDigitsRead(memory, size, start, 0, e.digits);
    ExponentAnswer(memory, size, p, shift, e.sign, start, Value(0, e.digits));
  }

  lemma ExponentAnswer(memory: string, size: nat, p: Parsed, shift: int, sign: ExponentSign, start: nat, value: nat)
    requires p.end < size < |memory| && (memory[p.end] == '-' <==> sign.Minus?)
        && (memory[p.end] == '+' <==> sign.Plus?)
    requires start == (if sign.Bare? then p.end else p.end + 1) < size
    requires ExponentDigits(memory, size, start, 0) == (value, size)
    ensures ParseExponent(memory, size, p, shift) == (Ok, p.(exp := shift + Signed(sign.Minus?, value), end := size))
  {
    hide ExponentDigits;
  }

  /** Where the sign and the digits of an exponent stand. */
  lemma ExponentStart(memory: string, size: nat, at: nat, e: Exponent)
    requires at <= size <= |memory| && ExponentFormed(e) && At(memory, at, size, SignText(e.sign) + e.digits)
    ensures var start := if e.sign.Bare? then at else at + 1;
      start < size && At(memory, start, size, e.digits)
    ensures AllDigits(e.digits)
    ensures (memory[at] == '-' <==> e.sign.Minus?) && (memory[at] == '+' <==> e.sign.Plus?)
  {
    var text := memory[at..size];
    assert text[|SignText(e.sign)|..] == e.digits;
    assert memory[at] == text[0] && IsDigit(e.digits[0]);
  }

  /** The exponent loop reads the digits in front of it into their value. */
  lemma {:induction false} ExponentDigitsRead(memory: string, size: nat, at: nat, before: nat, ds: string)
    requires at <= size < |memory| && AllDigits(ds) && At(memory, at, size, ds)
    ensures ExponentDigits(memory, size, at, before) == (Value(before, ds), size)
    decreases |ds|
  {
    if ds != "" {
      FirstDigit(before, ds);
      assert memory[at] == ds[0] && memory[at + 1..size] == ds[1..];
      hide Value, DigitValue;
      ExponentDigitsRead(memory, size, at + 1, before * 10 + DigitValue(ds[0]), ds[1..]);
    }
  }

  lemma FirstDigit(before: nat, ds: string)
    requires ds != "" && AllDigits(ds)
    ensures AllDigits(ds[1..]) && Value(before, ds) == Value(before * 10 + DigitValue(ds[0]), ds[1..])
  {
    ValueAppend(before, [ds[0]], ds[1..]);
    assert ds == [ds[0]] + ds[1..];
    assert [ds[0]][..0] == [];
  }

  /** Behind its spaces a decimal starts with its sign, or with a character that is none. */
  lemma FirstCharacter(memory: string, size: nat, end: nat, d: Decimal)
    requires end <= size <= |memory| && WellFormed(d) && memory[..end] == Written(d) && |d.spaces| < end
    ensures SkipSpaces(memory, size, 0) == |d.spaces| && (memory[|d.spaces|] == '-' <==> d.negative)
  {
    var start := |d.spaces|;
    assert memory[start] == memory[..end][start];
    forall k | 0 <= k < start ensures IsSpace(memory[k]) { assert memory[k] == memory[..end][k]; }
    SkipExactly(memory, size, 0, start);
  }

  /** The scan reads a decimal up to its end, be it the end of the text or an e. */
  lemma ScanDecimal(limit: nat, memory: string, size: nat, end: nat, d: Decimal)
    requires limit > 0 && end <= size <= |memory| && (end < size ==> IsExponent(memory[end]))
    requires WellFormed(d) && memory[..end] == Written(d)
    ensures var at := |d.spaces| + |Sign(d.negative)|;
      ScanAll(limit, memory, size, Scan(0, 0, -1, at))
        == Scan(Kept(limit, d), CountOf(d), PointOf(d), end)
  {
    Layout(memory, end, d);
    hide *;
    ScanParts(limit, memory, size, end, d, |d.spaces| + |Sign(d.negative)|);
  }

  lemma ScanParts(limit: nat, memory: string, size: nat, end: nat, d: Decimal, at: nat)
    requires limit > 0 && end <= size <= |memory| && (end < size ==> IsExponent(memory[end])) && WellFormed(d)
    requires at + |d.whole| + (if d.point then 1 + |d.fraction| else 0) == end
    requires memory[at..at + |d.whole|] == d.whole
    requires d.point ==>
      var dot := at + |d.whole|;
      memory[dot] == '.' && memory[dot + 1..dot + 1 + |d.fraction|] == d.fraction
    ensures ScanAll(limit, memory, size, Scan(0, 0, -1, at)) == Scan(Kept(limit, d), CountOf(d), PointOf(d), end)
  {
    KeptInParts(limit, d);
    hide *;
    ScanWhole(limit, memory, size, at, d);
    if d.point {
      ScanFraction(limit, memory, size, end, d, Wrap(Value(0, d.whole), limit), Wrap(|d.whole|, DIGIT_COUNTS),
                   at + |d.whole|);
    }
    ScanEnd(limit, memory, size, Scan(Kept(limit, d), CountOf(d), PointOf(d), end));
  }

  lemma ScanWhole(limit: nat, memory: string, size: nat, at: nat, d: Decimal)
    requires limit > 0 && WellFormed(d) && at + |d.whole| <= size <= |memory|
    requires memory[at..at + |d.whole|] == d.whole
    ensures ScanAll(limit, memory, size, Scan(0, 0, -1, at))
         == ScanAll(limit, memory, size, Scan(Wrap(Value(0, d.whole), limit), Wrap(|d.whole|, DIGIT_COUNTS), -1,
                                              at + |d.whole|))
  {
    hide Wrap, ScanOne, DigitValue, Value, ScanAll;
    ScanDigits(limit, memory, size, Scan(0, 0, -1, at), d.whole);
  }

  lemma ScanFraction(limit: nat, memory: string, size: nat, end: nat, d: Decimal, whole: nat, count: nat, dot: nat)
    requires limit > 0 && end <= size <= |memory| && WellFormed(d) && d.point && whole < limit
    requires count == Wrap(|d.whole|, DIGIT_COUNTS) && Wrap(Value(whole, d.fraction), limit) == Kept(limit, d)
    requires dot + 1 + |d.fraction| == end && memory[dot] == '.'
    requires memory[dot + 1..dot + 1 + |d.fraction|] == d.fraction
    ensures ScanAll(limit, memory, size, Scan(whole, count, -1, dot))
         == ScanAll(limit, memory, size, Scan(Kept(limit, d), CountOf(d), PointOf(d), end))
  {
    hide *;
    KeptInParts(limit, d);
    ScanPoint(limit, memory, size, Scan(whole, count, -1, dot));
    ScanDigits(limit, memory, size, Scan(whole, count, count, dot + 1), d.fraction);
  }

  /** The digits kept, and their count, from those of the whole part. */
  lemma KeptInParts(limit: nat, d: Decimal)
    requires limit > 0 && WellFormed(d)
    ensures Wrap(Value(Wrap(Value(0, d.whole), limit), d.fraction), limit) == Kept(limit, d)
    ensures Wrap(Wrap(|d.whole|, DIGIT_COUNTS) + |d.fraction|, DIGIT_COUNTS) == CountOf(d)
    ensures AllDigits(d.whole) && AllDigits(d.fraction)
    ensures Wrap(|d.whole|, DIGIT_COUNTS) < DIGIT_COUNTS
    ensures !d.point ==> Wrap(Value(0, d.whole), limit) == Kept(limit, d)
    ensures !d.point ==> Wrap(|d.whole|, DIGIT_COUNTS) == CountOf(d)
    ensures PointOf(d) == if d.point then Wrap(|d.whole|, DIGIT_COUNTS) else -1
  {
    ValueAppend(0, d.whole, d.fraction);
    ValueWrap(limit, Value(0, d.whole), d.fraction);
    ModAdd(|d.whole|, |d.fraction|, DIGIT_COUNTS);
    if !d.point { assert d.whole + d.fraction == d.whole; }
    hide Value;
  }

  lemma ScanPoint(limit: nat, memory: string, size: nat, s: Scan)
    requires limit > 0 && s.at < size <= |memory| && memory[s.at] == '.' && s.point < 0
    ensures ScanAll(limit, memory, size, s) == ScanAll(limit, memory, size, s.(point := s.count, at := s.at + 1))
  {}

  lemma ScanEnd(limit: nat, memory: string, size: nat, s: Scan)
    requires limit > 0 && s.at <= size <= |memory| && (s.at < size ==> IsExponent(memory[s.at]))
    ensures ScanAll(limit, memory, size, s) == s
  {}

  /** Where the parts of a decimal stand. */
  lemma Layout(memory: string, size: nat, d: Decimal)
    requires size <= |memory| && WellFormed(d) && memory[..size] == Written(d)
    ensures var end := |d.spaces| + |Sign(d.negative)| + |d.whole|;
      && end + (if d.point then 1 + |d.fraction| else 0) == size
      && memory[end - |d.whole|..end] == d.whole
      && (d.point ==> memory[end] == '.' && memory[end + 1..end + 1 + |d.fraction|] == d.fraction)
  {
    var end := |d.spaces| + |Sign(d.negative)| + |d.whole|;
    assert memory[end - |d.whole|..end] == memory[..size][end - |d.whole|..end];
    if d.point {
      assert memory[end] == memory[..size][end];
      assert memory[end + 1..end + 1 + |d.fraction|] == memory[..size][end + 1..] == d.fraction;
    }
  }

  /** Parsing a decimal into type t gives its kept digits without those of the fraction, unless
      the fraction is so long that the digit count wraps in it. */
  lemma ReadsDecimal(t: IntType, memory: string, size: nat, d: Decimal)
    requires Standard(t) && Readable(memory, size) && !IsExponent(memory[size])
    requires WellFormed(d) && memory[..size] == Written(d) && |d.spaces| < size
    requires |d.whole| % DIGIT_COUNTS + |d.fraction| < DIGIT_COUNTS
    ensures Parse(Limit(t), memory, size).0 == Ok && Parse(Limit(t), memory, size).1.end == size
    ensures Convert(t, Parse(Limit(t), memory, size).1)
         == WithSign(t, DropDigits(Kept(Limit(t), d), |d.fraction|), d.negative)
  {
    ParseDecimal(Limit(t), memory, size, d);
    ShiftIff(d);
    var sig, k := Kept(Limit(t), d), |d.fraction|;
    hide Kept, Parse, Shift;
    if k >= NumDigits(sig) { DropAll(sig, k); }
  }

  /** What is read is the whole part exactly if all the digits together, with those of the
      fraction, fit the unsigned type, or the whole part is zero. */
  lemma ReadsWholePart(t: IntType, d: Decimal)
    requires WellFormed(d)
    ensures AllDigits(d.whole + d.fraction)
    ensures DropDigits(Kept(Limit(t), d), |d.fraction|) == Value(0, d.whole) <==>
            Value(0, d.whole + d.fraction) < Limit(t) || Value(0, d.whole) == 0
  {
    DigitsTogether(d);
    var v, w, k := Value(0, d.whole + d.fraction), Value(0, d.whole), |d.fraction|;
    ValueAppend(0, d.whole, d.fraction);
    DropAppended(w, d.fraction);
    DropIsDivision(v, k);
    DropIsDivision(v % Limit(t), k);
    hide Value, DropDigits, Limit;
    ReducedQuotient(v, Exp10(k), Limit(t));
  }

  /** 25.55 read as an 8-bit unsigned integer is not 25 but 2. */
  lemma FractionSpoilsWhole(memory: string)
    requires Readable(memory, 5) && !IsExponent(memory[5]) && memory[..5] == "25.55"
    ensures Convert(IntType(8, false), Parse(256, memory, 5).1) == Some(2)
  {
    var d := Decimal("", false, "25", true, "55");
    assert Written(d) == "25" + "." + "55" == "25.55";
    ReadsDecimal(IntType(8, false), memory, 5, d);
    hide Parse, Convert, Written;
    TwoFiveFiveFive(d);
  }

  lemma TwoFiveFiveFive(d: Decimal)
    requires d == Decimal("", false, "25", true, "55")
    ensures WellFormed(d) && Kept(256, d) == 251 && DropDigits(251, 2) == 2
  {
    assert "25" + "55" == "2555" && "2555"[..3] == "255" && "255"[..2] == "25" && "25"[..1] == "2" && "2"[..0] == "";
    assert Value(0, "2") == 2;
    assert Value(0, "25") == 25;
    assert Value(0, "255") == 255;
    assert DropDigits(25, 1) == 2;
  }

  /** A fraction of 256 digits counts for none: 0.00...07 is read as 7, not 0. */
  lemma LongFractionIsWhole(t: IntType, memory: string, size: nat, zeros: string)
    requires Standard(t) && Readable(memory, size) && !IsExponent(memory[size])
    requires |zeros| == 255 && (forall k :: 0 <= k < 255 ==> zeros[k] == '0')
    requires memory[..size] == "0." + zeros + "7"
    ensures Parse(Limit(t), memory, size).0 == Ok && Convert(t, Parse(Limit(t), memory, size).1) == Some(7)
  {
    var d := Decimal("", false, "0", true, zeros + "7");
    assert Written(d) == "0." + zeros + "7";
    var digits := "0" + zeros;
    assert d.whole + d.fraction == digits + "7";
    assert (digits + "7")[..|digits|] == digits;
    ZerosAreZero(digits);
    ModSmall(7, Limit(t));
    assert Kept(Limit(t), d) == 7 && Shift(d) == 0;
    ParseDecimal(Limit(t), memory, size, d);
    hide Parse, Written, Kept, Value, Shift;
    assert Scaled(Limit(t), 7, 0) == 7;
  }

  lemma {:induction false} ZerosAreZero(ds: string)
    requires forall k :: 0 <= k < |ds| ==> ds[k] == '0'
    ensures AllDigits(ds) && Value(0, ds) == 0
  {
    if ds != [] { ZerosAreZero(ds[..|ds| - 1]); }
  }

  lemma {:induction false} DropIsDivision(n: nat, k: nat)
    ensures DropDigits(n, k) == n / Exp10(k)
    decreases k
  {
    if k > 0 {
      DropIsDivision(n / 10, k - 1);
      DivTen(n, Exp10(k - 1));
    }
  }

  lemma DivTen(n: nat, b: nat)
    requires b > 0
    ensures n / 10 / b == n / (10 * b)
  {
    var q, r := n / 10 / b, (n / 10) % b;
    TimesTen(q, b);
    DivModUnique(n, 10 * b, q, 10 * r + n % 10);
  }

  /** Reducing modulo m keeps the quotient by p exactly if it changes nothing or the quotient is 0. */
  lemma ReducedQuotient(v: nat, p: nat, m: nat)
    requires p > 0 && m > 0
    ensures (v % m) / p == v / p <==> v < m || v / p == 0
  {
    if v < m { ModSmall(v, m); } else { ModHalves(v, m); }
    QuotientOfLess(v % m, v, p);
  }

  lemma ModHalves(v: nat, m: nat)
    requires 0 < m <= v
    ensures v % m < v - v % m
  {
    MulAtLeast(m, v / m);
  }

  /** A number below half of v, or v itself, has the same quotient only if that is v's, or 0. */
  lemma QuotientOfLess(u: nat, v: nat, p: nat)
    requires p > 0 && (u == v || u < v - u)
    ensures u / p == v / p <==> u == v || v / p == 0
  {
    if u < v - u {
      var uq, ur := Parts(u, p);
      var vq, vr := Parts(v, p);
      if vq == 0 { NoPart(u, p, uq, ur); } else { FewerParts(u, v, p, uq, ur, vq, vr); }
    }
  }

  lemma Parts(x: nat, p: nat) returns (q: nat, r: nat)
    requires p > 0
    ensures q == x / p && x == p * q + r && r < p
  {
    q, r := x / p, x % p;
  }

  lemma NoPart(u: nat, p: nat, q: nat, r: nat)
    requires u == p * q + r && u < p
    ensures q == 0
  {
    if q > 0 { MulAtLeast(p, q); }
  }

  lemma FewerParts(u: nat, v: nat, p: nat, uq: nat, ur: nat, vq: nat, vr: nat)
    requires u == p * uq + ur && v == p * vq + vr && ur < p && vr < p && u < v - u && vq > 0
    ensures uq != vq
  {
    MulAtLeast(p, vq);
  }

  /** Printing and parsing: every value comes back, unless it is the least value of a
      signed type of 32 or 64 bits, whose negation overflows. */
  lemma RoundTrip(t: IntType, n: int, memory: string, size: nat)
    requires Standard(t) && InType(t, n)
    requires Readable(memory, size) && !IsExponent(memory[size]) && memory[..size] == SignedText(n)
    ensures Parse(Limit(t), memory, size).0 == Ok && Parse(Limit(t), memory, size).1.end == size
    ensures Convert(t, Parse(Limit(t), memory, size).1)
         == if t.signed && t.bits >= 32 && n == Min(t) then None else Some(n)
  {
    var d := Decimal("", n < 0, Text(Abs(n)), false, "");
    ValueOfText(Abs(n));
    assert d.whole + d.fraction == Text(Abs(n));
    assert Written(d) == SignedText(n);
    assert WellFormed(d);
    SignedBack(t, n);
    hide *;
    ReadsDecimal(t, memory, size, d);
    AllKept(t, d);
  }

  lemma AllKept(t: IntType, d: Decimal)
    requires WellFormed(d) && d.fraction == "" && Value(0, d.whole) < Limit(t)
    ensures DropDigits(Kept(Limit(t), d), |d.fraction|) == Value(0, d.whole)
  {
    assert d.whole + d.fraction == d.whole;
    ModSmall(Value(0, d.whole), Limit(t));
  }

  lemma SignedBack(t: IntType, n: int)
    requires Standard(t) && InType(t, n)
    ensures Abs(n) < Limit(t) && |SignedText(n)| > 0
    ensures WithSign(t, Abs(n), n < 0) == if t.signed && t.bits >= 32 && n == Min(t) then None else Some(n)
  {}

  // ---- positive exponents ----

  lemma {:induction false} DigitsOfScaled(n: nat, k: nat)
    requires n > 0
    ensures n * Exp10(k) > 0 && NumDigits(n * Exp10(k)) == NumDigits(n) + k
    decreases k
  {
    if k > 0 {
      DigitsOfScaled(n, k - 1);
      TimesTen(n, Exp10(k - 1));
      OneMoreDigit(n * Exp10(k - 1));
    }
  }

  lemma TimesTen(n: nat, x: nat)
    ensures n * (10 * x) == 10 * (n * x)
  {}

  lemma OneMoreDigit(x: nat)
    requires x > 0
    ensures NumDigits(10 * x) == NumDigits(x) + 1
  {
    assert 10 * x / 10 == x;
  }

  lemma {:induction false} ScaledValue(limit: nat, n: nat, k: nat)
    requires n * Exp10(k) < limit
    ensures Scaled(limit, n, k) == n * Exp10(k)
    decreases k
  {
    if k > 0 {
      MulTen(n, Exp10(k - 1));
      assert n * 10 <= (n * 10) * Exp10(k - 1);
      ScaledValue(limit, n * 10, k - 1);
    }
  }

  lemma {:induction false} NumDigitsMono(a: nat, b: nat)
    requires a <= b
    ensures NumDigits(a) <= NumDigits(b)
  {
    if a >= 10 { NumDigitsMono(a / 10, b / 10); }
  }

  /** A positive exponent scales exactly whenever the result is within the type. */
  lemma ExponentExact(t: IntType, p: Parsed)
    requires Standard(t) && !p.inf && !p.nan && p.exp > 0
    requires 0 < p.significand && p.significand * Exp10(p.exp) <= Max(t)
    ensures var v := p.significand * Exp10(p.exp);
      Convert(t, p) == Some(if t.signed && p.negative then -v else v)
  {
    DigitsOfScaled(p.significand, p.exp);
    NumDigitsMono(p.significand * Exp10(p.exp), Max(t));
    ScaledValue(Limit(t), p.significand, p.exp);
  }

  /** A zero with a positive exponent is read as zero exactly when the exponent is below
      the digit count of the type's largest value (or the answer for "too large" is zero):
      0e10 read as a 32-bit integer gives the largest one. */
  lemma ZeroWithExponent(t: IntType, p: Parsed)
    requires Standard(t) && !p.inf && !p.nan && p.exp > 0 && p.significand == 0
    ensures Convert(t, p) == Some(0) <==> p.exp < NumDigits(Max(t)) || (p.negative && !t.signed)
  {
    ZeroScaled(Limit(t), p.exp);
  }

  lemma {:induction false} ZeroScaled(limit: nat, k: nat)
    requires limit > 0
    ensures Scaled(limit, 0, k) == 0
    decreases k
  {
    if k > 0 { ZeroScaled(limit, k - 1); }
  }

  // ---- above the range: the guard compares digit counts only ----

  /** The multiplication loop computes the product in the unsigned type. */
  lemma {:induction false} ScaledIsMod(limit: nat, n: nat, k: nat)
    requires n < limit
    ensures Scaled(limit, n, k) == (n * Exp10(k)) % limit
    decreases k
  {
    if k > 0 {
      ScaledIsMod(limit, Wrap(n * 10, limit), k - 1);
      ModTimes(n * 10, Exp10(k - 1), limit);
      MulTen(n, Exp10(k - 1));
    }
  }

  /** The number closest to n that the type can hold. */
  function Clamp(t: IntType, n: int): (r: int)
    ensures InType(t, r) && (InType(t, n) ==> r == n)
  {
    if n < Min(t) then Min(t) else if n > Max(t) then Max(t) else n
  }

  /** The number that a significand and a positive exponent denote. */
  function Denoted(p: Parsed): int
    requires p.exp >= 0
  {
    Signed(p.negative, p.significand * Exp10(p.exp))
  }

  /** 10 to the digit count of the type's largest value. */
  lemma DigitRange(t: IntType)
    requires Standard(t)
    ensures t.bits == 8 ==> Exp10(NumDigits(Max(t))) == 1000
    ensures t.bits == 16 ==> Exp10(NumDigits(Max(t))) == 100000
    ensures t.bits == 32 ==> Exp10(NumDigits(Max(t))) == 10000000000
    ensures t.bits == 64 && t.signed ==> Exp10(NumDigits(Max(t))) == 10000000000000000000
    ensures t.bits == 64 && !t.signed ==> Exp10(NumDigits(Max(t))) == 100000000000000000000
  {
    var d := if t.bits == 8 then 3 else if t.bits == 16 then 5
             else if t.bits == 32 then 10 else if t.signed then 19 else 20;
    TenPowers();
    BracketsDetermine(Max(t), d);
  }

  lemma TenPowers()
    ensures Exp10(2) == 100 && Exp10(3) == 1000 && Exp10(4) == 10000 && Exp10(5) == 100000
    ensures Exp10(9) == 1000000000 && Exp10(10) == 10000000000
    ensures Exp10(18) == 1000000000000000000 && Exp10(19) == 10000000000000000000 && Exp10(20) == 100000000000000000000
  {}

  /** Where a multiple of ten above the range, with no more digits than the range has, can
      fall when it wraps: never on the largest value, and on the least only twice. */
  lemma WrappedMultiple(t: IntType, m: nat)
    requires Standard(t) && Max(t) < 10 * m < Exp10(NumDigits(Max(t)))
    ensures var u := (10 * m) % Limit(t);
      && u != Max(t) && u != Limit(t) - 1
      && (t.signed ==> (u == Max(t) + 1 <==> t.bits == 8 && m == 64))
      && (!t.signed ==> (u == 0 <==> t.bits == 64 && 10 * m == 5 * Limit(t)))
  {
    DigitRange(t);
    hide Exp10, NumDigits;
    if t.bits == 8 { Wrapped8(m); }
    else if t.bits == 16 { Wrapped16(m); }
    else if t.bits == 32 { Wrapped32(m); }
    else { Wrapped64(m); }
  }

  lemma Wrapped8(m: nat)
    requires 10 * m < 1000
    ensures var u := (10 * m) % 256;
      u != 127 && u != 255 && (u == 128 <==> m == 64) && (u == 0 <==> m == 0)
  {}

  lemma Wrapped16(m: nat)
    requires 10 * m < 100000
    ensures var u := (10 * m) % 0x1_0000;
      u != 0x7fff && u != 0xffff && u != 0x8000 && (u == 0 <==> m == 0)
  {}

  lemma Wrapped32(m: nat)
    requires 10 * m < 10000000000
    ensures var u := (10 * m) % 0x1_0000_0000;
      u != 0x7fff_ffff && u != 0xffff_ffff && u != 0x8000_0000 && (u == 0 <==> m == 0)
  {}

  lemma Wrapped64(m: nat)
    requires 10 * m < 100000000000000000000
    ensures var u := (10 * m) % 0x1_0000_0000_0000_0000;
      && u != 0x7fff_ffff_ffff_ffff && u != 0xffff_ffff_ffff_ffff
      && (10 * m < 10000000000000000000 ==> u != 0x8000_0000_0000_0000)
      && (u == 0 <==> m == 0 || 10 * m == 5 * 0x1_0000_0000_0000_0000)
  {}

  /** When a positive exponent does more than fit the digits of the range, the product is
      taken modulo the unsigned type's size; no signed overflow arises. */
  lemma ExponentWraps(t: IntType, p: Parsed)
    requires Standard(t) && !p.inf && !p.nan && p.exp > 0 && 0 < p.significand < Limit(t)
    requires NumDigits(p.significand) + p.exp <= NumDigits(Max(t))
    ensures var u := (p.significand * Exp10(p.exp)) % Limit(t);
      Convert(t, p) == WithSign(t, u, p.negative) && Convert(t, p).Some?
  {
    var m := p.significand * Exp10(p.exp - 1);
    ScaledIsMod(Limit(t), p.significand, p.exp);
    TenTimes(p.significand, p.exp);
    DigitsOfScaled(p.significand, p.exp);
    BelowDigitRange(t, p.significand * Exp10(p.exp));
    if p.significand * Exp10(p.exp) > Max(t) { WrappedMultiple(t, m); }
    else { ModInRange(p.significand * Exp10(p.exp), Limit(t)); }
    hide Exp10, NumDigits, Scaled, Limit;
  }

  lemma ModInRange(v: nat, limit: nat)
    requires v < limit
    ensures v % limit == v
  {}

  lemma TenTimes(n: nat, k: nat)
    requires k > 0
    ensures n * Exp10(k) == 10 * (n * Exp10(k - 1)) && n * Exp10(k - 1) >= 0
  {
    TimesTen(n, Exp10(k - 1));
  }

  lemma BelowDigitRange(t: IntType, v: nat)
    requires NumDigits(v) <= NumDigits(Max(t))
    ensures v < Exp10(NumDigits(Max(t)))
  {
    NumDigitsBrackets(v);
    Exp10Mono(NumDigits(v), NumDigits(Max(t)));
  }

  /** When a positive exponent may be trusted: the result is the type's number closest to
      what the text denotes if the digits overrun the range, or the product is within it. The
      two wrapped products that land on the least value by accident are -64e1 in 8 bits and
      -5 * 2^64 in unsigned 64 bits; an unsigned type otherwise loses the sign. */
  predicate ExponentTrusted(t: IntType, p: Parsed)
    requires p.exp > 0
  {
    var v := p.significand * Exp10(p.exp);
    || NumDigits(p.significand) + p.exp > NumDigits(Max(t))
    || (v <= Max(t) && !(p.negative && !t.signed))
    || (p.negative && t.signed && t.bits == 8 && v == 640)
    || (p.negative && !t.signed && t.bits == 64 && v == 5 * Limit(t))
  }

  lemma ExponentClamps(t: IntType, p: Parsed)
    requires Standard(t) && !p.inf && !p.nan && p.exp > 0 && 0 < p.significand < Limit(t)
    ensures Convert(t, p) == Some(Clamp(t, Denoted(p))) <==> ExponentTrusted(t, p)
  {
    var v := p.significand * Exp10(p.exp);
    DigitsOfScaled(p.significand, p.exp);
    if NumDigits(p.significand) + p.exp > NumDigits(Max(t)) {
      OverDigitRange(t, v);
      hide Exp10, NumDigits, Scaled;
    } else {
      ExponentWraps(t, p);
      BelowDigitRange(t, v);
      TenTimes(p.significand, p.exp);
      hide Exp10, NumDigits, Scaled, Convert;
      if v > Max(t) { WrappedMultiple(t, p.significand * Exp10(p.exp - 1)); }
      else { ModInRange(v, Limit(t)); }
      ClampedCases(t, v, p.negative);
    }
  }

  /** Which numbers up to a few times the range wrap onto the number closest to them. */
  lemma ClampedCases(t: IntType, v: nat, negative: bool)
    requires Standard(t) && v > 0
    requires v <= Max(t) ==> v % Limit(t) == v
    requires v > Max(t) ==> var u := v % Limit(t);
      && u != Max(t) && u != Limit(t) - 1
      && (t.signed ==> (u == Max(t) + 1 <==> t.bits == 8 && v == 640))
      && (!t.signed ==> (u == 0 <==> t.bits == 64 && v == 5 * Limit(t)))
    ensures WithSign(t, v % Limit(t), negative) == Some(Clamp(t, Signed(negative, v))) <==>
      || (v <= Max(t) && !(negative && !t.signed))
      || (negative && t.signed && t.bits == 8 && v == 640)
      || (negative && !t.signed && t.bits == 64 && v == 5 * Limit(t))
  {}

  lemma OverDigitRange(t: IntType, v: nat)
    requires Standard(t) && NumDigits(v) > NumDigits(Max(t))
    ensures v > Max(t) + 1 && v > -Min(t)
  {
    if v <= Max(t) { NumDigitsMono(v, Max(t)); }
    DigitRange(t);
    NumDigitsBrackets(v);
    Exp10Mono(NumDigits(Max(t)), NumDigits(v) - 1);
  }

  /** The same for texts: a decimal with an exponent that outweighs its fraction. */
  lemma ScientificClamps(t: IntType, memory: string, size: nat, end: nat, d: Decimal, e: Exponent)
    requires Standard(t) && Readable(memory, size) && end < size && (memory[end] == 'e' || memory[end] == 'E')
    requires WellFormed(d) && At(memory, 0, end, Written(d)) && |d.spaces| < end
    requires ExponentFormed(e) && At(memory, end + 1, size, SignText(e.sign) + e.digits)
    requires AllDigits(d.whole + d.fraction) && 0 < Value(0, d.whole + d.fraction) < Limit(t)
    requires ExponentValue(e) + Shift(d) > 0
    ensures var p := Parse(Limit(t), memory, size).1;
      && p.exp > 0
      && Denoted(p) == Signed(d.negative, Value(0, d.whole + d.fraction) * Exp10(ExponentValue(e) + Shift(d)))
      && (Convert(t, p) == Some(Clamp(t, Denoted(p))) <==> ExponentTrusted(t, p))
  {
    ScientificFits(Limit(t), memory, size, end, d, e);
    hide Parse, Convert, ExponentTrusted, Clamp, Exp10, Value, Limit, Standard, Readable, WellFormed, ExponentFormed,
         At, AllDigits, ExponentValue;
    ExponentClamps(t, Parse(Limit(t), memory, size).1);
  }

  /** 99e1 read as an 8-bit integer is not 127 but -34. */
  lemma WrapsInsteadOfSaturating(memory: string)
    requires Readable(memory, 4) && memory[..4] == "99e1"
    ensures Parse(256, memory, 4) == (Ok, Parsed(false, false, false, 99, 2, 1, 4))
    ensures Convert(IntType(8, true), Parse(256, memory, 4).1) == Some(-34)
    ensures !ExponentTrusted(IntType(8, true), Parse(256, memory, 4).1)
  {
    NinetyNine(memory);
    hide Parse, ExponentValue;
    assert Scaled(256, 99, 1) == Scaled(256, Wrap(990, 256), 0);
    assert NumDigits(127) == 3 && NumDigits(99) == 2;
    assert Exp10(1) == 10;
  }

  lemma NinetyNine(memory: string)
    requires Readable(memory, 4) && memory[..4] == "99e1"
    ensures Parse(256, memory, 4) == (Ok, Parsed(false, false, false, 99, 2, 1, 4))
  {
    var d, e := Decimal("", false, "99", false, ""), Exponent(Bare, "1");
    assert memory[0..2] == memory[..4][..2] == Written(d);
    assert memory[2] == memory[..4][2] && memory[3..4] == memory[..4][3..] == SignText(Bare) + "1";
    assert "99"[..1] == "9" && "9"[..0] == "" && "1"[..0] == "" && "99" + "" == "99";
    assert Value(0, "99") == 99 && Value(0, "1") == 1;
    hide Parse, Written;
    ScientificFits(256, memory, 4, 2, d, e);
  }
}
