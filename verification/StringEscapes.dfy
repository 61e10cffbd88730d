/** String escapes of section 7 of RFC 8259: escaping, unescaping, the scan for the
    closing quote, and how the three fit together. */
module StringEscapes {

  /** A character, as the eight bits that the escapes \u take apart. */
  type Octet = bv8
  type Octets = seq<bv8>

  const QUOTE: bv8 := 0x22
  const SLASH: bv8 := 0x2f
  const BACKSLASH: bv8 := 0x5c

  // ---- escaping ----

  /** The control characters up to carriage return, the quote and the backslash. */
  predicate Special(c: Octet) { c <= 0x0d || c == QUOTE || c == BACKSLASH }

  /** A special character as it is written: those without a short escape go in as they are. */
  function EscapeOne(c: Octet): (r: Octets)
    ensures 1 <= |r| <= 2
  {
    if c == 0x08 then [BACKSLASH, 0x62]
    else if c == 0x09 then [BACKSLASH, 0x74]
    else if c == 0x0a then [BACKSLASH, 0x6e]
    else if c == 0x0c then [BACKSLASH, 0x66]
    else if c == 0x0d then [BACKSLASH, 0x72]
    else if c == QUOTE then [BACKSLASH, QUOTE]
    else if c == BACKSLASH then [BACKSLASH, BACKSLASH]
    else [c]
  }

  function Escape(s: Octets): Octets {
    if s == [] then [] else Escape(s[..|s| - 1]) + EscapeOne(s[|s| - 1])
  }

  lemma {:induction false} EscapePlain(s: Octets, from: nat)
    requires from <= |s| && forall k :: from <= k < |s| ==> !Special(s[k])
    ensures Escape(s) == Escape(s[..from]) + s[from..]
  {
    if from == |s| {
      assert s[..from] == s;
    } else {
      var c, t := s[|s| - 1], s[..|s| - 1];
      PlainByte(c);
      hide EscapeOne;
      assert Escape(s) == Escape(t) + [c];
      hide *;
      EscapePlain(t, from);
      assert t[..from] == s[..from] && t[from..] + [c] == s[from..];
      assert (Escape(s[..from]) + t[from..]) + [c] == Escape(s[..from]) + (t[from..] + [c]);
    }
  }

  lemma PlainByte(c: Octet)
    requires !Special(c)
    ensures EscapeOne(c) == [c]
  {}

  lemma EscapeStretch(s: Octets, from: nat, i: nat)
    requires from <= i < |s| && forall k :: from <= k < i ==> !Special(s[k])
    ensures Escape(s[..i + 1]) == Escape(s[..from]) + s[from..i] + EscapeOne(s[i])
  {
    var t := s[..i + 1];
    assert t[..i] == s[..i];
    assert Escape(t) == Escape(s[..i]) + EscapeOne(s[i]);
    hide EscapeOne, Escape;
    EscapePlain(s[..i], from);
    assert s[..i][..from] == s[..from] && s[..i][from..] == s[from..i];
  }

  /** handle_json_escapes_out: copies the stretches between special characters whole; a
      string without any is returned as it is. */
  method HandleEscapesOut(data: Octets) returns (r: Octets)
    ensures r == Escape(data)
  {
    var buffer: Octets := [];
    var start := 0;
    assert Escape(data[..0]) == [];
    hide EscapeOne, Escape;
    for i := 0 to |data|
      invariant start <= i
      invariant forall k :: start <= k < i ==> !Special(data[k])
      invariant buffer == Escape(data[..start])
      invariant buffer == [] ==> start == 0
    {
      if Special(data[i]) {
        EscapeStretch(data, start, i);
        buffer := buffer + data[start..i];
        start := i + 1;
        buffer := buffer + EscapeOne(data[i]);
      }
    }
    EscapePlain(data, start);
    if buffer != [] { return buffer + data[start..]; }
    return data;
  }

  // ---- unescaping ----

  /** The character that an escape letter stands for. */
  function Replacement(c: Octet): Octets {
    if c == 0x62 then [0x08] else if c == 0x66 then [0x0c] else if c == 0x6e then [0x0a]
    else if c == 0x72 then [0x0d] else if c == 0x74 then [0x09]
    else if c == QUOTE || c == BACKSLASH || c == SLASH then [c]
    else [BACKSLASH, c]
  }

  predicate IsHex(c: Octet) { 0x30 <= c <= 0x39 || 0x41 <= c <= 0x46 || 0x61 <= c <= 0x66 }

  function HexValue(c: Octet): (h: Octet)
    requires IsHex(c)
    ensures h < 16
  {
    if c <= 0x39 then c - 0x30 else if c <= 0x46 then c - 0x41 + 10 else c - 0x61 + 10
  }

  /** The bytes pushed for four hexadecimal digits. */
  function HexBytes(h0: Octet, h1: Octet, h2: Octet, h3: Octet): Octets {
    if h0 != 0 || h1 & 0x08 != 0 then
      [0xd0 | h0, 0x80 | (h1 << 2) | ((h2 & 0x0c) >> 2), 0x80 | ((h2 & 0x03) << 4) | h3]
    else if h1 != 0 || h2 & 0x08 != 0 then
      [0xc0 | (h1 << 2) | ((h2 & 0x0c) >> 2), 0x80 | ((h2 & 0x03) << 4) | h3]
    else [(h2 << 4) | h3]
  }

  predicate HexEscape(s: Octets) {
    |s| >= 6 && s[1] == 0x75 && IsHex(s[2]) && IsHex(s[3]) && IsHex(s[4]) && IsHex(s[5])
  }

  /** The escape at the front of s, which starts with a backslash: its bytes and its length. */
  function UnescapeOne(s: Octets): (r: (Octets, nat))
    requires |s| >= 2
    ensures 2 <= r.1 <= |s|
  {
    if HexEscape(s) then (HexBytes(HexValue(s[2]), HexValue(s[3]), HexValue(s[4]), HexValue(s[5])), 6)
    else if s[1] == 0x75 then ([BACKSLASH, 0x75], 2)
    else (Replacement(s[1]), 2)
  }

  /** No backslash is left without a character after it. */
  predicate NoDangling(s: Octets) {
    s == [] || (if s[0] == BACKSLASH then |s| >= 2 && NoDangling(s[2..]) else NoDangling(s[1..]))
  }

  function Unescape(s: Octets): Octets
    requires NoDangling(s)
    decreases |s|
  {
    if s == [] then []
    else if s[0] == BACKSLASH then
      RestHasNoDangling(s);
      UnescapeOne(s).0 + Unescape(s[UnescapeOne(s).1..])
    else [s[0]] + Unescape(s[1..])
  }

  lemma RestHasNoDangling(s: Octets)
    requires |s| >= 2 && s[0] == BACKSLASH && NoDangling(s)
    ensures NoDangling(s[UnescapeOne(s).1..])
  {
    if HexEscape(s) {
      NoDanglingAfter(s[2..], 4);
      assert s[2..][4..] == s[6..];
    }
  }

  /** Plain characters can be skipped. */
  lemma {:induction false} NoDanglingAfter(s: Octets, k: nat)
    requires k <= |s| && (forall j :: 0 <= j < k ==> s[j] != BACKSLASH)
    ensures NoDangling(s) == NoDangling(s[k..])
  {
    if k > 0 {
      NoDanglingAfter(s[1..], k - 1);
      assert s[1..][k - 1..] == s[k..];
    } else {
      assert s[0..] == s;
    }
  }

  lemma {:induction false} UnescapePlain(s: Octets, k: nat)
    requires k <= |s| && (forall j :: 0 <= j < k ==> s[j] != BACKSLASH) && NoDangling(s)
    ensures NoDangling(s[k..]) && Unescape(s) == s[..k] + Unescape(s[k..])
  {
    hide *;
    if k > 0 {
      UnescapeHead(s);
      UnescapePlain(s[1..], k - 1);
      assert s[1..][k - 1..] == s[k..] && s[..k] == [s[0]] + s[1..][..k - 1];
    } else {
      assert s[0..] == s;
    }
  }

  lemma UnescapeHead(s: Octets)
    requires s != [] && s[0] != BACKSLASH && NoDangling(s)
    ensures NoDangling(s[1..]) && Unescape(s) == [s[0]] + Unescape(s[1..])
  {}

  /** memchr: the first position of c from `at` on, or the end. */
  method Find(s: Octets, at: nat, c: Octet) returns (k: nat)
    requires at <= |s|
    ensures at <= k <= |s| && (forall j :: at <= j < k ==> s[j] != c) && (k < |s| ==> s[k] == c)
  {
    k := at;
    while k < |s| && s[k] != c
      invariant at <= k <= |s| && forall j :: at <= j < k ==> s[j] != c
    {
      k := k + 1;
    }
  }

  predicate HexAt(data: Octets, at: nat, h: Octet) {
    at < |data| && IsHex(data[at]) && h == HexValue(data[at])
  }

  /** One escape of handle_json_escapes_in: `next` is at its backslash. */
  method UnescapeAt(data: Octets, next: nat) returns (bytes: Octets, length: nat)
    requires next + 2 <= |data|
    ensures (bytes, length) == UnescapeOne(data[next..])
  {
    var current := data[next + 1];
    if current != 0x75 { return Replacement(current), 2; }
    var ok, hex: Octets := |data| - next - 2 >= 4, [];
    while ok && |hex| < 4
      invariant |hex| <= 4 && (ok ==> next + 6 <= |data|)
      invariant ok ==> forall k :: 0 <= k < |hex| ==> HexAt(data, next + 2 + k, hex[k])
      invariant !ok ==> !HexEscape(data[next..])
      decreases ok, 4 - |hex|
    {
      var d := data[next + 2 + |hex|];
      if IsHex(d) { hex := hex + [HexValue(d)]; } else { ok := false; }
    }
    if ok {
      assert HexAt(data, next + 2, hex[0]) && HexAt(data, next + 3, hex[1]);
      assert HexAt(data, next + 4, hex[2]) && HexAt(data, next + 5, hex[3]);
      return HexBytes(hex[0], hex[1], hex[2], hex[3]), 6;
    }
    return [BACKSLASH, current], 2;
  }

  /** handle_json_escapes_in. Its size arithmetic needs a body without a dangling backslash. */
  method HandleEscapesIn(data: Octets) returns (out: Octets)
    requires NoDangling(data)
    ensures out == Unescape(data)
  {
    EmptyUnescaped();
    hide UnescapeOne, NoDangling, Unescape;
    out := [];
    var it := 0;
    assert data[0..] == data && out + Unescape(data) == Unescape(data);
    while it < |data|
      invariant it <= |data| && NoDangling(data[it..])
      invariant Unescape(data) == out + Unescape(data[it..])
    {
      var next := Find(data, it, BACKSLASH);
      UnescapeRun(data, it, next);
      out := out + data[it..next];
      if next == |data| {
        assert data[next..] == [] && out + [] == out;
        return;
      }
      var bytes, length := UnescapeAt(data, next);
      UnescapeStep(data, next);
      out := out + bytes;
      it := next + length;
    }
    assert data[it..] == [] && out + [] == out;
  }

  lemma EmptyUnescaped()
    ensures NoDangling([]) && Unescape([]) == []
  {}

  lemma UnescapeRun(data: Octets, it: nat, next: nat)
    requires it <= next <= |data| && NoDangling(data[it..])
    requires forall j :: it <= j < next ==> data[j] != BACKSLASH
    requires next < |data| ==> data[next] == BACKSLASH
    ensures NoDangling(data[next..]) && (next < |data| ==> next + 2 <= |data|)
    ensures Unescape(data[it..]) == data[it..next] + Unescape(data[next..])
  {
    assert data[it..][..next - it] == data[it..next] && data[it..][next - it..] == data[next..];
    UnescapePlain(data[it..], next - it);
    hide Unescape, UnescapeOne;
  }

  lemma UnescapeStep(data: Octets, next: nat)
    requires next + 2 <= |data| && data[next] == BACKSLASH && NoDangling(data[next..])
    ensures var (bytes, length) := UnescapeOne(data[next..]);
      && next + length <= |data| && NoDangling(data[next + length..])
      && Unescape(data[next..]) == bytes + Unescape(data[next + length..])
  {
    RestHasNoDangling(data[next..]);
    assert data[next..][UnescapeOne(data[next..]).1..] == data[next + UnescapeOne(data[next..]).1..];
  }

  // ---- round trip ----

  /** Unescaping what escaping wrote gives back every byte string. */
  lemma {:induction false} RoundTrip(s: Octets)
    ensures NoDangling(Escape(s)) && Unescape(Escape(s)) == s
  {
    var rest: Octets := [];
    RoundTripBefore(s, rest);
    assert Escape(s) + rest == Escape(s) && s + Unescape(rest) == s;
  }

  lemma {:induction false} RoundTripBefore(s: Octets, rest: Octets)
    requires NoDangling(rest)
    ensures NoDangling(Escape(s) + rest) && Unescape(Escape(s) + rest) == s + Unescape(rest)
  {
    hide EscapeOne, UnescapeOne, NoDangling;
    if s == [] {
      assert Escape(s) + rest == rest;
    } else {
      var c, t := s[|s| - 1], s[..|s| - 1];
      var e := EscapeOne(c);
      assert Escape(s) == Escape(t) + e;
      hide *;
      EscapedByte(c, rest);
      RoundTripBefore(t, e + rest);
      assert (Escape(t) + e) + rest == Escape(t) + (e + rest);
      assert t + ([c] + Unescape(rest)) == (t + [c]) + Unescape(rest) && t + [c] == s;
    }
  }

  lemma EscapedByte(c: Octet, rest: Octets)
    requires NoDangling(rest)
    ensures NoDangling(EscapeOne(c) + rest) && Unescape(EscapeOne(c) + rest) == [c] + Unescape(rest)
  {
    var e := EscapeOne(c) + rest;
    if |EscapeOne(c)| == 1 {
      assert e[0] == c != BACKSLASH && e[1..] == rest;
    } else {
      EscapeLetter(c);
      hide EscapeOne, Replacement;
      assert e[0] == BACKSLASH && e[1] == EscapeOne(c)[1] && e[2..] == rest;
      assert UnescapeOne(e) == ([c], 2);
    }
  }

  lemma EscapeLetter(c: Octet)
    requires |EscapeOne(c)| != 1
    ensures |EscapeOne(c)| == 2 && EscapeOne(c)[0] == BACKSLASH
    ensures EscapeOne(c)[1] != 0x75 && Replacement(EscapeOne(c)[1]) == [c]
  {}

  /** The letters of the short escapes b, f, n, r, t, quote, backslash and slash, and the
      characters that they stand for. */
  const LETTERS: Octets := [0x62, 0x66, 0x6e, 0x72, 0x74, 0x22, 0x5c, 0x2f]
  const CHARACTERS: Octets := [0x08, 0x0c, 0x0a, 0x0d, 0x09, 0x22, 0x5c, 0x2f]

  /** Each of the eight is read as its character; a backslash before anything else but a u stays. */
  lemma ShortEscapes(c: Octet, rest: Octets)
    requires NoDangling(rest) && c != 0x75
    ensures NoDangling([0x5c, c] + rest)
    ensures forall k :: 0 <= k < 8 && c == LETTERS[k] ==>
      Unescape([0x5c, c] + rest) == [CHARACTERS[k]] + Unescape(rest)
    ensures c !in LETTERS ==> Unescape([0x5c, c] + rest) == [0x5c, c] + Unescape(rest)
  {
    var s := [0x5c, c] + rest;
    assert s[2..] == rest && s[0] == BACKSLASH && s[1] == c;
    assert UnescapeOne(s) == (Replacement(c), 2);
    ReplacementIs(c);
    hide UnescapeOne, Replacement;
  }

  lemma ReplacementIs(c: Octet)
    ensures forall k :: 0 <= k < 8 && c == LETTERS[k] ==> Replacement(c) == [CHARACTERS[k]]
    ensures c !in LETTERS ==> Replacement(c) == [0x5c, c]
  {
    if c !in LETTERS {
      assert LETTERS[0] != c && LETTERS[1] != c && LETTERS[2] != c && LETTERS[3] != c;
      assert LETTERS[4] != c && LETTERS[5] != c && LETTERS[6] != c && LETTERS[7] != c;
    }
  }

  /** All of them but the slash are written so; every other character as it is. */
  lemma EscapedForm(c: Octet)
    ensures forall k :: 0 <= k < 7 && c == CHARACTERS[k] ==> EscapeOne(c) == [0x5c, LETTERS[k]]
    ensures c !in CHARACTERS[..7] ==> EscapeOne(c) == [c]
  {
    if c !in CHARACTERS[..7] {
      assert CHARACTERS[..7] == [0x08, 0x0c, 0x0a, 0x0d, 0x09, 0x22, 0x5c];
      assert c !in [0x08, 0x0c, 0x0a, 0x0d, 0x09, 0x22, 0x5c];
    }
  }

  const LOWER: Octets :=
    [0x30, 0x31, 0x32, 0x33, 0x34, 0x35, 0x36, 0x37, 0x38, 0x39, 0x61, 0x62, 0x63, 0x64, 0x65, 0x66]
  const UPPER: Octets :=
    [0x30, 0x31, 0x32, 0x33, 0x34, 0x35, 0x36, 0x37, 0x38, 0x39, 0x41, 0x42, 0x43, 0x44, 0x45, 0x46]

  predicate IsDigitOf(c: Octet, k: nat) { k < 16 && (c == LOWER[k] || c == UPPER[k]) }

  /** The hexadecimal digits, small and capital, and what they are worth. */
  lemma HexDigits(c: Octet, k: nat)
    requires k < 16
    ensures IsDigitOf(c, k) <==> IsHex(c) && HexValue(c) as nat == k
  {}

  /** A backslash, a u and four hexadecimal digits are read together. */
  lemma LongEscape(a: Octet, b: Octet, c: Octet, d: Octet, rest: Octets)
    requires NoDangling(rest) && IsHex(a) && IsHex(b) && IsHex(c) && IsHex(d)
    ensures NoDangling([0x5c, 0x75, a, b, c, d] + rest)
    ensures Unescape([0x5c, 0x75, a, b, c, d] + rest)
         == HexBytes(HexValue(a), HexValue(b), HexValue(c), HexValue(d)) + Unescape(rest)
  {
    var s := [0x5c, 0x75, a, b, c, d] + rest;
    assert s[2..][4..] == rest && s[6..] == rest;
    assert a != BACKSLASH && b != BACKSLASH && c != BACKSLASH && d != BACKSLASH;
    NoDanglingAfter(s[2..], 4);
    hide HexBytes, HexValue, IsHex;
  }

  // ---- the scan for the closing quote ----

  /** Where the string ends, or whether the next character is escaped when more is needed. */
  datatype Scan = Found(end: nat) | More(escaped: bool)

  function ScanString(s: Octets, at: nat, escaped: bool): Scan
    requires at <= |s|
    decreases |s| - at
  {
    if at == |s| then More(escaped)
    else if escaped then ScanString(s, at + 1, false)
    else if s[at] == BACKSLASH then ScanString(s, at + 1, true)
    else if s[at] == QUOTE then Found(at + 1)
    else ScanString(s, at + 1, false)
  }

  /** The lookup class of the two characters the unrolled loop stops at. */
  predicate StrEndOrBackSlash(c: Octet) { c == QUOTE || c == BACKSLASH }

  lemma SkipPlain(s: Octets, at: nat)
    requires at < |s| && !StrEndOrBackSlash(s[at])
    ensures ScanString(s, at, false) == ScanString(s, at + 1, false)
  {}

  /** The part of the tokenizer that carries the scan from one chunk to the next. */
  class StringScanner {
    var isEscaped: bool

    constructor ()
      ensures !isEscaped
    {
      isEscaped := false;
    }

    /** findStringEnd: four characters a round while none of them is special. It answers
        what the plain scan answers, and keeps the escape state for the next chunk. */
    method FindStringEnd(data: Octets, cursor: nat) returns (found: bool, charsAhead: nat)
      requires cursor <= |data|
      modifies this
      ensures var scan := ScanString(data, cursor, old(isEscaped));
        if found then scan == Found(cursor + charsAhead) && !isEscaped else scan == More(isEscaped)
    {
      var end := cursor;
      while end < |data|
        invariant end <= |data|
        invariant ScanString(data, cursor, old(isEscaped)) == ScanString(data, end, isEscaped)
      {
        if isEscaped {
          isEscaped := false;
          end := end + 1;
          continue;
        }
        ghost var scan := ScanString(data, cursor, old(isEscaped));
        while end + 4 < |data|
          invariant end < |data| && !isEscaped
          invariant scan == ScanString(data, end, false)
        {
          if StrEndOrBackSlash(data[end]) { break; }
          SkipPlain(data, end);
          end := end + 1;
          if StrEndOrBackSlash(data[end]) { break; }
          SkipPlain(data, end);
          end := end + 1;
          if StrEndOrBackSlash(data[end]) { break; }
          SkipPlain(data, end);
          end := end + 1;
          if StrEndOrBackSlash(data[end]) { break; }
          SkipPlain(data, end);
          end := end + 1;
        }
        var c := data[end];
        if c == BACKSLASH {
          isEscaped := true;
        } else if c == QUOTE {
          return true, end + 1 - cursor;
        }
        end := end + 1;
      }
      return false, 0;
    }
  }

  /** Cutting the input anywhere and carrying the escape state over does not move the end. */
  lemma {:induction false} Resumes(a: Octets, b: Octets, at: nat, escaped: bool)
    requires at <= |a|
    ensures ScanString(a + b, at, escaped) == match ScanString(a, at, escaped)
      case Found(end) => Found(end)
      case More(carried) =>
        match ScanString(b, 0, carried)
        case Found(end) => Found(|a| + end)
        case More(e) => More(e)
    decreases |a| - at
  {
    if at == |a| {
      Shifted(a, b, 0, escaped);
    } else if escaped || a[at] != QUOTE {
      Resumes(a, b, at + 1, !escaped && a[at] == BACKSLASH);
    }
  }

  lemma {:induction false} Shifted(a: Octets, b: Octets, at: nat, escaped: bool)
    requires at <= |b|
    ensures ScanString(a + b, |a| + at, escaped) == match ScanString(b, at, escaped)
      case Found(end) => Found(|a| + end)
      case More(e) => More(e)
    decreases |b| - at
  {
    if at < |b| && (escaped || b[at] != QUOTE) {
      Shifted(a, b, at + 1, !escaped && b[at] == BACKSLASH);
    }
  }

  /** A quoted string that was escaped ends at its own closing quote. */
  lemma {:induction false} EndsAtFinalQuote(s: Octets, rest: Octets)
    ensures ScanString(Escape(s) + [QUOTE] + rest, 0, false) == Found(|Escape(s)| + 1)
  {
    EscapeIsTransparent(s);
    var tail := [QUOTE] + rest;
    Resumes(Escape(s), tail, 0, false);
    assert Escape(s) + tail == Escape(s) + [QUOTE] + rest;
  }

  lemma {:induction false} EscapeIsTransparent(s: Octets)
    ensures ScanString(Escape(s), 0, false) == More(false)
  {
    if s != [] {
      var c, t := s[|s| - 1], s[..|s| - 1];
      EscapeIsTransparent(t);
      Resumes(Escape(t), EscapeOne(c), 0, false);
      assert ScanString(EscapeOne(c), 0, false) == More(false) by {
        if |EscapeOne(c)| == 2 { assert ScanString(EscapeOne(c), 1, true) == ScanString(EscapeOne(c), 2, false); }
      }
    }
  }

  /** The bodies this scan accepts have no dangling backslash, so they can be unescaped. */
  lemma {:induction false} BodyHasNoDangling(s: Octets, at: nat)
    requires at <= |s| && ScanString(s, at, false).Found?
    ensures var end := ScanString(s, at, false).end;
      at < end <= |s| && NoDangling(s[at..end - 1])
    decreases |s| - at
  {
    var end := ScanString(s, at, false).end;
    if s[at] == BACKSLASH {
      BodyHasNoDangling(s, at + 2);
      assert s[at..end - 1][2..] == s[at + 2..end - 1];
    } else if s[at] != QUOTE {
      BodyHasNoDangling(s, at + 1);
      assert s[at..end - 1][1..] == s[at + 1..end - 1];
    }
  }

  predicate Control(c: Octet) { c < 0x20 }

  predicate NoControls(s: Octets) { forall k :: 0 <= k < |s| ==> !Control(s[k]) }

  predicate ShortEscape(c: Octet) { c == 0x08 || c == 0x09 || c == 0x0a || c == 0x0c || c == 0x0d }

  /** Section 7 of RFC 8259 allows no raw control character in a string. The escaped form
      keeps to that exactly when every control character has a short escape. */
  lemma {:induction false} EscapeRemovesControls(s: Octets)
    ensures NoControls(Escape(s)) <==> forall k :: 0 <= k < |s| ==> Control(s[k]) ==> ShortEscape(s[k])
  {
    if s != [] {
      var c, t := s[|s| - 1], s[..|s| - 1];
      EscapeRemovesControls(t);
      assert NoControls(EscapeOne(c)) <==> (Control(c) ==> ShortEscape(c)) by {
        assert EscapeOne(c)[0] == if |EscapeOne(c)| == 2 then BACKSLASH else c;
      }
      ControlsConcat(Escape(t), EscapeOne(c));
      assert forall k :: 0 <= k < |t| ==> s[k] == t[k];
    }
  }

  lemma ControlsConcat(a: Octets, b: Octets)
    ensures NoControls(a + b) <==> NoControls(a) && NoControls(b)
  {
    if NoControls(a + b) {
      forall k | 0 <= k < |a| ensures !Control(a[k]) { assert a[k] == (a + b)[k]; }
      forall k | 0 <= k < |b| ensures !Control(b[k]) { assert b[k] == (a + b)[|a| + k]; }
    }
  }

  // ---- the hexadecimal escape ----

  /** The code point that four hexadecimal digits name. */
  function CodePoint(h0: Octet, h1: Octet, h2: Octet, h3: Octet): bv16 {
    ((h0 as bv16) << 12) | ((h1 as bv16) << 8) | ((h2 as bv16) << 4) | (h3 as bv16)
  }

  /** UTF-8 of a code point below 0x10000, section 3 of RFC 3629. */
  function Utf8(cp: bv16): Octets {
    if cp < 0x80 then [(cp & 0x7f) as bv8]
    else if cp < 0x800 then [0xc0 | (cp >> 6) as bv8, 0x80 | (cp & 0x3f) as bv8]
    else [0xe0 | (cp >> 12) as bv8, 0x80 | ((cp >> 6) & 0x3f) as bv8, 0x80 | (cp & 0x3f) as bv8]
  }

  /** The decoded bytes are UTF-8 exactly for code points below 0x800: the three-byte form
      starts with the wrong lead byte. */
  lemma HexBytesAreUtf8(h0: Octet, h1: Octet, h2: Octet, h3: Octet)
    requires h0 < 16 && h1 < 16 && h2 < 16 && h3 < 16
    ensures HexBytes(h0, h1, h2, h3) == Utf8(CodePoint(h0, h1, h2, h3)) <==> CodePoint(h0, h1, h2, h3) < 0x800
  {
    var cp := CodePoint(h0, h1, h2, h3);
    assert cp < 0x800 <==> !(h0 != 0 || h1 & 0x08 != 0);
  }

  lemma LeadBits(h0: Octet, h1: Octet, h2: Octet, h3: Octet)
    requires h0 < 16 && h1 < 16 && h2 < 16 && h3 < 16
    ensures CodePoint(h0, h1, h2, h3) < 0x800 <==> !(h0 != 0 || h1 & 0x08 != 0)
    ensures 0xe0 | (CodePoint(h0, h1, h2, h3) >> 12) as bv8 == (0xd0 | h0) + 0x10
  {}

  lemma MiddleBits(h0: Octet, h1: Octet, h2: Octet, h3: Octet)
    requires h0 < 16 && h1 < 16 && h2 < 16 && h3 < 16
    ensures 0x80 | ((CodePoint(h0, h1, h2, h3) >> 6) & 0x3f) as bv8 == 0x80 | (h1 << 2) | ((h2 & 0x0c) >> 2)
  {}

  lemma LastBits(h0: Octet, h1: Octet, h2: Octet, h3: Octet)
    requires h0 < 16 && h1 < 16 && h2 < 16 && h3 < 16
    ensures 0x80 | (CodePoint(h0, h1, h2, h3) & 0x3f) as bv8 == 0x80 | ((h2 & 0x03) << 4) | h3
  {}

  lemma ThreeBytes(cp: bv16, lead: Octet, middle: Octet, last: Octet)
    requires cp >= 0x800 && lead == 0xe0 | (cp >> 12) as bv8
    requires middle == 0x80 | ((cp >> 6) & 0x3f) as bv8 && last == 0x80 | (cp & 0x3f) as bv8
    ensures Utf8(cp) == [lead, middle, last]
  {}

  lemma ThreeBytesPushed(h0: Octet, h1: Octet, h2: Octet, h3: Octet, middle: Octet, last: Octet)
    requires h0 != 0 || h1 & 0x08 != 0
    requires middle == 0x80 | (h1 << 2) | ((h2 & 0x0c) >> 2) && last == 0x80 | ((h2 & 0x03) << 4) | h3
    ensures HexBytes(h0, h1, h2, h3) == [0xd0 | h0, middle, last]
  {}

  /** Only the lead byte is wrong: it is 0x10 too small, and the rest is that of UTF-8. */
  lemma OnlyLeadByteDiffers(h0: Octet, h1: Octet, h2: Octet, h3: Octet)
    requires h0 < 16 && h1 < 16 && h2 < 16 && h3 < 16 && CodePoint(h0, h1, h2, h3) >= 0x800
    ensures exists lead, middle, last :: Utf8(CodePoint(h0, h1, h2, h3)) == [lead + 0x10, middle, last]
                                         && HexBytes(h0, h1, h2, h3) == [lead, middle, last]
  {
    hide *;
    LeadBits(h0, h1, h2, h3);
    MiddleBits(h0, h1, h2, h3);
    LastBits(h0, h1, h2, h3);
    var lead, middle, last := 0xd0 | h0, 0x80 | (h1 << 2) | ((h2 & 0x0c) >> 2), 0x80 | ((h2 & 0x03) << 4) | h3;
    ThreeBytes(CodePoint(h0, h1, h2, h3), lead + 0x10, middle, last);
    ThreeBytesPushed(h0, h1, h2, h3, middle, last);
  }
}
