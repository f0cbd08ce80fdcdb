/**
 * Bytes, ASCII text and decimal numbers as the serial message layer uses them.
 *
 * Every buffer of the reader and the writer holds raw bytes (`byte`).  The C
 * code builds decimal text with Arduino's `String(n)` and `print(n, DEC)` and
 * reads it back with `sscanf("%u")` and `sscanf("%d")`; this module gives the
 * formatter and the subset of those conversions the model relies on:
 *
 *   - `%u` converts the longest run of decimal digits at the start of the text
 *     and fails when the text does not start with a digit;
 *   - `%d` does the same after an optional `-` or `+`;
 *   - the rest of the text after the digits is ignored, as `sscanf` does;
 *   - `%f` succeeds when the text starts, after an optional sign, with a
 *     digit, with `.` and a digit, or with `inf` or `nan` in any case; the
 *     value it stores is not modelled;
 *   - a value that does not fit the 32-bit `unsigned int` or `int` saturates
 *     to the nearest bound, as the C library's `strtoul` and `strtol` do.
 */
module Ascii {

  datatype Option<T> = None | Some(value: T)

  /** An unsigned 8-bit value: a `char` or `uint8_t` of the C code. */
  newtype byte = x: int | 0 <= x < 256

  function Min(a: int, b: int): int { if a <= b then a else b }
  function Max(a: int, b: int): int { if a >= b then a else b }

  const NUL: byte := 0x00
  const TAB: byte := 0x09
  const NEWLINE: byte := 0x0A
  const PLUS: byte := 0x2B
  const COMMA: byte := 0x2C
  const MINUS: byte := 0x2D
  const SLASH: byte := 0x2F
  const DOT: byte := 0x2E
  const COLON: byte := 0x3A
  const SEMICOLON: byte := 0x3B
  const LT: byte := 0x3C
  const GT: byte := 0x3E

  const UINT_MAX: nat := 0xFFFF_FFFF
  const INT_MIN: int := -0x8000_0000
  const INT_MAX: int := 0x7FFF_FFFF

  predicate IsByteString(s: string) {
    forall i | 0 <= i < |s| :: s[i] as int < 256
  }

  /** The bytes of a string literal of the C code. */
  function Bytes(s: string): (b: seq<byte>)
    requires IsByteString(s)
    ensures |b| == |s|
    ensures forall i | 0 <= i < |s| :: b[i] as int == s[i] as int
  {
    seq(|s|, i requires 0 <= i < |s| => s[i] as int as byte)
  }

  /** A C string's contents: the bytes before its terminating NUL. */
  predicate IsCString(s: seq<byte>) {
    forall i | 0 <= i < |s| :: s[i] != NUL
  }

  /** What `strcmp` and `sscanf` see of a NUL-terminated buffer holding `s`: the bytes before the first NUL. */
  function CView(s: seq<byte>): (v: seq<byte>)
    ensures |v| <= |s| && v == s[..|v|] && IsCString(v)
    ensures |v| < |s| ==> s[|v|] == NUL
  {
    if s == [] || s[0] == NUL then [] else [s[0]] + CView(s[1..])
  }

  lemma CViewOfCString(s: seq<byte>)
    requires IsCString(s)
    ensures CView(s) == s
  {
  }

  predicate IsDigit(b: byte) { 0x30 <= b <= 0x39 }

  predicate AllDigits(s: seq<byte>) {
    forall i | 0 <= i < |s| :: IsDigit(s[i])
  }

  function DigitByte(d: nat): (b: byte)
    requires d < 10
    ensures IsDigit(b) && (b - 0x30) as int == d
  {
    (0x30 + d) as byte
  }

  /** The value of a run of decimal digits, most significant first. */
  function DigitsValue(s: seq<byte>): nat
    requires AllDigits(s)
  {
    if s == [] then 0 else DigitsValue(s[..|s| - 1]) * 10 + (s[|s| - 1] - 0x30) as int
  }

  /** Decimal text of `n`, without leading zeros: Arduino's `String(n)` and `print(n, DEC)`. */
  function Decimal(n: nat): (d: seq<byte>)
    ensures 0 < |d| && AllDigits(d)
    ensures |d| > 1 ==> d[0] != 0x30
  {
    if n < 10 then [DigitByte(n)] else Decimal(n / 10) + [DigitByte(n % 10)]
  }

  /** Number of decimal digits at the start of `s`. */
  function DigitPrefix(s: seq<byte>): (k: nat)
    ensures k <= |s| && AllDigits(s[..k])
    ensures k < |s| ==> !IsDigit(s[k])
  {
    if s == [] || !IsDigit(s[0]) then 0
    else
      var k := 1 + DigitPrefix(s[1..]);
      assert s[..k] == [s[0]] + s[1..][..k - 1];
      k
  }

  /** One `%u` conversion: its value and the number of bytes it consumed. */
  datatype Conversion = Conversion(value: nat, consumed: nat)

  function ScanNumber(s: seq<byte>): (r: Option<Conversion>)
    ensures r.Some? <==> |s| > 0 && IsDigit(s[0])
    ensures r.Some? ==> 0 < r.value.consumed <= |s| && r.value.value <= UINT_MAX
  {
    var k := DigitPrefix(s);
    if k == 0 then None else Some(Conversion(Min(DigitsValue(s[..k]), UINT_MAX), k))
  }

  /** `sscanf(s, "%u", &v) == 1`, and the `v` it stores. */
  function ScanUnsigned(s: seq<byte>): (r: Option<nat>)
    ensures r.Some? <==> |s| > 0 && IsDigit(s[0])
    ensures r.Some? ==> r.value <= UINT_MAX
  {
    match ScanNumber(s)
    case None => None
    case Some(c) => Some(c.value)
  }

  /** `sscanf(s, "%d", &v) == 1`, and the `v` it stores. */
  function ScanSigned(s: seq<byte>): (r: Option<int>)
    ensures r.Some? ==> INT_MIN <= r.value <= INT_MAX
    ensures r.Some? <==> |s| > 0 && (IsDigit(s[0]) || ((s[0] == MINUS || s[0] == PLUS) && |s| > 1 && IsDigit(s[1])))
  {
    if |s| > 0 && (s[0] == MINUS || s[0] == PLUS) then
      var k := DigitPrefix(s[1..]);
      if k == 0 then None
      else
        var m := DigitsValue(s[1..][..k]);
        var v: int := if s[0] == MINUS then Max(0 - m as int, INT_MIN) else Min(m, INT_MAX);
        Some(v)
    else
      var k := DigitPrefix(s);
      if k == 0 then None else Some(Min(DigitsValue(s[..k]), INT_MAX))
  }

  /** `b` with an ASCII upper-case letter turned to lower case, as `tolower` does. */
  function Lower(b: byte): byte
  {
    if 0x41 <= b <= 0x5A then b + 0x20 else b
  }

  /** `s` starts with the lower-case ASCII word `w`, compared without regard to case. */
  predicate StartsWithWord(s: seq<byte>, w: seq<byte>)
  {
    |w| <= |s| && forall i | 0 <= i < |w| :: Lower(s[i]) == w[i]
  }

  /** `sscanf(s, "%f", &f) == 1`: whether the conversion succeeds, not the value it stores. */
  predicate ScansFloat(s: seq<byte>)
  {
    var u := if |s| > 0 && (s[0] == MINUS || s[0] == PLUS) then s[1..] else s;
    (|u| > 0 && IsDigit(u[0]))
    || (|u| > 1 && u[0] == DOT && IsDigit(u[1]))
    || StartsWithWord(u, Bytes("inf"))
    || StartsWithWord(u, Bytes("nan"))
  }

  datatype Triple = Triple(first: nat, second: nat, third: nat)

  /** `sscanf(s, "%u<sep>%u<sep>%u", ...) == 3`, and the three values. */
  function ScanTriple(s: seq<byte>, sep: byte): Option<Triple>
  {
    match ScanNumber(s)
    case None => None
    case Some(a) =>
      if a.consumed == |s| || s[a.consumed] != sep then None
      else
        var s1 := s[a.consumed + 1..];
        match ScanNumber(s1)
        case None => None
        case Some(b) =>
          if b.consumed == |s1| || s1[b.consumed] != sep then None
          else
            match ScanUnsigned(s1[b.consumed + 1..])
            case None => None
            case Some(c) => Some(Triple(a.value, b.value, c))
  }

  /** The text `"%u<sep>%u<sep>%u"` of a triple, as a GPS date or time is written. */
  function TripleText(t: Triple, sep: byte): (s: seq<byte>)
    ensures |s| == |Decimal(t.first)| + |Decimal(t.second)| + |Decimal(t.third)| + 2
  {
    Decimal(t.first) + [sep] + (Decimal(t.second) + [sep] + Decimal(t.third))
  }

  // ---------------------------------------------------------------------
  // Regrouping sequences, as steps the proofs call by name
  // ---------------------------------------------------------------------

  lemma EmptyAppend<T>(xs: seq<T>)
    ensures [] + xs == xs
  {
  }

  lemma AppendEmpty<T>(xs: seq<T>)
    ensures xs + [] == xs
  {
  }

  lemma AppendCons<T>(xs: seq<T>, x: T, ys: seq<T>)
    ensures xs + ([x] + ys) == (xs + [x]) + ys
  {
  }

  lemma HeadTail<T>(xs: seq<T>)
    requires xs != []
    ensures [xs[0]] + xs[1..] == xs
  {
  }

  lemma AppendAssoc<T>(a: seq<T>, b: seq<T>, c: seq<T>)
    ensures (a + b) + c == a + (b + c)
  {
  }

  /** Number of occurrences of `b` in `s`. */
  function Count(b: byte, s: seq<byte>): nat
  {
    if s == [] then 0 else Count(b, s[..|s| - 1]) + (if s[|s| - 1] == b then 1 else 0)
  }

  // ---------------------------------------------------------------------
  // Properties of the formatter and the conversions
  // ---------------------------------------------------------------------

  /** A triple written with a separator that is not a digit is scanned back whole. */
  lemma TripleRoundTrip(t: Triple, sep: byte)
    requires t.first <= UINT_MAX && t.second <= UINT_MAX && t.third <= UINT_MAX
    requires !IsDigit(sep)
    ensures ScanTriple(TripleText(t, sep), sep) == Some(t)
  {
    var c := Decimal(t.third);
    NumberThenSeparator(t.first, sep, Decimal(t.second) + [sep] + c);
    NumberThenSeparator(t.second, sep, c);
    DecimalRoundTrip(t.third, []);
    assert c + [] == c;
  }

  /** A number written before a separator: the scan stops at the separator, and the text after it is what follows. */
  lemma NumberThenSeparator(n: nat, sep: byte, rest: seq<byte>)
    requires n <= UINT_MAX && !IsDigit(sep)
    ensures var s := Decimal(n) + [sep] + rest;
      ScanNumber(s) == Some(Conversion(n, |Decimal(n)|)) && s[|Decimal(n)|] == sep && s[|Decimal(n)| + 1..] == rest
  {
    var d := Decimal(n);
    assert d + [sep] + rest == d + ([sep] + rest);
    DecimalRoundTrip(n, [sep] + rest);
  }

  lemma {:induction false} DecimalValue(n: nat)
    ensures DigitsValue(Decimal(n)) == n
  {
    if n >= 10 {
      var d := Decimal(n);
      assert d[..|d| - 1] == Decimal(n / 10);
      DecimalValue(n / 10);
    }
  }

  lemma {:induction false} DecimalLength(n: nat, k: nat)
    requires n < Pow10(k)
    ensures |Decimal(n)| <= Max(k, 1)
  {
    if n >= 10 {
      DecimalLength(n / 10, k - 1);
    }
  }

  function Pow10(k: nat): (p: nat)
    ensures p >= 1
  {
    if k == 0 then 1 else 10 * Pow10(k - 1)
  }

  lemma {:induction false} DigitPrefixOfDigits(d: seq<byte>, rest: seq<byte>)
    requires AllDigits(d)
    requires rest == [] || !IsDigit(rest[0])
    ensures DigitPrefix(d + rest) == |d|
  {
    if d != [] {
      assert (d + rest)[1..] == d[1..] + rest;
      DigitPrefixOfDigits(d[1..], rest);
    }
  }

  /** The reader's `%u` takes back what the writer's decimal formatter produced. */
  lemma DecimalRoundTrip(n: nat, rest: seq<byte>)
    requires n <= UINT_MAX
    requires rest == [] || !IsDigit(rest[0])
    ensures ScanNumber(Decimal(n) + rest) == Some(Conversion(n, |Decimal(n)|))
    ensures ScanUnsigned(Decimal(n) + rest) == Some(n)
  {
    var d := Decimal(n);
    DigitPrefixOfDigits(d, rest);
    assert (d + rest)[..|d|] == d;
    DecimalValue(n);
  }

  lemma {:induction false} CountAppend(b: byte, s: seq<byte>, t: seq<byte>)
    ensures Count(b, s + t) == Count(b, s) + Count(b, t)
  {
    if t != [] {
      assert (s + t)[..|s + t| - 1] == s + t[..|t| - 1];
      CountAppend(b, s, t[..|t| - 1]);
    } else {
      assert s + t == s;
    }
  }
}
