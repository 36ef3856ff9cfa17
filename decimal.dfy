/**
 * The two number conversions the model builder relies on, over the text of a
 * syntax node: sscanf with "%u" and atol.
 */
module Decimal {
  import opened Results

  predicate IsDigit(c: char) { '0' <= c <= '9' }

  /** The white-space characters of C's isspace in the "C" locale. */
  predicate IsSpace(c: char) { c == ' ' || c == '\t' || c == '\n' || c == '\r' || c == '\U{B}' || c == '\U{C}' }

  function DigitValue(c: char): (d: nat)
    requires IsDigit(c)
    ensures d < 10
  {
    c as int - '0' as int
  }

  function DigitChar(d: nat): (c: char)
    requires d < 10
    ensures IsDigit(c) && DigitValue(c) == d
  {
    (d + '0' as int) as char
  }

  predicate AllDigits(s: string) { forall i :: 0 <= i < |s| ==> IsDigit(s[i]) }

  /** Both conversions skip leading white space first. */
  function SkipSpaces(s: string): (r: string)
    ensures |r| <= |s| && r == s[|s| - |r|..]
    ensures r == [] || !IsSpace(r[0])
  {
    if s != [] && IsSpace(s[0]) then SkipSpaces(s[1..]) else s
  }

  /** Everything SkipSpaces drops is white space. */
  lemma {:induction false} SkipSpacesDropsSpaces(s: string)
    ensures forall i :: 0 <= i < |s| - |SkipSpaces(s)| ==> IsSpace(s[i])
  {
    if s != [] && IsSpace(s[0]) {
      SkipSpacesDropsSpaces(s[1..]);
      assert forall i :: 1 <= i < |s| - |SkipSpaces(s)| ==> s[i] == s[1..][i - 1];
    }
  }

  /** The longest prefix of `s` made of decimal digits. */
  function LeadingDigits(s: string): (r: string)
    ensures r <= s && AllDigits(r)
    ensures |r| == |s| || !IsDigit(s[|r|])
  {
    if s != [] && IsDigit(s[0]) then [s[0]] + LeadingDigits(s[1..]) else []
  }

  /** The value of a digit string written most significant digit first. */
  function DigitsValue(d: string): nat
    requires AllDigits(d)
  {
    if d == [] then 0 else DigitsValue(d[..|d| - 1]) * 10 + DigitValue(d[|d| - 1])
  }

  /** One more than the largest `unsigned int`, and the largest `unsigned long`, of a 64-bit C library. */
  const UINT_MODULUS: nat := 0x1_0000_0000
  const ULONG_MAX: nat := 0xFFFF_FFFF_FFFF_FFFF

  /** The text after an optional leading sign. */
  function Unsigned(t: string): string
  {
    if t != [] && (t[0] == '-' || t[0] == '+') then t[1..] else t
  }

  /**
   * The value strtoul gives the magnitude `v`: ULONG_MAX when it does not
   * fit, otherwise `v`, negated modulo 2^64 after a minus sign (so "-0" is 0).
   */
  function StrToUL(negative: bool, v: nat): (r: nat)
    ensures r <= ULONG_MAX
  {
    if v > ULONG_MAX then ULONG_MAX
    else if negative && v > 0 then ULONG_MAX + 1 - v
    else v
  }

  /**
   * sscanf(s, "%u", &v) == 1: after white space, an optional sign and at
   * least one digit.  The number is converted as strtoul converts it and
   * stored in a 32-bit `unsigned int`, keeping its low 32 bits as the GNU
   * C library does.
   */
  function ParseUnsigned(s: string): (r: Option<nat>)
    ensures r.Some? ==> r.value < UINT_MODULUS
  {
    var t := SkipSpaces(s);
    var d := LeadingDigits(Unsigned(t));
    if d == [] then None
    else Some(StrToUL(t != [] && t[0] == '-', DigitsValue(d)) % UINT_MODULUS)
  }

  /** atol(s): an optional sign and the leading digits after white space; 0 when nothing converts. */
  function ParseLong(s: string): int
  {
    var t := SkipSpaces(s);
    if t != [] && t[0] == '-' then -(DigitsValue(LeadingDigits(t[1..])) as int)
    else if t != [] && t[0] == '+' then DigitsValue(LeadingDigits(t[1..]))
    else DigitsValue(LeadingDigits(t))
  }

  /** The decimal spelling of `n`, as printf "%u" writes it. */
  function Decimal(n: nat): (r: string)
    ensures r != [] && AllDigits(r)
  {
    if n < 10 then [DigitChar(n)] else Decimal(n / 10) + [DigitChar(n % 10)]
  }

  lemma {:induction false} LeadingDigitsOfDigits(s: string)
    requires AllDigits(s)
    ensures LeadingDigits(s) == s
  {
    if s != [] {
      LeadingDigitsOfDigits(s[1..]);
    }
  }

  lemma {:induction false} DecimalValue(n: nat)
    ensures DigitsValue(Decimal(n)) == n
  {
    if n >= 10 {
      DecimalValue(n / 10);
      var d := Decimal(n);
      assert d[..|d| - 1] == Decimal(n / 10);
    }
  }

  /** What "%u" converts from a digit string. */
  lemma {:induction false} ParsePlain(d: string)
    requires d != [] && AllDigits(d)
    ensures ParseUnsigned(d) == Some(StrToUL(false, DigitsValue(d)) % UINT_MODULUS)
  {
    LeadingDigitsOfDigits(d);
    assert !IsSpace(d[0]) && d[0] != '-' && d[0] != '+';
    assert SkipSpaces(d) == d;
    assert Unsigned(d) == d;
  }

  /** What "%u" converts from a sign followed by a digit string. */
  lemma {:induction false} ParseSigned(t: string)
    requires |t| > 1 && (t[0] == '+' || t[0] == '-') && AllDigits(t[1..])
    ensures ParseUnsigned(t) == Some(StrToUL(t[0] == '-', DigitsValue(t[1..])) % UINT_MODULUS)
  {
    LeadingDigitsOfDigits(t[1..]);
    assert !IsSpace(t[0]);
    assert SkipSpaces(t) == t;
    assert Unsigned(t) == t[1..];
  }

  /** Below 2^32 the wrap keeps the number. */
  lemma SmallWrap(n: nat)
    requires n < UINT_MODULUS
    ensures StrToUL(false, n) % UINT_MODULUS == n
  {
  }

  /** The 32-bit complement of a positive number below 2^32. */
  lemma NegativeWrap(n: nat)
    requires 0 < n < UINT_MODULUS
    ensures StrToUL(true, n) % UINT_MODULUS == UINT_MODULUS - n
  {
    var m := ULONG_MAX + 1 - n;
    assert StrToUL(true, n) == m;
    assert m == (UINT_MODULUS - 1) * UINT_MODULUS + (UINT_MODULUS - n);
  }

  /**
   * Reading back what printf "%u" writes gives the number; a larger spelling
   * that fits an `unsigned long` keeps its low 32 bits.
   */
  lemma DecimalRoundTrip(n: nat)
    ensures n < UINT_MODULUS ==> ParseUnsigned(Decimal(n)) == Some(n)
    ensures n <= ULONG_MAX ==> ParseUnsigned(Decimal(n)) == Some(n % UINT_MODULUS)
  {
    var d := Decimal(n);
    DecimalValue(n);
    ParsePlain(d);
    if n <= ULONG_MAX {
      assert StrToUL(false, n) == n;
    }
    if n < UINT_MODULUS {
      SmallWrap(n);
    }
  }

  /** "%u" accepts a plus sign, which changes nothing. */
  lemma PlusSpelling(n: nat)
    requires n < UINT_MODULUS
    ensures ParseUnsigned("+" + Decimal(n)) == Some(n)
  {
    var t := "+" + Decimal(n);
    assert t[1..] == Decimal(n);
    DecimalValue(n);
    ParseSigned(t);
    SmallWrap(n);
  }

  /** "%u" accepts a minus sign: before a positive number below 2^32 it gives the 32-bit complement. */
  lemma MinusSpelling(n: nat)
    requires 0 < n < UINT_MODULUS
    ensures ParseUnsigned("-" + Decimal(n)) == Some(UINT_MODULUS - n)
  {
    NegativeWrap(n);
    var w := StrToUL(true, n) % UINT_MODULUS;
    assert ParseUnsigned("-" + Decimal(n)) == Some(w) by {
      var t := "-" + Decimal(n);
      assert t[1..] == Decimal(n);
      DecimalValue(n);
      ParseSigned(t);
    }
  }

  lemma UnsignedRoundTrip(n: nat)
    ensures ParseLong(Decimal(n)) == n
  {
    var d := Decimal(n);
    LeadingDigitsOfDigits(d);
    DecimalValue(n);
    assert d[0] != '-' && d[0] != '+' && !IsSpace(d[0]);
    assert SkipSpaces(d) == d;
  }

  /** The decimal spelling of `n`, with a minus sign when it is negative, as printf "%ld" writes it. */
  function SignedDecimal(n: int): (r: string)
    ensures r != []
  {
    if n < 0 then "-" + Decimal(-n) else Decimal(n)
  }

  lemma NegativeRoundTrip(n: int)
    requires n < 0
    ensures ParseLong(SignedDecimal(n)) == n
  {
    var d := Decimal(-n);
    LeadingDigitsOfDigits(d);
    DecimalValue(-n);
    var t := "-" + d;
    assert SignedDecimal(n) == t;
    assert SkipSpaces(t) == t;
    assert t[1..] == d;
  }

  /** atol reads back a signed decimal spelling. */
  lemma SignedRoundTrip(n: int)
    ensures ParseLong(SignedDecimal(n)) == n
  {
    if n < 0 {
      NegativeRoundTrip(n);
    } else {
      calc {
        ParseLong(SignedDecimal(n));
        ParseLong(Decimal(n));
        { UnsignedRoundTrip(n); }
        n;
      }
    }
  }
}
