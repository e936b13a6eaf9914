/** Decimal digits and the part of strtol(s, &end, 10) that the integer
    reader depends on: the value of the leading run of decimal digits,
    clamped to LONG_MAX with a range error when it does not fit. */
module CStdlib {

  /** The C standard's smallest allowed LONG_MAX (2^31 - 1). */
  const LongMaxMinimum: nat := 0x7FFF_FFFF

  /** Arduino's isDigit: '0'..'9'. */
  predicate IsDigit(c: char) {
    '0' <= c <= '9'
  }

  predicate AllDigits(s: seq<char>) {
    forall i :: 0 <= i < |s| ==> IsDigit(s[i])
  }

  function DigitValue(c: char): (d: nat)
    requires IsDigit(c)
    ensures d < 10
  {
    c as int - '0' as int
  }

  function DigitChar(d: nat): (c: char)
    requires d < 10
    ensures IsDigit(c) && DigitValue(c) == d
  {
    ('0' as int + d) as char
  }

  function Pow10(n: nat): (p: nat)
    ensures p >= 1
  {
    if n == 0 then 1 else 10 * Pow10(n - 1)
  }

  /** The number a string of decimal digits denotes, most significant first. */
  function Decimal(s: seq<char>): (v: nat)
    requires AllDigits(s)
    ensures v < Pow10(|s|)
  {
    if s == [] then 0 else 10 * Decimal(s[..|s| - 1]) + DigitValue(s[|s| - 1])
  }

  /** The decimal rendering of n, without leading zeros. */
  function ToDecimal(n: nat): (s: seq<char>)
    ensures |s| >= 1 && AllDigits(s)
    ensures Decimal(s) == n
    ensures s[0] == '0' ==> n == 0
  {
    if n < 10 then [DigitChar(n)]
    else
      var s := ToDecimal(n / 10) + [DigitChar(n % 10)];
      assert s[..|s| - 1] == ToDecimal(n / 10);
      s
  }

  /** The longest prefix of `s` made of decimal digits: where strtol stops. */
  function LeadingDigits(s: seq<char>): (d: seq<char>)
    ensures d <= s && AllDigits(d)
    ensures |d| < |s| ==> !IsDigit(s[|d|])
  {
    if s == [] || !IsDigit(s[0]) then [] else [s[0]] + LeadingDigits(s[1..])
  }

  lemma {:induction false} LeadingDigitsOfDigits(s: seq<char>)
    requires AllDigits(s)
    ensures LeadingDigits(s) == s
  {
    if s != [] {
      LeadingDigitsOfDigits(s[1..]);
    }
  }

  lemma {:induction false} Pow10Monotone(m: nat, n: nat)
    requires m <= n
    ensures Pow10(m) <= Pow10(n)
  {
    if m < n {
      Pow10Monotone(m, n - 1);
    }
  }

  /** What strtol hands back: the converted value, and whether it set
      errno to ERANGE. */
  datatype Conversion = Conversion(value: int, rangeError: bool)

  /** strtol(s, &end, 10) on a string that starts with its digits (no
      leading blanks, no sign), for a `long` whose maximum is `longMax`. */
  function Strtol(s: seq<char>, longMax: nat): (r: Conversion)
    ensures 0 <= r.value <= longMax
    ensures r.rangeError <==> Decimal(LeadingDigits(s)) > longMax
    ensures !r.rangeError ==> r.value == Decimal(LeadingDigits(s))
    ensures r.rangeError ==> r.value == longMax
  {
    var v := Decimal(LeadingDigits(s));
    if v > longMax then Conversion(longMax, true) else Conversion(v, false)
  }
}
