/**
 * Decimal text for integers: QString::number (rendering) and QString::toLongLong /
 * QString::toInt (parsing), with the fixed widths of qint64 and int.
 */
module Decimal {
  import opened Wrappers
  import opened Text

  const MinInt64: int := -0x8000_0000_0000_0000
  const MaxInt64: int := 0x7FFF_FFFF_FFFF_FFFF
  const MinInt32: int := -0x8000_0000
  const MaxInt32: int := 0x7FFF_FFFF

  type Int64 = n: int | MinInt64 <= n <= MaxInt64
  type Int32 = n: int | MinInt32 <= n <= MaxInt32

  predicate IsDigit(c: char) {
    '0' <= c <= '9'
  }

  /** Every character is an ASCII digit (checked from the last one back). */
  predicate AllDigits(s: string) {
    s == [] || (AllDigits(s[..|s| - 1]) && IsDigit(s[|s| - 1]))
  }

  /** Each character of an all-digit string is a digit. */
  lemma {:induction false} AllDigitsAt(s: string, i: int)
    requires AllDigits(s) && 0 <= i < |s|
    ensures IsDigit(s[i])
    decreases |s|
  {
    if i < |s| - 1 {
      AllDigitsAt(s[..|s| - 1], i);
    }
  }

  function DigitValue(c: char): (d: nat)
    requires IsDigit(c)
    ensures d < 10
  {
    c as int - '0' as int
  }

  function DigitChar(d: nat): (c: char)
    requires d < 10
    ensures IsDigit(c) && DigitValue(c) == d
  {
    (d + '0' as int) as char
  }

  /** The digits of `n` in base ten, most significant first, without leading zeros. */
  function NatToDigits(n: nat): (s: string)
    ensures s != [] && AllDigits(s)
    ensures |s| > 1 ==> s[0] != '0'
    decreases n
  {
    if n < 10 then
      assert [DigitChar(n)][..0] == [];
      [DigitChar(n)]
    else
      var front := NatToDigits(n / 10);
      var s := front + [DigitChar(n % 10)];
      assert s[..|s| - 1] == front;
      s
  }

  /** The value of a string of decimal digits, most significant first. */
  function DigitsValue(s: string): nat
    requires AllDigits(s)
  {
    if s == [] then 0 else DigitsValue(s[..|s| - 1]) * 10 + DigitValue(s[|s| - 1])
  }

  /** Reading back the digits of `n` gives `n`. */
  lemma {:induction false} NatDigitsRoundTrip(n: nat)
    ensures DigitsValue(NatToDigits(n)) == n
    decreases n
  {
    if n >= 10 {
      var s := NatToDigits(n);
      assert s[..|s| - 1] == NatToDigits(n / 10);
      NatDigitsRoundTrip(n / 10);
    }
  }

  /** QString::number for an integer: an optional '-' followed by canonical digits. */
  function IntToDecimal(n: int): (s: string)
    ensures s != [] && !IsSpace(s[0]) && !IsSpace(s[|s| - 1])
    ensures (s[0] == '-') <==> n < 0
    ensures s[0] == '-' || IsDigit(s[0])
    ensures s[0] == '-' ==> |s| >= 2 && AllDigits(s[1..])
    ensures s[0] != '-' ==> AllDigits(s)
  {
    if n < 0 then
      var d := NatToDigits(-n);
      var s := "-" + d;
      assert s[1..] == d && s[|s| - 1] == d[|d| - 1];
      AllDigitsAt(d, |d| - 1);
      AllDigitsAt(d, 0);
      s
    else
      var d := NatToDigits(n);
      AllDigitsAt(d, |d| - 1);
      AllDigitsAt(d, 0);
      d
  }

  /** The value of a non-empty run of digits; None for anything else. */
  function DigitsNumber(d: string): Option<nat> {
    if d != [] && AllDigits(d) then Some(DigitsValue(d)) else None
  }

  /** A trimmed number: an optional '+' or '-' sign, then a run of digits. */
  function SignedNumber(t: string): Option<int> {
    if t != [] && (t[0] == '-' || t[0] == '+') then
      match DigitsNumber(t[1..])
      case Some(m) => Some(if t[0] == '-' then 0 - m else m)
      case None => None
    else
      match DigitsNumber(t)
      case Some(m) => Some(m)
      case None => None
  }

  /**
   * The integer a string denotes, as Qt's C-locale parser reads it: surrounding
   * whitespace ignored, an optional '+' or '-' sign, then at least one ASCII digit
   * and nothing else. No bound on the value.
   */
  function DecimalValue(s: string): (r: Option<int>)
    ensures r.Some? ==> Trim(s) != [] && (Trim(s)[0] == '+' || Trim(s)[0] == '-' || IsDigit(Trim(s)[0]))
    ensures r.Some? && r.value < 0 ==> Trim(s)[0] == '-'
    ensures r.Some? && Trim(s)[0] == '-' ==> r.value <= 0
  {
    var t := Trim(s);
    // Both branches give the same value: the first only brings in, for the first
    // ensures, that an all-digit text starts with a digit.
    if t != [] && AllDigits(t) then
      AllDigitsAt(t, 0);
      SignedNumber(t)
    else
      SignedNumber(t)
  }

  /** QString::toLongLong(&ok): the value, or None where `ok` would be false. */
  function ParseInt64(s: string): (r: Option<Int64>)
    ensures r.Some? <==> DecimalValue(s).Some? && MinInt64 <= DecimalValue(s).value <= MaxInt64
    ensures r.Some? ==> r.value == DecimalValue(s).value
  {
    match DecimalValue(s)
    case Some(v) => if MinInt64 <= v <= MaxInt64 then Some(v) else None
    case None => None
  }

  /** QString::toInt(&ok): the value, or None where `ok` would be false. */
  function ParseInt32(s: string): (r: Option<Int32>)
    ensures r.Some? <==> DecimalValue(s).Some? && MinInt32 <= DecimalValue(s).value <= MaxInt32
    ensures r.Some? ==> r.value == DecimalValue(s).value
  {
    match DecimalValue(s)
    case Some(v) => if MinInt32 <= v <= MaxInt32 then Some(v) else None
    case None => None
  }

  /** Parsing the rendering of any integer gives that integer back. */
  lemma DecimalRoundTrip(n: int)
    ensures DecimalValue(IntToDecimal(n)) == Some(n)
  {
    RenderingIsTrimmed(n);
    SignedRoundTrip(n);
  }

  /** A rendering has no surrounding whitespace to trim. */
  lemma RenderingIsTrimmed(n: int)
    ensures Trim(IntToDecimal(n)) == IntToDecimal(n)
  {
    var s := IntToDecimal(n);
    assert !IsSpace(s[0]) && !IsSpace(s[|s| - 1]);
    TrimKeeps(s);
  }

  /** The rendering of `n`, read as a signed number without trimming, is `n`. */
  lemma SignedRoundTrip(n: int)
    ensures SignedNumber(IntToDecimal(n)) == Some(n)
  {
    var s := IntToDecimal(n);
    if n < 0 {
      assert s[1..] == NatToDigits(-n);
      DigitsRoundTrip(-n);
    } else {
      AllDigitsAt(s, 0);
      DigitsRoundTrip(n);
    }
  }

  /** The digits of `m` read back as a run of digits give `m`. */
  lemma DigitsRoundTrip(m: nat)
    ensures DigitsNumber(NatToDigits(m)) == Some(m)
  {
    NatDigitsRoundTrip(m);
  }

  /** Every qint64 survives QString::number followed by QString::toLongLong. */
  lemma Int64RoundTrip(n: Int64)
    ensures ParseInt64(IntToDecimal(n)) == Some(n)
  {
    DecimalRoundTrip(n);
  }

  /** A rendering is never the text of a different integer. */
  lemma IntToDecimalInjective(m: int, n: int)
    requires IntToDecimal(m) == IntToDecimal(n)
    ensures m == n
  {
    DecimalRoundTrip(m);
    DecimalRoundTrip(n);
  }
}
