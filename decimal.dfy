/**
 * Text form of the numbers the page shows. Every number the rulers produce is a
 * whole number of tenths (`+(x).toFixed(1)`), and JavaScript's `String(v)` writes
 * such a number, within the moderate range the rulers and sliders produce, as its
 * integer part, followed by `.` and the tenths digit only when that digit is not
 * zero ("30", "30.5", "-0.5"). Exponent forms and magnitudes beyond double
 * precision are not modelled.
 */
module Decimal {
  import opened Wrappers

  /** A number held as a whole count of tenths: 60.5 is 605. The rulers only produce such numbers. */
  type Tenths = int

  predicate IsDigit(c: char) { '0' <= c <= '9' }

  function DigitChar(d: nat): (c: char)
    requires d < 10
    ensures IsDigit(c)
  {
    ('0' as int + d) as char
  }

  function DigitValue(c: char): (d: nat)
    requires IsDigit(c)
    ensures d < 10 && DigitChar(d) == c
  {
    c as int - '0' as int
  }

  /** Decimal digits of `n`, with no leading zeros. */
  function NatToString(n: nat): (s: string)
    decreases n
  {
    if n < 10 then [DigitChar(n)] else NatToString(n / 10) + [DigitChar(n % 10)]
  }

  /** `String(v)` for the number `v = t / 10` when `t >= 0`. */
  function FormatUnsigned(t: nat): (s: string)
  {
    NatToString(t / 10) + (if t % 10 == 0 then "" else ['.', DigitChar(t % 10)])
  }

  /** `String(v)` for the number `v = t / 10`, for the moderate values the page produces. */
  function FormatTenths(t: Tenths): (s: string)
  {
    if t < 0 then "-" + FormatUnsigned(-t) else FormatUnsigned(t)
  }

  /** A non-empty run of decimal digits, read as a natural number. */
  function ParseDigits(s: string): (r: Option<nat>)
    decreases |s|
  {
    if |s| == 0 || !IsDigit(s[|s| - 1]) then None
    else if |s| == 1 then Some(DigitValue(s[0]))
    else match ParseDigits(s[..|s| - 1])
      case None => None
      case Some(n) => Some(n * 10 + DigitValue(s[|s| - 1]))
  }

  /** Digits with at most one decimal place, read as tenths. */
  function ParseUnsigned(s: string): (r: Option<nat>)
  {
    if |s| >= 3 && s[|s| - 2] == '.' && IsDigit(s[|s| - 1]) then
      match ParseDigits(s[..|s| - 2])
      case None => None
      case Some(n) => Some(n * 10 + DigitValue(s[|s| - 1]))
    else
      match ParseDigits(s)
      case None => None
      case Some(n) => Some(n * 10)
  }

  /**
   * Reads back the text `FormatTenths` writes: an optional minus sign, digits, and
   * an optional single decimal place. This is what `parseFloat` does on such text.
   */
  function ParseTenths(s: string): (r: Option<Tenths>)
  {
    if |s| > 0 && s[0] == '-' then
      match ParseUnsigned(s[1..])
      case None => None
      case Some(n) => Some(-(n as int))
    else
      match ParseUnsigned(s)
      case None => None
      case Some(n) => Some(n)
  }

  lemma {:induction false} NatToStringDigits(n: nat)
    ensures |NatToString(n)| >= 1
    ensures forall k :: 0 <= k < |NatToString(n)| ==> IsDigit(NatToString(n)[k])
    decreases n
  {
    if n >= 10 {
      NatToStringDigits(n / 10);
    }
  }

  lemma {:induction false} ParseNatToString(n: nat)
    ensures ParseDigits(NatToString(n)) == Some(n)
    decreases n
  {
    if n >= 10 {
      var s := NatToString(n);
      NatToStringDigits(n / 10);
      ParseNatToString(n / 10);
      assert s[..|s| - 1] == NatToString(n / 10);
      assert DigitValue(s[|s| - 1]) == n % 10;
    }
  }

  /** Reading the text of a number of tenths gives that number back. */
  lemma FormatParseRoundTrip(t: int)
    ensures ParseTenths(FormatTenths(t)) == Some(t)
  {
    var u: nat := if t < 0 then -t else t;
    var s := FormatUnsigned(u);
    var w := NatToString(u / 10);
    NatToStringDigits(u / 10);
    ParseNatToString(u / 10);
    if u % 10 == 0 {
      assert s == w;
      assert !(|s| >= 3 && s[|s| - 2] == '.');
      assert ParseUnsigned(s) == Some(u);
    } else {
      assert s[..|s| - 2] == w;
      assert ParseUnsigned(s) == Some(u);
    }
    if t < 0 {
      assert FormatTenths(t)[1..] == s;
    } else {
      assert FormatTenths(t) == s && IsDigit(s[0]);
    }
  }

  /** The text never ends in ".0", and has a decimal point only when the tenths digit is non-zero. */
  lemma FormatShape(t: int)
    ensures var s := FormatTenths(t); !(|s| >= 2 && s[|s| - 2..] == ".0")
    ensures t % 10 == 0 <==> '.' !in FormatTenths(t)
  {
    var u: nat := if t < 0 then -t else t;
    var w := NatToString(u / 10);
    NatToStringDigits(u / 10);
    var s := FormatTenths(t);
    assert t % 10 == 0 <==> u % 10 == 0;
    if u % 10 == 0 {
      assert s == (if t < 0 then "-" + w else w);
      assert IsDigit(s[|s| - 1]);
      assert forall k :: 0 <= k < |s| ==> s[k] != '.';
      if |s| >= 2 {
        assert s[|s| - 2..][0] == s[|s| - 2] != '.';
      }
    } else {
      assert s[|s| - 1] == DigitChar(u % 10) && DigitChar(u % 10) != '0';
      assert s[|s| - 2] == '.';
    }
  }
}
