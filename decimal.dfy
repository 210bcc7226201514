/**
 * Decimal text of integers: `std::stoi` on the well-formed inputs `-?[0-9]+`,
 * and the rendering `ostream << int` produces.
 */
module Decimal {
  import opened Wrappers

  /** `isdigit` in the C locale. */
  predicate IsDigit(c: char) { '0' <= c <= '9' }

  predicate AllDigits(s: string) { forall i :: 0 <= i < |s| ==> IsDigit(s[i]) }

  function DigitValue(c: char): nat
    requires IsDigit(c)
  {
    c as int - '0' as int
  }

  function DigitChar(d: nat): (c: char)
    requires d < 10
    ensures IsDigit(c) && DigitValue(c) == d
  {
    ('0' as int + d) as char
  }

  /** The value of a string of decimal digits, most significant first. */
  function DigitsValue(s: string): nat
    requires AllDigits(s)
    decreases |s|
  {
    if |s| == 0 then 0 else DigitsValue(s[..|s| - 1]) * 10 + DigitValue(s[|s| - 1])
  }

  /**
   * `std::stoi` on `-?[0-9]+`; every other string is reported as `None`, the
   * model's stand-in for the `std::invalid_argument` the parser throws.
   */
  function ParseInt(s: string): Option<int>
  {
    if |s| > 1 && s[0] == '-' && AllDigits(s[1..]) then Some(-(DigitsValue(s[1..]) as int))
    else if |s| > 0 && AllDigits(s) then Some(DigitsValue(s))
    else None
  }

  /** Decimal digits of `n` without leading zeros. */
  function NatToString(n: nat): (s: string)
    ensures |s| >= 1 && AllDigits(s)
    decreases n
  {
    if n < 10 then [DigitChar(n)] else NatToString(n / 10) + [DigitChar(n % 10)]
  }

  /** `ostream << n` for an `int`. */
  function IntToString(n: int): string
  {
    if n < 0 then "-" + NatToString(-n) else NatToString(n)
  }

  lemma {:induction false} NatToStringValue(n: nat)
    ensures DigitsValue(NatToString(n)) == n
    decreases n
  {
    if n >= 10 {
      NatToStringValue(n / 10);
      var s := NatToString(n);
      assert s[..|s| - 1] == NatToString(n / 10);
    }
  }

  /** Parsing the text `ostream` prints for an integer gives the integer back. */
  lemma ParseIntToString(n: int)
    ensures ParseInt(IntToString(n)) == Some(n)
  {
    var s := IntToString(n);
    if n < 0 {
      NatToStringValue(-n);
      assert s[1..] == NatToString(-n);
      assert s[0] == '-' && |s| > 1;
    } else {
      NatToStringValue(n);
      assert IsDigit(s[0]);
    }
  }

  /** The printed form of an integer holds only digits and a leading minus sign. */
  lemma IntToStringChars(n: int)
    ensures |IntToString(n)| >= 1
    ensures forall i :: 0 <= i < |IntToString(n)| ==> IsDigit(IntToString(n)[i]) || (i == 0 && IntToString(n)[i] == '-')
  {
  }

  /** `std::stoi("")` throws. */
  lemma ParseIntEmpty()
    ensures ParseInt("") == None
  {
  }
}
