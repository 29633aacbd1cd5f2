/** Decimal integers as the core writes them with fmt's %d and reads them
    with strconv.ParseInt(s, 10, 64). */
module Strconv {
  import opened Wrappers

  const MIN_INT64 := -0x8000_0000_0000_0000
  const MAX_INT64 := 0x7FFF_FFFF_FFFF_FFFF

  predicate IsDigit(c: char) {
    '0' <= c <= '9'
  }

  function DigitValue(c: char): nat
    requires IsDigit(c)
  {
    c as int - '0' as int
  }

  function DigitChar(d: nat): (c: char)
    requires d < 10
    ensures IsDigit(c) && DigitValue(c) == d
  {
    ('0' as int + d) as char
  }

  predicate AllDigits(s: string) {
    forall i :: 0 <= i < |s| ==> IsDigit(s[i])
  }

  /** The value of a string of decimal digits, most significant first. */
  function DigitsValue(s: string): nat
    requires AllDigits(s)
  {
    if s == [] then 0 else DigitsValue(s[..|s| - 1]) * 10 + DigitValue(s[|s| - 1])
  }

  /** The shortest decimal digits of a natural number. */
  function FormatNat(n: nat): (s: string)
    ensures |s| > 0 && AllDigits(s)
  {
    if n < 10 then [DigitChar(n)] else FormatNat(n / 10) + [DigitChar(n % 10)]
  }

  /** strconv.FormatInt(n, 10), and what %d prints for an integer. */
  function FormatInt(n: int): (s: string)
    ensures |s| > 0
    ensures n >= 0 ==> AllDigits(s)
    ensures n < 0 ==> s[0] == '-' && AllDigits(s[1..])
  {
    if n < 0 then "-" + FormatNat(-n) else FormatNat(n)
  }

  /** An optional sign and one or more decimal digits, and their value,
      however large; None for anything else. */
  function ParseDecimal(s: string): (r: Option<int>)
    ensures r.Some? ==> |s| > 0
  {
    if s == [] then None
    else
      var negative := s[0] == '-';
      var digits := if s[0] == '-' || s[0] == '+' then s[1..] else s;
      if digits == [] || !AllDigits(digits) then None
      else Some(if negative then 0 - DigitsValue(digits) as int else DigitsValue(digits) as int)
  }

  /** strconv.ParseInt(s, 10, 64): a decimal number that fits in 64 bits;
      anything else is an error (None). */
  function ParseInt(s: string): (r: Option<int>)
    ensures r.Some? ==> MIN_INT64 <= r.value <= MAX_INT64
    ensures r.Some? ==> ParseDecimal(s) == r
  {
    match ParseDecimal(s)
    case None => None
    case Some(v) => if MIN_INT64 <= v <= MAX_INT64 then Some(v) else None
  }

  /** The value strconv.ParseInt returns beside its error: 0 for a syntax
      error, the nearest 64-bit bound for a number out of range. */
  function ParseIntValue(s: string): (v: int)
    ensures MIN_INT64 <= v <= MAX_INT64
    ensures ParseInt(s).Some? ==> v == ParseInt(s).value
    ensures ParseDecimal(s).None? ==> v == 0
  {
    match ParseDecimal(s)
    case None => 0
    case Some(v) => if v < MIN_INT64 then MIN_INT64 else if v > MAX_INT64 then MAX_INT64 else v
  }

  lemma {:induction false} DigitsOfFormatNat(n: nat)
    ensures DigitsValue(FormatNat(n)) == n
  {
    var s := FormatNat(n);
    if n >= 10 {
      DigitsOfFormatNat(n / 10);
      assert s[..|s| - 1] == FormatNat(n / 10);
    }
  }

  /** Unsigned digits read back as their value. */
  lemma ParseDigits(d: string)
    requires |d| > 0 && AllDigits(d) && DigitsValue(d) <= MAX_INT64
    ensures ParseInt(d) == Some(DigitsValue(d) as int)
  {
    assert IsDigit(d[0]);
  }

  /** A minus sign and digits read back as the negated value. */
  lemma ParseNegative(d: string)
    requires |d| > 0 && AllDigits(d) && MIN_INT64 <= 0 - DigitsValue(d) as int
    ensures ParseInt("-" + d) == Some(0 - DigitsValue(d) as int)
  {
    var s := "-" + d;
    assert s[0] == '-' && s[1..] == d;
  }

  /** Every 64-bit integer %d prints is read back by ParseInt. */
  lemma ParseFormat(n: int)
    requires MIN_INT64 <= n <= MAX_INT64
    ensures ParseInt(FormatInt(n)) == Some(n)
  {
    if n < 0 {
      DigitsOfFormatNat(-n);
      ParseNegative(FormatNat(-n));
    } else {
      DigitsOfFormatNat(n);
      ParseDigits(FormatNat(n));
    }
  }

  /** A string that is not a number, such as the empty string, is an error. */
  lemma ParseRejectsNonNumbers(s: string)
    requires exists i :: 0 <= i < |s| && !IsDigit(s[i]) && !(i == 0 && (s[0] == '-' || s[0] == '+'))
    ensures ParseInt(s).None?
  {
    var i :| 0 <= i < |s| && !IsDigit(s[i]) && !(i == 0 && (s[0] == '-' || s[0] == '+'));
    if s[0] == '-' || s[0] == '+' {
      assert s[1..][i - 1] == s[i];
    }
  }
}
