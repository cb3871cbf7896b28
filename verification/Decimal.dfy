/** Printing numbers in decimal and parsing unsigned integers. */
module Decimal {
  import opened Wrappers

  const U32_MAX: nat := 0xFFFF_FFFF
  const USIZE_MAX: nat := 0xFFFF_FFFF_FFFF_FFFF

  predicate IsDigit(c: char) {
    '0' <= c <= '9'
  }

  function DigitChar(d: nat): (c: char)
    requires d < 10
    ensures IsDigit(c) && c as int - '0' as int == d
  {
    (d + '0' as int) as char
  }

  /** Decimal digits of `n`, without leading zeros. */
  function Print(n: nat): (s: string)
    ensures s != "" && forall c :: c in s ==> IsDigit(c)
  {
    if n < 10 then [DigitChar(n)] else Print(n / 10) + [DigitChar(n % 10)]
  }

  function DigitsValue(s: string): nat
    requires forall c :: c in s ==> IsDigit(c)
  {
    if s == "" then 0 else
      assert IsDigit(s[|s| - 1]);
      DigitsValue(s[..|s| - 1]) * 10 + (s[|s| - 1] as int - '0' as int)
  }

  /** Accepts an optional plus sign and at least one digit; rejects values above `max`. */
  function Parse(s: string, max: nat): (r: Option<nat>)
    ensures r.Some? ==> r.value <= max
    ensures r.Some? ==> s != "" && (IsDigit(s[0]) || (s[0] == '+' && |s| > 1)) && forall c :: c in s[1..] ==> IsDigit(c)
  {
    var digits := if s != "" && s[0] == '+' then s[1..] else s;
    if digits == "" || exists c :: c in digits && !IsDigit(c) then None
    else
      var v := DigitsValue(digits);
      if v <= max then Some(v) else None
  }

  lemma {:induction false} DigitsValuePrint(n: nat)
    ensures DigitsValue(Print(n)) == n
  {
    if n >= 10 {
      DigitsValuePrint(n / 10);
      var s := Print(n);
      assert s[..|s| - 1] == Print(n / 10);
    }
  }

  lemma ParsePrint(n: nat, max: nat)
    requires n <= max
    ensures Parse(Print(n), max) == Some(n)
  {
    DigitsValuePrint(n);
    assert Print(n)[0] in Print(n);
  }

  /** A plus sign in front of a numeral does not count. */
  lemma PlusIsIgnored(digits: string, max: nat)
    requires digits != "" && digits[0] != '+'
    ensures Parse("+" + digits, max) == Parse(digits, max)
  {
    assert ("+" + digits)[1..] == digits;
  }
}
