/**
 * Decimal rendering and digit-string values: Python's `str(n)` on integers
 * (used by count's message and by the integer round trip) and `int(ds, base)`
 * on the digit strings the integer lexers collect.
 */
module Numerals {

  /** The character of digit d. */
  function DigitChar(d: nat): (c: char)
    requires d < 10
    ensures '0' <= c <= '9' && c as int - '0' as int == d
  {
    ('0' as int + d) as char
  }

  /** The lower-case hexadecimal character of digit d, as `\\x` escapes print it. */
  function HexChar(d: nat): (c: char)
    requires d < 16
    ensures d < 10 ==> c == DigitChar(d)
    ensures d >= 10 ==> 'a' <= c <= 'f' && c as int - 'a' as int + 10 == d
  {
    if d < 10 then DigitChar(d) else ('a' as int + d - 10) as char
  }

  /** `str(n)` for a natural number: no leading zero, "0" for zero. */
  function NatToString(n: nat): (r: string)
    ensures |r| > 0
    decreases n
  {
    if n < 10 then [DigitChar(n)] else NatToString(n / 10) + [DigitChar(n % 10)]
  }

  /** `str(i)` for an integer: a minus sign in front of negative numbers. */
  function IntToString(i: int): string {
    if i < 0 then "-" + NatToString(-i) else NatToString(i)
  }

  predicate IsDecimalChar(c: char) {
    '0' <= c <= '9'
  }

  /** An ASCII hexadecimal digit: 0-9, a-f or A-F. */
  predicate IsHexChar(c: char) {
    IsDecimalChar(c) || 'a' <= c <= 'f' || 'A' <= c <= 'F'
  }

  /** The value `int()` gives a single digit: 0-9, and a-f in either case as 10-15. */
  function DigitValue(c: char): (v: nat)
    ensures IsDecimalChar(c) ==> v == c as int - '0' as int
    ensures 'a' <= c <= 'f' ==> v == c as int - 'a' as int + 10
    ensures 'A' <= c <= 'F' ==> v == c as int - 'A' as int + 10
  {
    if IsDecimalChar(c) then c as int - '0' as int
    else if 'a' <= c <= 'f' then c as int - 'a' as int + 10
    else if 'A' <= c <= 'F' then c as int - 'A' as int + 10
    else 0
  }

  /** `int(ds, base)` for a digit string: the most significant digit first. */
  function DigitsValue(ds: string, base: nat): nat
    decreases |ds|
  {
    if ds == [] then 0 else DigitsValue(ds[..|ds| - 1], base) * base + DigitValue(ds[|ds| - 1])
  }

  /** Every character `str(n)` produces is a decimal digit, and only zero starts with '0'. */
  lemma {:induction false} NatToStringDigits(n: nat)
    ensures forall i :: 0 <= i < |NatToString(n)| ==> IsDecimalChar(NatToString(n)[i])
    ensures NatToString(n)[0] == '0' <==> n == 0
    decreases n
  {
    if n >= 10 {
      NatToStringDigits(n / 10);
      assert NatToString(n)[0] == NatToString(n / 10)[0];
    }
  }

  /** Reading `str(n)` back as a decimal number gives n. */
  lemma {:induction false} NatToStringRoundTrip(n: nat)
    ensures DigitsValue(NatToString(n), 10) == n
    decreases n
  {
    var r := NatToString(n);
    if n < 10 {
      assert r[..0] == [];
    } else {
      NatToStringRoundTrip(n / 10);
      assert r[..|r| - 1] == NatToString(n / 10);
    }
  }
}
