/**
 * Decimal text as the timer sees it: `parseInt` on the integer strings a
 * numeric input field holds, and `String(n)` on the whole numbers the clock
 * face shows. Numbers are exact integers here.
 */
module Decimal {
  import opened Wrappers

  predicate IsDigit(c: char) {
    '0' <= c <= '9'
  }

  function DigitValue(c: char): (d: nat)
    requires IsDigit(c)
    ensures d < 10
  {
    c as int - '0' as int
  }

  function DigitChar(d: nat): (c: char)
    requires d < 10
    ensures IsDigit(c) && DigitValue(c) == d
  {
    ('0' as int + d) as char
  }

  /**
   * The value of a string of decimal digits, most significant digit first,
   * or `None` if some character is not a digit. The empty string reads as 0;
   * callers that need at least one digit check the length themselves.
   */
  function ParseDigits(s: string): Option<nat> {
    if s == [] then Some(0)
    else match ParseDigits(s[..|s| - 1])
      case None => None
      case Some(v) => if IsDigit(s[|s| - 1]) then Some(v * 10 + DigitValue(s[|s| - 1])) else None
  }

  /** A string of digits and nothing else. */
  predicate AllDigits(s: string) {
    ParseDigits(s).Some?
  }

  /** Leading zeros do not change the value of a digit string. */
  lemma {:induction false} LeadingZero(s: string)
    ensures ParseDigits("0" + s) == ParseDigits(s)
  {
    if s != [] {
      var t := "0" + s;
      assert t[..|t| - 1] == "0" + s[..|s| - 1];
      LeadingZero(s[..|s| - 1]);
    }
  }

  /** `String(n)` for a whole number: its shortest decimal rendering. */
  function NatToString(n: nat): (r: string)
    ensures |r| >= 1 && ParseDigits(r) == Some(n)
    ensures IsDigit(r[0]) && (r[0] == '0' ==> n == 0)
    ensures |r| == 1 <==> n < 10
    ensures n < 100 ==> |r| <= 2
  {
    if n < 10 then
      var r := [DigitChar(n)];
      assert r[..0] == [];
      r
    else
      var r := NatToString(n / 10) + [DigitChar(n % 10)];
      assert r[..|r| - 1] == NatToString(n / 10);
      r
  }

  /** The text of an integer as a numeric input field holds it: an optional minus sign, then digits. */
  predicate IsIntLiteral(s: string) {
    |s| >= 1 &&
    if s[0] == '-' then |s| >= 2 && AllDigits(s[1..]) else AllDigits(s)
  }

  /** `parseInt` on an integer literal. */
  function ParseInt(s: string): (v: int)
    requires IsIntLiteral(s)
    ensures v < 0 ==> s[0] == '-'
    ensures s[0] != '-' ==> v >= 0
  {
    if s[0] == '-' then -(ParseDigits(s[1..]).value as int) else ParseDigits(s).value
  }

  /** `String(i)` for an integer; `ParseInt` reads it back. */
  function IntToString(i: int): (r: string)
    ensures IsIntLiteral(r) && ParseInt(r) == i
    ensures i >= 0 ==> r == NatToString(i)
  {
    if i < 0 then
      var r := "-" + NatToString(-i);
      assert r[1..] == NatToString(-i);
      r
    else NatToString(i)
  }
}
