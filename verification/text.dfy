/** Text helpers: ASCII lower-casing (Python's `str.lower` on ASCII input)
    and decimal integer literals (the subset of Python's `int(text)` used for
    numeric prompts). */
module Text {

  /** Lower-cases one ASCII letter; every other character is returned as is. */
  function LowerChar(c: char): (d: char)
    ensures 'A' <= c <= 'Z' ==> 'a' <= d <= 'z' && d as int - c as int == 32
    ensures !('A' <= c <= 'Z') ==> d == c
  {
    if 'A' <= c <= 'Z' then (c as int + 32) as char else c
  }

  /** Lower-cases a string character by character. */
  function Lower(s: string): (r: string)
    ensures |r| == |s|
    ensures forall i :: 0 <= i < |s| ==> r[i] == LowerChar(s[i])
    ensures forall i :: 0 <= i < |r| ==> !('A' <= r[i] <= 'Z')
  {
    seq(|s|, i requires 0 <= i < |s| => LowerChar(s[i]))
  }

  predicate IsDigit(c: char) {
    '0' <= c <= '9'
  }

  /** A non-empty run of decimal digits. */
  predicate IsDigits(s: string) {
    |s| > 0 && forall i :: 0 <= i < |s| ==> IsDigit(s[i])
  }

  /** An optionally signed decimal literal such as "72", "+72" or "-3". */
  predicate IsIntLiteral(s: string) {
    |s| > 0 && if s[0] == '-' || s[0] == '+' then IsDigits(s[1..]) else IsDigits(s)
  }

  /** The value of a run of decimal digits, most significant digit first. */
  function DigitsValue(s: string): (n: nat)
    requires forall i :: 0 <= i < |s| ==> IsDigit(s[i])
    decreases |s|
  {
    if s == [] then 0
    else
      assert IsDigit(s[|s| - 1]);
      DigitsValue(s[..|s| - 1]) * 10 + (s[|s| - 1] as int - '0' as int)
  }

  /** The integer a decimal literal denotes. */
  function ParseInt(s: string): (n: int)
    requires IsIntLiteral(s)
    ensures s[0] == '-' ==> n <= 0 && n == -(DigitsValue(s[1..]) as int)
    ensures s[0] != '-' ==> n >= 0
    ensures IsDigits(s) ==> n == DigitsValue(s)
    ensures s[0] == '+' ==> n == DigitsValue(s[1..])
  {
    if s[0] == '-' then -(DigitsValue(s[1..]) as int)
    else if s[0] == '+' then DigitsValue(s[1..])
    else DigitsValue(s)
  }

  function DigitChar(d: nat): (c: char)
    requires d < 10
    ensures IsDigit(c) && c as int - '0' as int == d
  {
    ('0' as int + d) as char
  }

  /** The shortest decimal spelling of a natural number. */
  function ShowNat(n: nat): (s: string)
    decreases n
  {
    if n < 10 then [DigitChar(n)] else ShowNat(n / 10) + [DigitChar(n % 10)]
  }

  /** The decimal spelling of an integer, with a leading '-' when negative. */
  function ShowInt(n: int): string {
    if n < 0 then "-" + ShowNat(-n) else ShowNat(n)
  }

  /** Reading back the spelling of a natural number gives the number. */
  lemma {:induction false} ShowNatRoundTrip(n: nat)
    ensures IsDigits(ShowNat(n))
    ensures DigitsValue(ShowNat(n)) == n
    decreases n
  {
    if n >= 10 {
      ShowNatRoundTrip(n / 10);
      var s := ShowNat(n);
      assert s[..|s| - 1] == ShowNat(n / 10);
    }
  }

  /** Every integer's spelling is a literal, and parsing it gives the integer back. */
  lemma ShowIntRoundTrip(n: int)
    ensures IsIntLiteral(ShowInt(n))
    ensures ParseInt(ShowInt(n)) == n
  {
    if n < 0 {
      ShowNatRoundTrip(-n);
      assert ShowInt(n)[1..] == ShowNat(-n);
    } else {
      ShowNatRoundTrip(n);
    }
  }
}
