/**
  * Decimal integers as Go prints and parses them: `fmt`'s `%d` (the same as
  * `strconv.Itoa`) and `strconv.Atoi` on a 64-bit platform.
  */
module Decimal {
  import opened Wrappers

  const MinInt64: int := -0x8000_0000_0000_0000
  const MaxInt64: int := 0x7fff_ffff_ffff_ffff

  predicate IsDigit(c: char) {
    '0' <= c <= '9'
  }

  predicate AllDigits(s: string) {
    forall k :: 0 <= k < |s| ==> IsDigit(s[k])
  }

  function DigitChar(d: nat): (c: char)
    requires d < 10
    ensures IsDigit(c) && c as int - '0' as int == d
  {
    ('0' as int + d) as char
  }

  /** The digits of `n` without leading zeros ("0" for zero). */
  function NatToDigits(n: nat): (s: string)
    ensures |s| > 0 && AllDigits(s)
  {
    if n < 10 then [DigitChar(n)] else NatToDigits(n / 10) + [DigitChar(n % 10)]
  }

  /** `strconv.Itoa(n)`, which is also what `%d` prints. */
  function Itoa(n: int): (s: string)
    ensures |s| > 0 && IsDigit(s[|s| - 1])
    ensures forall k :: 0 <= k < |s| ==> IsDigit(s[k]) || s[k] == '-'
  {
    if n < 0 then "-" + NatToDigits(-n) else NatToDigits(n)
  }

  /** The value of a string of decimal digits, most significant first. */
  function DigitsValue(s: string): nat
    requires AllDigits(s)
  {
    if |s| == 0 then 0
    else DigitsValue(s[..|s| - 1]) * 10 + (s[|s| - 1] as int - '0' as int)
  }

  /**
    * `strconv.Atoi(s)`: an optional sign and at least one decimal digit whose
    * value fits in 64 bits; anything else (no digits, another character, a
    * value out of range) is an error, `None` here.
    */
  function Atoi(s: string): Option<int> {
    var signed := |s| > 0 && (s[0] == '+' || s[0] == '-');
    var digits := if signed then s[1..] else s;
    if |digits| == 0 || !AllDigits(digits) then None
    else
      var n: int := DigitsValue(digits);
      var v := if signed && s[0] == '-' then -n else n;
      if MinInt64 <= v <= MaxInt64 then Some(v) else None
  }

  lemma {:induction false} DigitsRoundTrip(n: nat)
    ensures DigitsValue(NatToDigits(n)) == n
  {
    if n >= 10 {
      DigitsRoundTrip(n / 10);
      var s := NatToDigits(n / 10) + [DigitChar(n % 10)];
      assert s[..|s| - 1] == NatToDigits(n / 10);
    }
  }

  /** A minus sign and digits parse to the negated value of the digits, when it fits in 64 bits. */
  lemma AtoiNegative(d: string)
    requires |d| > 0 && AllDigits(d)
    ensures var v := -(DigitsValue(d) as int); Atoi("-" + d) == if MinInt64 <= v then Some(v) else None
  {
    var s := "-" + d;
    assert s[0] == '-' && s[1..] == d;
  }

  /** Digits alone parse to their value, when it fits in 64 bits. */
  lemma AtoiDigits(d: string)
    requires |d| > 0 && AllDigits(d)
    ensures Atoi(d) == if DigitsValue(d) <= MaxInt64 then Some(DigitsValue(d)) else None
  {
    assert IsDigit(d[0]);
  }

  /** Parsing what `%d` prints gives back the number, for every 64-bit integer. */
  lemma AtoiItoa(n: int)
    requires MinInt64 <= n <= MaxInt64
    ensures Atoi(Itoa(n)) == Some(n)
  {
    if n < 0 {
      var d := NatToDigits(-n);
      DigitsRoundTrip(-n);
      AtoiNegative(d);
      assert Itoa(n) == "-" + d;
    } else {
      var d := NatToDigits(n);
      DigitsRoundTrip(n);
      AtoiDigits(d);
      assert Itoa(n) == d;
    }
  }
}
