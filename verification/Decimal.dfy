/** Decimal numbers in text, as the streams and `boost::lexical_cast` of the source use them. */
module Decimal {
  import opened Wrappers

  predicate IsDigit(c: char) {
    '0' <= c <= '9'
  }

  predicate AllDigits(s: string) {
    forall i :: 0 <= i < |s| ==> IsDigit(s[i])
  }

  function DigitValue(c: char): nat
    requires IsDigit(c)
  {
    (c - '0') as nat
  }

  function DigitChar(d: nat): (c: char)
    requires d < 10
    ensures IsDigit(c) && DigitValue(c) == d
  {
    '0' + d as char
  }

  function Digits(n: nat): (s: string)
    ensures |s| > 0 && AllDigits(s)
  {
    if n < 10 then [DigitChar(n)] else Digits(n / 10) + [DigitChar(n % 10)]
  }

  function Value(s: string): nat
    requires AllDigits(s)
  {
    if s == [] then 0 else Value(s[..|s| - 1]) * 10 + DigitValue(s[|s| - 1])
  }

  lemma {:induction false} ValueOfDigits(n: nat)
    ensures Value(Digits(n)) == n
  {
    if n >= 10 {
      ValueOfDigits(n / 10);
      var s := Digits(n);
      assert s[..|s| - 1] == Digits(n / 10);
    } else {
      assert Digits(n)[..0] == [];
    }
  }

  /** The digits of a number with its last digit split off, and a number with one more digit. */
  lemma DecimalPlaces(n: nat, d: nat)
    requires n > 0 && d < 10
    ensures Digits(10 * n + d) == Digits(n) + [DigitChar(d)]
    ensures Digits(d) == [DigitChar(d)] && DigitChar(0) == '0' && DigitChar(9) == '9'
  {
  }

  lemma DecimalExample()
    ensures Digits(2147) == "2147" && Value("2147") == 2147
  {
    DecimalPlaces(214, 7);
    DecimalPlaces(21, 4);
    DecimalPlaces(2, 1);
    assert "2147" == "214" + "7";
    ValueOfDigits(2147);
  }

  /** `lexical_cast<uint32_t>` of a string of digits; `None` is `bad_lexical_cast`. */
  function CastUInt32(s: string): Option<nat> {
    if s != [] && AllDigits(s) && Value(s) < 0x1_0000_0000 then Some(Value(s)) else None
  }

  /** `lexical_cast<int32_t>`. */
  function CastInt32(s: string): Option<int> {
    if s == [] then None
    else if s[0] == '-' then
      if |s| > 1 && AllDigits(s[1..]) && Value(s[1..]) <= 0x8000_0000 then Some(0 - Value(s[1..]) as int) else None
    else
      var t := if s[0] == '+' then s[1..] else s;
      if t != [] && AllDigits(t) && Value(t) < 0x8000_0000 then Some(Value(t)) else None
  }

  lemma CastOfDigits(n: nat)
    ensures CastUInt32(Digits(n)) == if n < 0x1_0000_0000 then Some(n) else None
    ensures CastInt32(Digits(n)) == if n < 0x8000_0000 then Some(n) else None
  {
    ValueOfDigits(n);
    assert IsDigit(Digits(n)[0]);
  }
}
