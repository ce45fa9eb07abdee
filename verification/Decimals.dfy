/** Numbers in decimal digits, written and read. */
module Decimals {
  function DigitChar(d: nat): char
    requires d < 10
  {
    "0123456789"[d]
  }

  /** `n.to_string()`. */
  function Decimal(n: nat): (s: string)
    ensures s != ""
  {
    if n < 10 then [DigitChar(n)] else Decimal(n / 10) + [DigitChar(n % 10)]
  }

  predicate IsDigit(c: char) {
    '0' <= c <= '9'
  }

  predicate Digits(s: string) {
    s != "" && forall i | 0 <= i < |s| :: IsDigit(s[i])
  }

  function DigitsValue(s: string): nat {
    if s == "" || !IsDigit(s[|s| - 1]) then 0 else DigitsValue(s[..|s| - 1]) * 10 + (s[|s| - 1] as int - '0' as int)
  }

  /** Reading the digits gives the number, and there is no leading zero. */
  lemma {:induction false} DecimalDigits(n: nat)
    ensures Digits(Decimal(n)) && DigitsValue(Decimal(n)) == n && (Decimal(n)[0] == '0' ==> n == 0) && (n < 10 ==> |Decimal(n)| == 1)
  {
    if n >= 10 {
      DecimalDigits(n / 10);
      var s := Decimal(n);
      assert s[..|s| - 1] == Decimal(n / 10);
    }
  }

  lemma {:induction false} DecimalInjective(a: nat, b: nat)
    requires Decimal(a) == Decimal(b)
    ensures a == b
  {
    DecimalDigits(a);
    DecimalDigits(b);
  }
}
