/** Decimal text, as `str.isdigit`, `int(...)` and the `:02d` format use it. */
module Digits {

  predicate IsDigit(c: char) {
    '0' <= c <= '9'
  }

  /** `str.isdigit()`: the empty string is not a number. */
  predicate AllDigits(s: string) {
    s != "" && forall i :: 0 <= i < |s| ==> IsDigit(s[i])
  }

  function DigitChar(d: nat): char
    requires d < 10
  {
    ('0' as int + d) as char
  }

  function Decimal(n: nat): string {
    if n < 10 then [DigitChar(n)] else Decimal(n / 10) + [DigitChar(n % 10)]
  }

  /** The `:02d` format: at least two digits, padded on the left. */
  function Pad2(n: nat): string {
    if n < 10 then "0" + Decimal(n) else Decimal(n)
  }

  function Number(s: string): nat
    requires AllDigits(s)
  {
    var last := s[|s| - 1] as int - '0' as int;
    if |s| == 1 then last else 10 * Number(s[..|s| - 1]) + last
  }

  lemma {:induction false} DecimalIsDigits(n: nat)
    ensures AllDigits(Decimal(n))
  {
    if n >= 10 {
      DecimalIsDigits(n / 10);
    }
  }

  /** Reading back the decimal text of a number gives the number. */
  lemma {:induction false} NumberOfDecimal(n: nat)
    ensures AllDigits(Decimal(n)) && Number(Decimal(n)) == n
  {
    DecimalIsDigits(n);
    if n >= 10 {
      NumberOfDecimal(n / 10);
      assert Decimal(n)[..|Decimal(n)| - 1] == Decimal(n / 10);
    }
  }

  lemma NumberOfPad2(n: nat)
    ensures AllDigits(Pad2(n)) && Number(Pad2(n)) == n
  {
    NumberOfDecimal(n);
    if n < 10 {
      assert Pad2(n)[..1] == "0";
      assert Number("0") == 0;
    }
  }

  /** The digits by name: one for each number below ten, and the last digit
      stands for the remainder. */
  lemma DecimalDigits(n: nat)
    ensures n < 10 ==> Decimal(n) == ["0123456789"[n]]
    ensures n >= 10 ==> Decimal(n) == Decimal(n / 10) + ["0123456789"[n % 10]]
  {
  }

  lemma Pad2Digits(n: nat)
    ensures n < 100 ==> Pad2(n) == ["0123456789"[n / 10], "0123456789"[n % 10]]
    ensures n >= 100 ==> Pad2(n) == Decimal(n)
  {
    if 10 <= n < 100 {
      DecimalDigits(n);
      DecimalDigits(n / 10);
    }
  }

  lemma DecimalInjective(m: nat, n: nat)
    requires Decimal(m) == Decimal(n)
    ensures m == n
  {
    NumberOfDecimal(m);
    NumberOfDecimal(n);
  }
}
