/** Decimal text of integers. */
module Decimals {
  function Digit(n: nat): char
    requires n < 10
  {
    "0123456789"[n]
  }

  function DigitValue(c: char): int {
    c as int - '0' as int
  }

  function Decimal(n: nat): (s: string)
    ensures s != [] && forall i :: 0 <= i < |s| ==> 0 <= DigitValue(s[i]) < 10
  {
    if n < 10 then [Digit(n)] else Decimal(n / 10) + [Digit(n % 10)]
  }

  function Value(s: string): int {
    if s == [] then 0 else 10 * Value(s[..|s| - 1]) + DigitValue(s[|s| - 1])
  }

  lemma {:induction false} DecimalValue(n: nat)
    ensures Value(Decimal(n)) == n
  {
    if n < 10 {
      assert Decimal(n)[..0] == [];
    } else {
      DecimalValue(n / 10);
      assert Decimal(n)[..|Decimal(n)| - 1] == Decimal(n / 10);
    }
  }

  /** No leading zeros. */
  lemma {:induction false} DecimalLeads(n: nat)
    ensures n > 0 ==> Decimal(n)[0] != '0'
    ensures n == 0 ==> Decimal(n) == "0"
  {
    if n < 10 {
    } else {
      DecimalLeads(n / 10);
    }
  }

  function IntText(n: int): (s: string)
    ensures s != []
  {
    if n < 0 then "-" + Decimal(-n) else Decimal(n)
  }

  /** A negative number is a minus sign and its absolute value in decimal; the text determines the number. */
  lemma IntTextMeans(n: int)
    ensures n < 0 <==> IntText(n)[0] == '-'
    ensures Value(if n < 0 then IntText(n)[1..] else IntText(n)) == if n < 0 then -n else n
    ensures n != 0 ==> IntText(n)[if n < 0 then 1 else 0] != '0'
    ensures n == 0 ==> IntText(n) == "0"
  {
    var a := if n < 0 then -n else n;
    DecimalValue(a);
    DecimalLeads(a);
    assert 0 <= DigitValue(Decimal(a)[0]) < 10;
    if n < 0 {
      assert IntText(n)[1..] == Decimal(a);
      assert IntText(n)[1] == Decimal(a)[0];
    }
  }
}
