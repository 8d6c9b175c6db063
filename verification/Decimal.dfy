/** Decimal notation of natural numbers. */
module Decimal {

  predicate IsDigit(c: char) { '0' <= c <= '9' }

  function Digit(n: nat): (c: char)
    requires n < 10
    ensures IsDigit(c)
  {
    (('0' as int) + n) as char
  }

  function DigitValue(c: char): nat {
    if IsDigit(c) then (c as int) - ('0' as int) else 0
  }

  function Dec(n: nat): (s: string)
    ensures s != [] && forall i :: 0 <= i < |s| ==> IsDigit(s[i])
  {
    if n < 10 then [Digit(n)] else Dec(n / 10) + [Digit(n % 10)]
  }

  function Val(s: string): nat {
    if s == [] then 0 else Val(s[..|s| - 1]) * 10 + DigitValue(s[|s| - 1])
  }

  lemma DigitRoundTrip(n: nat)
    requires n < 10
    ensures DigitValue(Digit(n)) == n
  {
  }

  /** Reading a decimal numeral back gives the number. */
  lemma {:induction false} ValDec(n: nat)
    ensures Val(Dec(n)) == n
  {
    if n < 10 {
      DigitRoundTrip(n);
      assert Dec(n)[..0] == [];
    } else {
      ValDec(n / 10);
      DigitRoundTrip(n % 10);
      assert Dec(n)[..|Dec(n)| - 1] == Dec(n / 10);
    }
  }

  lemma DecInjective(a: nat, b: nat)
    requires Dec(a) == Dec(b)
    ensures a == b
  {
    ValDec(a);
    ValDec(b);
  }
}
