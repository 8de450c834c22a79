/** Decimal numerals as the fmt and strconv packages write and read them. */
module Decimal {

  function DigitChar(d: nat): char
    requires d < 10
  {
    ('0' as int + d) as char
  }

  predicate IsDigit(c: char) { '0' <= c <= '9' }

  function DigitValue(c: char): nat
    requires IsDigit(c)
  {
    c as int - '0' as int
  }

  predicate AllDigits(s: string) { forall i :: 0 <= i < |s| ==> IsDigit(s[i]) }

  function Itoa(n: nat): string {
    if n < 10 then [DigitChar(n)] else Itoa(n / 10) + [DigitChar(n % 10)]
  }

  function Value(s: string): nat
    requires AllDigits(s)
  {
    if s == "" then 0 else Value(s[..|s| - 1]) * 10 + DigitValue(s[|s| - 1])
  }

  /** Reading a printed number gives it back. */
  lemma {:induction false} ValueOfItoa(n: nat)
    ensures Itoa(n) != "" && AllDigits(Itoa(n)) && Value(Itoa(n)) == n
    decreases n
  {
    if n < 10 {
      assert Itoa(n)[..0] == "";
    } else {
      ValueOfItoa(n / 10);
      var front := Itoa(n / 10);
      assert Itoa(n)[..|front|] == front;
    }
  }

  lemma ItoaInjective(a: nat, b: nat)
    requires Itoa(a) == Itoa(b)
    ensures a == b
  {
    ValueOfItoa(a);
    ValueOfItoa(b);
  }
}
