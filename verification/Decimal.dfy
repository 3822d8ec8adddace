/**
 * Decimal numerals for natural numbers: how the source prints an integer (line numbers,
 * event ids, hunk ranges) and how it reads one back.
 */
module Decimal {

  predicate IsDigit(c: char) {
    '0' <= c <= '9'
  }

  predicate AllDigits(s: string) {
    forall i :: 0 <= i < |s| ==> IsDigit(s[i])
  }

  function DigitValue(c: char): (d: nat)
    requires IsDigit(c)
  {
    c as int - '0' as int
  }

  function DigitChar(d: nat): (c: char)
    requires d < 10
    ensures IsDigit(c) && DigitValue(c) == d
  {
    ('0' as int + d) as char
  }

  function Render(n: nat): (s: string)
    ensures s != [] && AllDigits(s)
  {
    if n < 10 then [DigitChar(n)] else Render(n / 10) + [DigitChar(n % 10)]
  }

  function Value(s: string): nat
    requires AllDigits(s)
  {
    if s == [] then 0 else Value(s[..|s| - 1]) * 10 + DigitValue(s[|s| - 1])
  }

  /** Reading a printed number gives the number back. */
  lemma {:induction false} ValueOfRender(n: nat)
    ensures Value(Render(n)) == n
  {
    var s := Render(n);
    if n < 10 {
      assert s[..0] == [];
    } else {
      ValueOfRender(n / 10);
      assert s[..|s| - 1] == Render(n / 10);
    }
  }

  function Power(k: nat): (p: nat)
    ensures p >= 1
  {
    if k == 0 then 1 else 10 * Power(k - 1)
  }

  /** A number below ten to the k prints in at most k digits. */
  lemma {:induction false} RenderLength(n: nat, k: nat)
    requires k >= 1 && n < Power(k)
    ensures |Render(n)| <= k
  {
    if n >= 10 {
      assert k >= 2;
      RenderLength(n / 10, k - 1);
    }
  }
}
