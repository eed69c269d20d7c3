// Digit strings and the numbers they stand for.
module Decimal {

  predicate IsDigit(c: char) {
    '0' <= c <= '9'
  }

  predicate AllDigits(s: string) {
    forall i | 0 <= i < |s| :: IsDigit(s[i])
  }

  function Digit(c: char): (d: nat)
    requires IsDigit(c)
    ensures d < 10
  {
    (c - '0') as int
  }

  function Pow10(n: nat): (p: nat)
    ensures p > 0
  {
    if n == 0 then 1 else 10 * Pow10(n - 1)
  }

  // The value of a digit string, read from its most significant digit.
  function Val(s: string): nat
    requires AllDigits(s)
  {
    if s == "" then 0 else Digit(s[0]) * Pow10(|s| - 1) + Val(s[1..])
  }

  lemma ScaleGrows(d: nat, e: nat, p: nat)
    requires d < e
    ensures d * p + p <= e * p
  {
    assert (d + 1) * p <= e * p;
  }

  lemma ValHead(s: string)
    requires AllDigits(s) && s != ""
    ensures Val(s) == Digit(s[0]) * Pow10(|s| - 1) + Val(s[1..])
  {
  }

  lemma {:induction false} ValBound(s: string)
    requires AllDigits(s)
    ensures Val(s) < Pow10(|s|)
  {
    if s != "" {
      ValBound(s[1..]);
      ValHead(s);
      ScaleGrows(Digit(s[0]), 10, Pow10(|s| - 1));
    }
  }

  lemma {:induction false} PowGrows(m: nat, n: nat)
    requires m <= n
    ensures Pow10(m) <= Pow10(n)
  {
    if m < n {
      PowGrows(m, n - 1);
    }
  }

  // A number with more digits, the first of them not a zero, is larger.
  lemma LongerIsLarger(s: string, t: string)
    requires AllDigits(s) && AllDigits(t) && |s| < |t| && t[0] != '0'
    ensures Val(s) < Val(t)
  {
    ValBound(s);
    PowGrows(|s|, |t| - 1);
    ScaleGrows(0, Digit(t[0]), Pow10(|t| - 1));
    ValHead(t);
  }

  // The decimal digits of a number, as formatting writes them.
  function Digits(n: nat): (s: string)
    ensures s != "" && AllDigits(s)
  {
    if n < 10 then [Char(n)] else Digits(n / 10) + [Char(n % 10)]
  }

  function Char(d: nat): (c: char)
    requires d < 10
    ensures IsDigit(c) && Digit(c) == d
  {
    '0' + d as char
  }

  lemma {:induction false} ValLast(s: string, c: char)
    requires AllDigits(s) && IsDigit(c)
    ensures Val(s + [c]) == 10 * Val(s) + Digit(c)
  {
    if s == "" {
      assert s + [c] == [c] && [c][1..] == "";
    } else {
      assert (s + [c])[1..] == s[1..] + [c];
      ValLast(s[1..], c);
      assert Pow10(|s|) == 10 * Pow10(|s| - 1);
      assert Digit(s[0]) * Pow10(|s|) == 10 * (Digit(s[0]) * Pow10(|s| - 1));
    }
  }

  // Formatting a number and reading it back gives the number.
  lemma {:induction false} ValOfDigits(n: nat)
    ensures Val(Digits(n)) == n
  {
    if n < 10 {
      assert [Char(n)][1..] == "";
    } else {
      ValOfDigits(n / 10);
      ValLast(Digits(n / 10), Char(n % 10));
    }
  }
}
