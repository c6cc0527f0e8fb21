/** Decimal numerals: how session numbers become directory names and table keys, and back. */
module Decimal {

  predicate IsDigit(c: char) {
    '0' <= c <= '9'
  }

  predicate AllDigits(s: string) {
    forall i :: 0 <= i < |s| ==> IsDigit(s[i])
  }

  function Digit(d: nat): (c: char)
    requires d < 10
    ensures IsDigit(c) && DigitValue(c) == d
  {
    '0' + d as char
  }

  function DigitValue(c: char): (d: nat)
    requires IsDigit(c)
    ensures d < 10
  {
    (c - '0') as nat
  }

  /** The numeral of a non-negative number, as formatting or a lexical cast to a string prints it. */
  function Dec(n: nat): (s: string)
    ensures s != "" && AllDigits(s)
  {
    if n < 10 then [Digit(n)] else Dec(n / 10) + [Digit(n % 10)]
  }

  /** The number a string of digits denotes, as a lexical cast to an integer reads it. */
  function Val(s: string): nat
    requires AllDigits(s)
  {
    if s == "" then 0 else 10 * Val(s[..|s| - 1]) + DigitValue(s[|s| - 1])
  }

  /** No leading zero, except for the numeral "0" itself. */
  predicate Canonical(s: string) {
    s != "" && AllDigits(s) && (|s| > 1 ==> s[0] != '0')
  }

  lemma {:induction false} DecIsCanonical(n: nat)
    ensures Canonical(Dec(n)) && Val(Dec(n)) == n
    ensures n > 0 ==> Dec(n)[0] != '0'
  {
    if n < 10 {
      assert Dec(n)[..0] == "";
      assert DigitValue(Dec(n)[0]) == n;
    } else {
      DecIsCanonical(n / 10);
      assert Dec(n)[..|Dec(n)| - 1] == Dec(n / 10);
    }
  }

  lemma DecInjective(m: nat, n: nat)
    requires Dec(m) == Dec(n)
    ensures m == n
  {
    DecIsCanonical(m);
    DecIsCanonical(n);
  }

  lemma {:induction false} CanonicalIsDec(s: string)
    requires Canonical(s)
    ensures Dec(Val(s)) == s
    ensures s[0] != '0' ==> Val(s) > 0
  {
    var front, last := s[..|s| - 1], s[|s| - 1];
    assert s == front + [last];
    assert Digit(DigitValue(last)) == last;
    if |s| == 1 {
      assert front == "";
      assert Val(front) == 0;
    } else {
      CanonicalIsDec(front);
      assert Val(s) / 10 == Val(front) && Val(s) % 10 == DigitValue(last);
    }
  }

  /** Printing what was read gives the same digits back exactly when they had no leading zero. */
  lemma DecOfValIff(s: string)
    requires AllDigits(s) && s != ""
    ensures Dec(Val(s)) == s <==> Canonical(s)
  {
    if Canonical(s) {
      CanonicalIsDec(s);
    } else {
      DecIsCanonical(Val(s));
    }
  }
}
