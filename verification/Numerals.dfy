/** Printing natural numbers in base ten or sixteen, zero padding, and reading back. */
module Numerals {

  type Base = b: nat | b == 10 || b == 16 witness 10

  function Quotient(n: nat, base: Base): nat {
    if base == 10 then n / 10 else n / 16
  }

  function Remainder(n: nat, base: Base): (r: nat)
    ensures r < base
  {
    if base == 10 then n % 10 else n % 16
  }

  function Times(n: nat, base: Base): nat {
    if base == 10 then 10 * n else 16 * n
  }

  function Digit(d: nat): (c: char)
    requires d < 16
    ensures DigitValue(c) == d
  {
    if d < 10 then (d + '0' as int) as char else (d - 10 + 'A' as int) as char
  }

  /** The value of a digit; 16 for any other character. */
  function DigitValue(c: char): nat {
    if '0' <= c <= '9' then c as int - '0' as int
    else if 'A' <= c <= 'F' then c as int - 'A' as int + 10
    else 16
  }

  predicate IsDigit(c: char, base: Base) {
    DigitValue(c) < base
  }

  predicate AllDigits(s: string, base: Base) {
    forall c <- s :: IsDigit(c, base)
  }

  function Numeral(n: nat, base: Base): (s: string)
    ensures |s| >= 1 && AllDigits(s, base)
    decreases n
  {
    if n < base then [Digit(n)] else Numeral(Quotient(n, base), base) + [Digit(Remainder(n, base))]
  }

  function Value(s: string, base: Base): nat
    requires AllDigits(s, base)
  {
    if s == [] then 0 else Times(Value(s[..|s| - 1], base), base) + DigitValue(s[|s| - 1])
  }

  lemma ValueOfSnoc(s: string, c: char, base: Base)
    requires AllDigits(s, base) && IsDigit(c, base)
    ensures Value(s + [c], base) == Times(Value(s, base), base) + DigitValue(c)
  {
    assert (s + [c])[..|s|] == s;
  }

  lemma ValueOfTwoDigits(d: string, base: Base)
    requires |d| == 2 && AllDigits(d, base)
    ensures IsDigit(d[0], base) && IsDigit(d[1], base)
    ensures Value(d, base) == Times(DigitValue(d[0]), base) + DigitValue(d[1])
  {
    assert d == ([] + [d[0]]) + [d[1]];
    ValueOfSnoc([], d[0], base);
    ValueOfSnoc([] + [d[0]], d[1], base);
  }

  lemma DigitInjective(c: char, e: char)
    requires DigitValue(c) == DigitValue(e) < 16
    ensures c == e
  {
  }

  lemma {:induction false} ValueOfNumeral(n: nat, base: Base)
    ensures Value(Numeral(n, base), base) == n
  {
    if n >= base {
      ValueOfNumeral(Quotient(n, base), base);
      ValueOfSnoc(Numeral(Quotient(n, base), base), Digit(Remainder(n, base)), base);
    }
  }

  lemma NumeralInjective(m: nat, n: nat, base: Base)
    requires Numeral(m, base) == Numeral(n, base)
    ensures m == n
  {
    ValueOfNumeral(m, base);
    ValueOfNumeral(n, base);
  }

  function Pow(base: Base, k: nat): (r: nat)
    ensures r >= 1
  {
    if k == 0 then 1 else Times(Pow(base, k - 1), base)
  }

  /** A numeral has at most k digits exactly when its number is below base^k. */
  lemma {:induction false} NumeralFits(n: nat, base: Base, k: nat)
    requires k >= 1
    ensures |Numeral(n, base)| <= k <==> n < Pow(base, k)
  {
    if n < base {
      PowAtLeast(base, k);
    } else if k > 1 {
      NumeralFits(Quotient(n, base), base, k - 1);
    }
  }

  lemma {:induction false} PowAtLeast(base: Base, k: nat)
    requires k >= 1
    ensures Pow(base, k) >= base
  {
    if k > 1 {
      PowAtLeast(base, k - 1);
    }
  }

  /** Zero padding to a minimum width, as in the formats 02d and 04X. */
  function ZeroPad(s: string, width: nat): (r: string)
    ensures |r| == if |s| < width then width else |s|
    decreases width - |s|
  {
    if |s| < width then ZeroPad("0" + s, width) else s
  }

  lemma {:induction false} ValueOfLeadingZero(s: string, base: Base)
    requires AllDigits(s, base)
    ensures Value("0" + s, base) == Value(s, base)
  {
    if s == [] {
      assert ("0" + s)[..0] == [];
    } else {
      var front, last := s[..|s| - 1], s[|s| - 1];
      ValueOfLeadingZero(front, base);
      assert s == front + [last];
      assert "0" + s == ("0" + front) + [last];
      ValueOfSnoc("0" + front, last, base);
    }
  }

  lemma {:induction false} ValueOfZeroPad(s: string, width: nat, base: Base)
    requires AllDigits(s, base)
    ensures AllDigits(ZeroPad(s, width), base)
    ensures Value(ZeroPad(s, width), base) == Value(s, base)
    decreases width - |s|
  {
    if |s| < width {
      ValueOfLeadingZero(s, base);
      ValueOfZeroPad("0" + s, width, base);
    }
  }
}
