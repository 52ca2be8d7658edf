/** Polynomials over GF(2) and division by x^16 + x^12 + x^5 + 1.

    A polynomial is its sequence of coefficients, lowest exponent first. Leading zeros
    are allowed, so polynomials are compared coefficient by coefficient, with At. */
module Gf2 {

  type Poly = seq<bool>

  /** The coefficient of x^e. */
  predicate At(a: Poly, e: int) {
    0 <= e < |a| && a[e]
  }

  ghost predicate Same(a: Poly, b: Poly) {
    forall e: int :: At(a, e) == At(b, e)
  }

  ghost predicate IsZero(a: Poly) {
    forall e: int :: !At(a, e)
  }

  function Add(a: Poly, b: Poly): (r: Poly)
    ensures forall e: int :: At(r, e) == (At(a, e) != At(b, e))
  {
    seq(if |a| < |b| then |b| else |a|, e => At(a, e) != At(b, e))
  }

  /** a multiplied by x^k. */
  function Shift(a: Poly, k: nat): (r: Poly)
    ensures forall e: int {:trigger At(r, e)} :: At(r, e) == At(a, e - k)
  {
    seq(k, _ => false) + a
  }

  /** The coefficient of x^e in q multiplied by x^16 + x^12 + x^5 + 1. */
  predicate ProductAt(q: Poly, e: int) {
    (At(q, e - 16) != At(q, e - 12)) != (At(q, e - 5) != At(q, e))
  }

  ghost predicate IsMultiple(a: Poly, q: Poly) {
    forall e: int :: At(a, e) == ProductAt(q, e)
  }

  ghost predicate Divisible(a: Poly) {
    exists q: Poly :: IsMultiple(a, q)
  }

  ghost predicate Congruent(a: Poly, b: Poly) {
    Divisible(Add(a, b))
  }

  ghost predicate DegreeBelow(a: Poly, n: int) {
    forall e: int :: At(a, e) ==> e < n
  }

  /** r is what is left of a after division by the generator. */
  ghost predicate IsRemainder(a: Poly, r: Poly) {
    DegreeBelow(r, 16) && Congruent(a, r)
  }

  lemma DivisibleAdds(a: Poly, b: Poly)
    requires Divisible(a) && Divisible(b)
    ensures Divisible(Add(a, b))
  {
    var p :| IsMultiple(a, p);
    var q :| IsMultiple(b, q);
    assert IsMultiple(Add(a, b), Add(p, q));
  }

  lemma DivisibleShifts(a: Poly, k: nat)
    requires Divisible(a)
    ensures Divisible(Shift(a, k))
  {
    var q :| IsMultiple(a, q);
    forall e: int ensures At(Shift(a, k), e) == ProductAt(Shift(q, k), e) {
      assert At(a, e - k) == ProductAt(q, e - k);
    }
    assert IsMultiple(Shift(a, k), Shift(q, k));
  }

  lemma DivisibleSame(a: Poly, b: Poly)
    requires Divisible(a) && Same(a, b)
    ensures Divisible(b)
  {
    var q :| IsMultiple(a, q);
    assert IsMultiple(b, q);
  }

  lemma SameIsCongruent(a: Poly, b: Poly)
    requires Same(a, b)
    ensures Congruent(a, b)
  {
    assert IsMultiple(Add(a, b), []);
  }

  lemma CongruentSymmetric(a: Poly, b: Poly)
    requires Congruent(a, b)
    ensures Congruent(b, a)
  {
    DivisibleSame(Add(a, b), Add(b, a));
  }

  lemma CongruentTransitive(a: Poly, b: Poly, c: Poly)
    requires Congruent(a, b) && Congruent(b, c)
    ensures Congruent(a, c)
  {
    DivisibleAdds(Add(a, b), Add(b, c));
    DivisibleSame(Add(Add(a, b), Add(b, c)), Add(a, c));
  }

  lemma CongruentAdds(a: Poly, b: Poly, c: Poly)
    requires Congruent(a, b)
    ensures Congruent(Add(a, c), Add(b, c))
  {
    DivisibleSame(Add(a, b), Add(Add(a, c), Add(b, c)));
  }

  lemma CongruentShifts(a: Poly, b: Poly, k: nat)
    requires Congruent(a, b)
    ensures Congruent(Shift(a, k), Shift(b, k))
  {
    DivisibleShifts(Add(a, b), k);
    DivisibleSame(Shift(Add(a, b), k), Add(Shift(a, k), Shift(b, k)));
  }

  lemma CongruentShiftsTwice(a: Poly, n: nat, b: Poly, k: nat, c: Poly)
    requires Congruent(Shift(a, n), b) && Congruent(Shift(b, k), c)
    ensures Congruent(Shift(a, n + k), c)
  {
    SameIsCongruent(Shift(a, n + k), Shift(Shift(a, n), k));
    CongruentShifts(Shift(a, n), b, k);
    CongruentTransitive(Shift(a, n + k), Shift(Shift(a, n), k), Shift(b, k));
    CongruentTransitive(Shift(a, n + k), Shift(b, k), c);
  }

  /** The exponent of the leading term. */
  lemma {:induction false} LeadingTerm(a: Poly) returns (m: nat)
    requires !IsZero(a)
    ensures At(a, m) && DegreeBelow(a, m + 1)
  {
    if |a| > 0 && a[|a| - 1] {
      m := |a| - 1;
    } else {
      var rest := a[..|a| - 1];
      assert forall e: int :: At(rest, e) == At(a, e);
      m := LeadingTerm(rest);
    }
  }

  /** The only multiple of the generator of degree below 16 is zero. */
  lemma SmallMultipleIsZero(a: Poly, q: Poly)
    requires IsMultiple(a, q) && DegreeBelow(a, 16)
    ensures IsZero(q) && IsZero(a)
  {
    if !IsZero(q) {
      var m := LeadingTerm(q);
      assert ProductAt(q, m + 16);
      assert false;
    }
  }

  lemma RemainderUnique(a: Poly, r: Poly, s: Poly)
    requires IsRemainder(a, r) && IsRemainder(a, s)
    ensures Same(r, s)
  {
    DivisibleSame(Add(a, r), Add(r, a));
    CongruentTransitive(r, a, s);
    var q :| IsMultiple(Add(r, s), q);
    SmallMultipleIsZero(Add(r, s), q);
    forall e: int ensures At(r, e) == At(s, e) {
      assert !At(Add(r, s), e);
    }
  }

  /** x does not divide the generator, so a power of x can be cancelled. */
  lemma {:induction false} CancelShift(a: Poly, k: nat)
    requires Divisible(Shift(a, k))
    ensures Divisible(a)
  {
    if k == 0 {
      DivisibleSame(Shift(a, 0), a);
    } else {
      var q :| IsMultiple(Shift(a, k), q);
      assert !At(Shift(a, k), 0);
      assert !At(q, 0);
      var half := if q == [] then [] else q[1..];
      assert forall e: int {:trigger At(half, e)} :: At(half, e) == (e >= 0 && At(q, e + 1));
      forall e: int ensures At(Shift(a, k - 1), e) == ProductAt(half, e) {
        assert At(Shift(a, k), e + 1) == ProductAt(q, e + 1);
      }
      assert IsMultiple(Shift(a, k - 1), half);
      CancelShift(a, k - 1);
    }
  }

  /** No nonzero polynomial confined to 16 consecutive exponents is divisible. */
  lemma BurstNotDivisible(a: Poly, k: nat)
    requires !IsZero(a)
    requires forall e: int :: At(a, e) ==> k <= e < k + 16
    ensures !Divisible(a)
  {
    if Divisible(a) {
      var low := a[if k <= |a| then k else |a|..];
      assert Same(a, Shift(low, k));
      DivisibleSame(a, Shift(low, k));
      CancelShift(low, k);
      var q :| IsMultiple(low, q);
      forall e: int | At(low, e) ensures e < 16 {
        assert At(a, e + k);
      }
      SmallMultipleIsZero(low, q);
      assert false;
    }
  }

  /** How many of the coefficients of x^0 .. x^(n-1) are one. */
  function Weight(a: Poly, n: int): nat
    decreases if n < 0 then 0 else n
  {
    if n <= 0 then 0 else Weight(a, n - 1) + if At(a, n - 1) then 1 else 0
  }

  lemma {:induction false} WeightBeyond(a: Poly, n: int)
    requires n >= |a|
    ensures Weight(a, n) == Weight(a, |a|)
    decreases n
  {
    if n > |a| {
      WeightBeyond(a, n - 1);
    }
  }

  lemma SameParity(w: int, v: int, x: int, y: int)
    requires w % 2 == v % 2 && x % 2 == y % 2
    ensures (w + x) % 2 == (v + y) % 2
  {
  }

  /** The weight of a product has the parity of the four shifted copies of q together. */
  lemma {:induction false} ProductParity(a: Poly, q: Poly, n: int)
    requires IsMultiple(a, q)
    ensures Weight(a, n) % 2 == (Weight(q, n - 16) + Weight(q, n - 12) + Weight(q, n - 5) + Weight(q, n)) % 2
    decreases if n < 0 then 0 else n
  {
    if n > 0 {
      ProductParity(a, q, n - 1);
      var w, x := Weight(a, n - 1), if At(a, n - 1) then 1 else 0;
      var w1, x1 := Weight(q, n - 17), if At(q, n - 17) then 1 else 0;
      var w2, x2 := Weight(q, n - 13), if At(q, n - 13) then 1 else 0;
      var w3, x3 := Weight(q, n - 6), if At(q, n - 6) then 1 else 0;
      var w4, x4 := Weight(q, n - 1), if At(q, n - 1) then 1 else 0;
      assert At(a, n - 1) == ProductAt(q, n - 1);
      assert x % 2 == (x1 + x2 + x3 + x4) % 2;
      SameParity(w, w1 + w2 + w3 + w4, x, x1 + x2 + x3 + x4);
    }
  }

  /** The generator has four terms, so its multiples have an even number of terms. */
  lemma DivisibleHasEvenWeight(a: Poly)
    requires Divisible(a)
    ensures Weight(a, |a|) % 2 == 0
  {
    var q :| IsMultiple(a, q);
    var n, w := |a| + |q| + 16, Weight(q, |q|);
    forall m: int | m >= |q| ensures Weight(q, m) == w {
      WeightBeyond(q, m);
    }
    ProductParity(a, q, n);
    WeightBeyond(a, n);
    assert Weight(a, |a|) % 2 == (w + w + w + w) % 2;
  }
}
