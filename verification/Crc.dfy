/** The CRC-16 of the PIX payload: the bit-serial register of rentivo/pix.py, the polynomial
    remainder it computes, and the errors it detects. */
module Crc {
  import opened Gf2
  import opened Numerals
  import opened Wrappers

  // ---- The register as bits ----

  /** A bit position as a shift distance. */
  function Distance(i: int): bv4
    requires 0 <= i < 16
  {
    if i == 0 then 0 else Distance(i - 1) + 1
  }

  lemma DistanceTable(i: int)
    requires 0 <= i < 16
    ensures Distance(i) ==
      if i == 0 then 0 else if i == 1 then 1 else if i == 2 then 2 else if i == 3 then 3 else if i == 4 then 4
      else if i == 5 then 5 else if i == 6 then 6 else if i == 7 then 7 else if i == 8 then 8 else if i == 9 then 9
      else if i == 10 then 10 else if i == 11 then 11 else if i == 12 then 12 else if i == 13 then 13 else if i == 14 then 14
      else 15
  {
    assert Distance(0) == 0 && Distance(1) == 1 && Distance(2) == 2 && Distance(3) == 3;
    assert Distance(4) == 4 && Distance(5) == 5 && Distance(6) == 6 && Distance(7) == 7;
    assert Distance(8) == 8 && Distance(9) == 9 && Distance(10) == 10 && Distance(11) == 11;
    assert Distance(12) == 12 && Distance(13) == 13 && Distance(14) == 14 && Distance(15) == 15;
  }

  lemma DistanceBelow(i: int)
    requires 0 < i < 16
    ensures Distance(i) != 0 && Distance(i - 1) == Distance(i) - 1
    ensures Distance(i) == 5 <==> i == 5
    ensures Distance(i) == 12 <==> i == 12
  {
    DistanceTable(i);
  }

  lemma DistanceByte(i: int)
    requires 0 <= i < 16
    ensures Distance(i) < 8 <==> i < 8
    ensures i >= 8 ==> Distance(i - 8) == Distance(i) - 8
  {
    DistanceTable(i);
    if i >= 8 {
      DistanceTable(i - 8);
    }
  }

  predicate BitOf(r: bv16, k: bv4) {
    (r >> k) & 1 == 1
  }

  /** The register as a polynomial of degree below 16. */
  function RegisterPoly(r: bv16): Poly {
    seq(16, i requires 0 <= i < 16 => BitOf(r, Distance(i)))
  }

  /** One round of the inner loop. */
  function StepBit(r: bv16): bv16 {
    if r & 0x8000 != 0 then (r << 1) ^ 0x1021 else r << 1
  }

  function StepBits(r: bv16, n: nat): bv16 {
    if n == 0 then r else StepBit(StepBits(r, n - 1))
  }

  /** One round of the outer loop. */
  function Feed(r: bv16, b: bv8): bv16 {
    StepBits(r ^ (b as bv16 << 8), 8)
  }

  /** The register after the whole message. */
  function Register(m: seq<bv8>): bv16 {
    if m == [] then 0xFFFF else Feed(Register(m[..|m| - 1]), m[|m| - 1])
  }

  lemma DoubledAt(r: bv16, k: bv4)
    ensures BitOf(r << 1, k) == (k > 0 && BitOf(r, k - 1))
  {
  }

  lemma ReducedAt(r: bv16, k: bv4)
    ensures BitOf(r ^ 0x1021, k) == (BitOf(r, k) != (k == 0 || k == 5 || k == 12))
  {
  }

  lemma StepBitAt(r: bv16, k: bv4)
    ensures BitOf(StepBit(r), k)
         == ((k > 0 && BitOf(r, k - 1)) != (r & 0x8000 != 0 && (k == 0 || k == 5 || k == 12)))
  {
    DoubledAt(r, k);
    ReducedAt(r << 1, k);
  }

  lemma TopBit(r: bv16)
    ensures BitOf(r, 15) == (r & 0x8000 != 0)
  {
  }

  /** Multiplying by x and replacing x^16 by x^12 + x^5 + 1 keeps the remainder. */
  lemma ReducedIsCongruent(a: Poly, b: Poly)
    requires |a| == |b| == 16
    requires forall e | 0 <= e < 16 :: b[e] == ((e > 0 && a[e - 1]) != (a[15] && (e == 0 || e == 5 || e == 12)))
    ensures Congruent(Shift(a, 1), b)
  {
    var q := if a[15] then [true] else [];
    forall e: int ensures At(Add(Shift(a, 1), b), e) == ProductAt(q, e) {
    }
    assert IsMultiple(Add(Shift(a, 1), b), q);
  }

  /** Bit e of the register after a round. */
  lemma StepBitCoefficient(r: bv16, e: int)
    requires 0 <= e < 16
    ensures BitOf(StepBit(r), Distance(e))
         == ((e > 0 && BitOf(r, Distance(e - 1))) != (r & 0x8000 != 0 && (e == 0 || e == 5 || e == 12)))
  {
    StepBitAt(r, Distance(e));
    if e > 0 {
      DistanceBelow(e);
    }
  }

  lemma TopCoefficient(r: bv16)
    ensures BitOf(r, Distance(15)) == (r & 0x8000 != 0)
  {
    assert Distance(15) == 15;
    TopBit(r);
  }

  /** A round multiplies the register by x and reduces it. */
  lemma StepBitCongruent(r: bv16)
    ensures Congruent(Shift(RegisterPoly(r), 1), RegisterPoly(StepBit(r)))
  {
    var top := r & 0x8000 != 0;
    var before, after := RegisterPoly(r), RegisterPoly(StepBit(r));
    TopCoefficient(r);
    forall e | 0 <= e < 16
      ensures after[e] == ((e > 0 && before[e - 1]) != (top && (e == 0 || e == 5 || e == 12)))
    {
      StepBitCoefficient(r, e);
    }
    ReducedIsCongruent(before, after);
  }

  // ---- Bytes entering the register ----

  predicate ByteBit(b: bv8, k: bv4) {
    BitOf(b as bv16, k)
  }

  lemma XorLow(r: bv16, b: bv8, k: bv4)
    requires k < 8
    ensures BitOf(r ^ (b as bv16 << 8), k) == BitOf(r, k)
  {
  }

  lemma XorHigh(r: bv16, b: bv8, k: bv4)
    requires k >= 8
    ensures BitOf(r ^ (b as bv16 << 8), k) == (BitOf(r, k) != ByteBit(b, k - 8))
  {
  }

  function BytePoly(b: bv8): Poly {
    seq(8, i requires 0 <= i < 8 => ByteBit(b, Distance(i)))
  }

  /** The message as a polynomial: its first byte holds the highest exponents, and within a
      byte the most significant bit the highest. */
  function MessagePoly(m: seq<bv8>): Poly {
    seq(8 * |m|, e requires 0 <= e < 8 * |m| => ByteBit(m[|m| - 1 - e / 8], Distance(e % 8)))
  }

  lemma XorAt(r: bv16, b: bv8, k: bv4)
    ensures BitOf(r ^ (b as bv16 << 8), k) == (BitOf(r, k) != (k >= 8 && ByteBit(b, k - 8)))
  {
    if k < 8 {
      XorLow(r, b, k);
    } else {
      XorHigh(r, b, k);
    }
  }

  lemma XorAddsByteAt(r: bv16, b: bv8, e: int)
    requires 0 <= e < 16
    ensures BitOf(r ^ (b as bv16 << 8), Distance(e))
         == (BitOf(r, Distance(e)) != (e >= 8 && ByteBit(b, Distance(e - 8))))
  {
    DistanceByte(e);
    XorAt(r, b, Distance(e));
  }

  lemma XorAddsByte(r: bv16, b: bv8)
    ensures Same(RegisterPoly(r ^ (b as bv16 << 8)), Add(RegisterPoly(r), Shift(BytePoly(b), 8)))
  {
    forall e | 0 <= e < 16
      ensures BitOf(r ^ (b as bv16 << 8), Distance(e))
           == (BitOf(r, Distance(e)) != (e >= 8 && ByteBit(b, Distance(e - 8))))
    {
      XorAddsByteAt(r, b, e);
    }
  }

  lemma EightBelow(e: int, n: int)
    requires 8 <= e < 8 * (n + 1)
    ensures (e - 8) / 8 == e / 8 - 1 && (e - 8) % 8 == e % 8
    ensures 0 <= n - 1 - (e - 8) / 8 == n - e / 8 < n
  {
  }

  lemma MessageSnocAt(m: seq<bv8>, b: bv8, e: int)
    requires 0 <= e < 8 * (|m| + 1)
    ensures At(MessagePoly(m + [b]), e) == if e < 8 then At(BytePoly(b), e) else At(MessagePoly(m), e - 8)
  {
    if e >= 8 {
      EightBelow(e, |m|);
      assert (m + [b])[|m| - e / 8] == m[|m| - 1 - (e - 8) / 8];
    }
  }

  lemma MessageSnoc(m: seq<bv8>, b: bv8)
    ensures Same(MessagePoly(m + [b]), Add(Shift(MessagePoly(m), 8), BytePoly(b)))
  {
    var long, short, byte := MessagePoly(m + [b]), MessagePoly(m), BytePoly(b);
    forall e: int ensures At(long, e) == At(Add(Shift(short, 8), byte), e) {
      if 0 <= e < 8 * (|m| + 1) {
        MessageSnocAt(m, b, e);
      }
    }
  }

  lemma {:induction false} StepBitsCongruent(r: bv16, n: nat)
    ensures Congruent(Shift(RegisterPoly(r), n), RegisterPoly(StepBits(r, n)))
  {
    if n == 0 {
      SameIsCongruent(Shift(RegisterPoly(r), 0), RegisterPoly(r));
    } else {
      StepBitsCongruent(r, n - 1);
      StepBitCongruent(StepBits(r, n - 1));
      CongruentShiftsTwice(RegisterPoly(r), n - 1, RegisterPoly(StepBits(r, n - 1)), 1, RegisterPoly(StepBits(r, n)));
    }
  }

  /** Feeding a byte b turns the register R into x^8 R + x^16 b, reduced. */
  lemma FeedCongruent(r: bv16, b: bv8)
    ensures Congruent(Add(Shift(RegisterPoly(r), 8), Shift(BytePoly(b), 16)), RegisterPoly(Feed(r, b)))
  {
    var mixed := r ^ (b as bv16 << 8);
    var goal := Add(Shift(RegisterPoly(r), 8), Shift(BytePoly(b), 16));
    XorAddsByte(r, b);
    forall e: int ensures At(goal, e) == At(Shift(RegisterPoly(mixed), 8), e) {
      assert At(RegisterPoly(mixed), e - 8) == At(Add(RegisterPoly(r), Shift(BytePoly(b), 8)), e - 8);
    }
    SameIsCongruent(goal, Shift(RegisterPoly(mixed), 8));
    StepBitsCongruent(mixed, 8);
    CongruentTransitive(goal, Shift(RegisterPoly(mixed), 8), RegisterPoly(Feed(r, b)));
  }

  // ---- What the register computes ----

  /** Sixteen coefficients one: the initial register as a polynomial. */
  function Ones(): Poly {
    seq(16, _ => true)
  }

  /** The message shifted up by 16, plus the initial register above it. */
  function Dividend(m: seq<bv8>): Poly {
    Add(Shift(MessagePoly(m), 16), Shift(Ones(), 8 * |m|))
  }

  lemma AllOnes(k: bv4)
    ensures BitOf(0xFFFF, k)
  {
  }

  lemma InitialRegister()
    ensures Same(Ones(), RegisterPoly(0xFFFF))
  {
    forall i | 0 <= i < 16 ensures BitOf(0xFFFF, Distance(i)) {
      AllOnes(Distance(i));
    }
  }

  lemma DividendSnoc(m: seq<bv8>, b: bv8)
    ensures Same(Dividend(m + [b]), Add(Shift(Dividend(m), 8), Shift(BytePoly(b), 16)))
  {
    MessageSnoc(m, b);
    forall e: int
      ensures At(Dividend(m + [b]), e) == At(Add(Shift(Dividend(m), 8), Shift(BytePoly(b), 16)), e)
    {
      assert At(MessagePoly(m + [b]), e - 16) == At(Add(Shift(MessagePoly(m), 8), BytePoly(b)), e - 16);
    }
  }

  lemma FeedStep(d: Poly, before: Poly, r: bv16, b: bv8)
    requires Congruent(before, RegisterPoly(r))
    requires Same(d, Add(Shift(before, 8), Shift(BytePoly(b), 16)))
    ensures Congruent(d, RegisterPoly(Feed(r, b)))
  {
    var tail := Shift(BytePoly(b), 16);
    CongruentShifts(before, RegisterPoly(r), 8);
    CongruentAdds(Shift(before, 8), Shift(RegisterPoly(r), 8), tail);
    SameIsCongruent(d, Add(Shift(before, 8), tail));
    CongruentTransitive(d, Add(Shift(before, 8), tail), Add(Shift(RegisterPoly(r), 8), tail));
    FeedCongruent(r, b);
    CongruentTransitive(d, Add(Shift(RegisterPoly(r), 8), tail), RegisterPoly(Feed(r, b)));
  }

  lemma {:induction false} RegisterCongruent(m: seq<bv8>)
    ensures Congruent(Dividend(m), RegisterPoly(Register(m)))
  {
    if m == [] {
      InitialRegister();
      SameIsCongruent(Dividend(m), RegisterPoly(0xFFFF));
    } else {
      var front, b := m[..|m| - 1], m[|m| - 1];
      assert m == front + [b];
      RegisterCongruent(front);
      DividendSnoc(front, b);
      FeedStep(Dividend(m), Dividend(front), Register(front), b);
    }
  }

  /** The loop computes the remainder of the dividend by x^16 + x^12 + x^5 + 1. */
  lemma RegisterIsRemainder(m: seq<bv8>)
    ensures IsRemainder(Dividend(m), RegisterPoly(Register(m)))
  {
    RegisterCongruent(m);
  }

  // ---- Which errors it detects ----

  lemma LowByteEqual(r: bv16, s: bv16)
    requires BitOf(r, 0) == BitOf(s, 0) && BitOf(r, 1) == BitOf(s, 1) && BitOf(r, 2) == BitOf(s, 2)
    requires BitOf(r, 3) == BitOf(s, 3) && BitOf(r, 4) == BitOf(s, 4) && BitOf(r, 5) == BitOf(s, 5)
    requires BitOf(r, 6) == BitOf(s, 6) && BitOf(r, 7) == BitOf(s, 7)
    ensures r & 0x00FF == s & 0x00FF
  {
  }

  lemma HighByteEqual(r: bv16, s: bv16)
    requires BitOf(r, 8) == BitOf(s, 8) && BitOf(r, 9) == BitOf(s, 9) && BitOf(r, 10) == BitOf(s, 10)
    requires BitOf(r, 11) == BitOf(s, 11) && BitOf(r, 12) == BitOf(s, 12) && BitOf(r, 13) == BitOf(s, 13)
    requires BitOf(r, 14) == BitOf(s, 14) && BitOf(r, 15) == BitOf(s, 15)
    ensures r & 0xFF00 == s & 0xFF00
  {
  }

  lemma BytesEqual(r: bv16, s: bv16)
    requires r & 0x00FF == s & 0x00FF && r & 0xFF00 == s & 0xFF00
    ensures r == s
  {
  }

  lemma SameBit(r: bv16, s: bv16, i: int)
    requires 0 <= i < 16 && Same(RegisterPoly(r), RegisterPoly(s))
    ensures BitOf(r, Distance(i)) == BitOf(s, Distance(i))
  {
    assert At(RegisterPoly(r), i) == At(RegisterPoly(s), i);
  }

  lemma SameLow(r: bv16, s: bv16)
    requires Same(RegisterPoly(r), RegisterPoly(s))
    ensures r & 0x00FF == s & 0x00FF
  {
    SameBit(r, s, 0);
    SameBit(r, s, 1);
    SameBit(r, s, 2);
    SameBit(r, s, 3);
    SameBit(r, s, 4);
    SameBit(r, s, 5);
    SameBit(r, s, 6);
    SameBit(r, s, 7);
    LowByteEqual(r, s);
  }

  lemma SameHigh(r: bv16, s: bv16)
    requires Same(RegisterPoly(r), RegisterPoly(s))
    ensures r & 0xFF00 == s & 0xFF00
  {
    SameBit(r, s, 8);
    SameBit(r, s, 9);
    SameBit(r, s, 10);
    SameBit(r, s, 11);
    SameBit(r, s, 12);
    SameBit(r, s, 13);
    SameBit(r, s, 14);
    SameBit(r, s, 15);
    HighByteEqual(r, s);
  }

  lemma RegisterPolyInjective(r: bv16, s: bv16)
    requires Same(RegisterPoly(r), RegisterPoly(s))
    ensures r == s
  {
    SameLow(r, s);
    SameHigh(r, s);
    BytesEqual(r, s);
  }

  /** The bits in which two messages of equal length differ. */
  function Difference(a: seq<bv8>, b: seq<bv8>): Poly {
    Add(MessagePoly(a), MessagePoly(b))
  }

  lemma DividendDifference(a: seq<bv8>, b: seq<bv8>)
    requires |a| == |b|
    ensures Same(Add(Dividend(a), Dividend(b)), Shift(Difference(a, b), 16))
  {
  }

  /** An error goes unnoticed exactly when its bits form a multiple of the generator. */
  lemma EqualRegisterIffDivisible(a: seq<bv8>, b: seq<bv8>)
    requires |a| == |b|
    ensures Register(a) == Register(b) <==> Divisible(Difference(a, b))
  {
    var ra, rb := RegisterPoly(Register(a)), RegisterPoly(Register(b));
    RegisterIsRemainder(a);
    RegisterIsRemainder(b);
    DividendDifference(a, b);
    if Register(a) == Register(b) {
      CongruentSymmetric(Dividend(b), rb);
      CongruentTransitive(Dividend(a), ra, Dividend(b));
      DivisibleSame(Add(Dividend(a), Dividend(b)), Shift(Difference(a, b), 16));
      CancelShift(Difference(a, b), 16);
    }
    if Divisible(Difference(a, b)) {
      DivisibleShifts(Difference(a, b), 16);
      DivisibleSame(Shift(Difference(a, b), 16), Add(Dividend(a), Dividend(b)));
      CongruentTransitive(Dividend(a), Dividend(b), rb);
      RemainderUnique(Dividend(a), ra, rb);
      RegisterPolyInjective(Register(a), Register(b));
    }
  }

  lemma ByteFromBits(b: bv8, c: bv8)
    requires ByteBit(b, 0) == ByteBit(c, 0) && ByteBit(b, 1) == ByteBit(c, 1) && ByteBit(b, 2) == ByteBit(c, 2)
    requires ByteBit(b, 3) == ByteBit(c, 3) && ByteBit(b, 4) == ByteBit(c, 4) && ByteBit(b, 5) == ByteBit(c, 5)
    requires ByteBit(b, 6) == ByteBit(c, 6) && ByteBit(b, 7) == ByteBit(c, 7)
    ensures b == c
  {
  }

  /** Different messages of equal length differ in some bit. */
  lemma DifferenceNonzero(a: seq<bv8>, b: seq<bv8>)
    requires |a| == |b| && a != b
    ensures !IsZero(Difference(a, b))
  {
    if IsZero(Difference(a, b)) {
      forall k | 0 <= k < |a| ensures a[k] == b[k] {
        var low := 8 * (|a| - 1 - k);
        forall j | 0 <= j < 8 ensures ByteBit(a[k], Distance(j)) == ByteBit(b[k], Distance(j)) {
          assert !At(Difference(a, b), low + j);
          assert (low + j) / 8 == |a| - 1 - k && (low + j) % 8 == j;
        }
        EqualByte(a[k], b[k]);
      }
      assert false;
    }
  }

  lemma EqualByte(b: bv8, c: bv8)
    requires forall j | 0 <= j < 8 :: ByteBit(b, Distance(j)) == ByteBit(c, Distance(j))
    ensures b == c
  {
    assert Distance(0) == 0 && Distance(1) == 1 && Distance(2) == 2 && Distance(3) == 3;
    assert Distance(4) == 4 && Distance(5) == 5 && Distance(6) == 6 && Distance(7) == 7;
    ByteFromBits(b, c);
  }

  /** Every error burst of at most sixteen consecutive bits changes the checksum. */
  lemma BurstDetected(a: seq<bv8>, b: seq<bv8>, k: nat)
    requires |a| == |b| && a != b
    requires forall e: int :: At(Difference(a, b), e) ==> k <= e < k + 16
    ensures Register(a) != Register(b)
  {
    DifferenceNonzero(a, b);
    BurstNotDivisible(Difference(a, b), k);
    EqualRegisterIffDivisible(a, b);
  }

  /** Every error in an odd number of bits changes the checksum. */
  lemma OddErrorDetected(a: seq<bv8>, b: seq<bv8>)
    requires |a| == |b|
    requires Weight(Difference(a, b), 8 * |a|) % 2 == 1
    ensures Register(a) != Register(b)
  {
    assert |Difference(a, b)| == 8 * |a|;
    EqualRegisterIffDivisible(a, b);
    if Register(a) == Register(b) {
      DivisibleHasEvenWeight(Difference(a, b));
    }
  }

  // ---- The residue ----

  lemma FedTopByte(r: bv16)
    ensures r ^ (((r >> 8) as bv8) as bv16 << 8) == r & 0x00FF
  {
  }

  lemma SmallSteps(r: bv16)
    requires r <= 0x00FF
    ensures StepBits(r, 8) == r << 8
  {
    assert StepBits(r, 1) == r << 1;
    assert StepBits(r, 2) == r << 2;
    assert StepBits(r, 3) == r << 3;
    assert StepBits(r, 4) == r << 4;
    assert StepBits(r, 5) == r << 5;
    assert StepBits(r, 6) == r << 6;
    assert StepBits(r, 7) == r << 7;
  }

  lemma FeedHighByte(r: bv16)
    ensures Feed(r, (r >> 8) as bv8) == (r & 0x00FF) << 8
  {
    FedTopByte(r);
    SmallSteps(r & 0x00FF);
  }

  lemma LowByteCancels(r: bv16)
    ensures ((r & 0x00FF) << 8) ^ (((r & 0xFF) as bv8) as bv16 << 8) == 0
  {
  }

  lemma FeedLowByte(r: bv16)
    ensures Feed((r & 0x00FF) << 8, (r & 0xFF) as bv8) == 0
  {
    LowByteCancels(r);
    SmallSteps(0);
  }

  lemma RegisterSnoc(m: seq<bv8>, b: bv8)
    ensures Register(m + [b]) == Feed(Register(m), b)
  {
    assert (m + [b])[..|m|] == m;
  }

  /** Feeding the register's own two bytes, the high one first, leaves zero. */
  lemma ResidueIsZero(m: seq<bv8>, r: bv16)
    requires r == Register(m)
    ensures Register(m + [(r >> 8) as bv8] + [(r & 0xFF) as bv8]) == 0
  {
    RegisterSnoc(m, (r >> 8) as bv8);
    RegisterSnoc(m + [(r >> 8) as bv8], (r & 0xFF) as bv8);
    FeedHighByte(r);
    FeedLowByte(r);
  }

  // ---- The function of the source ----

  datatype Error = NotAscii

  predicate IsAscii(s: string) {
    forall i | 0 <= i < |s| :: s[i] as int < 128
  }

  function AsciiByte(c: char): bv8 {
    if c as int < 128 then c as int as bv8 else 0
  }

  function AsciiBytes(s: string): (bytes: seq<bv8>)
    ensures |bytes| == |s|
  {
    seq(|s|, i requires 0 <= i < |s| => AsciiByte(s[i]))
  }

  /** data.encode("ascii"), which raises on any other character. */
  function EncodeAscii(s: string): Result<seq<bv8>, Error> {
    if IsAscii(s) then Success(AsciiBytes(s)) else Failure(NotAscii)
  }

  /** The register printed with the format 04X. */
  function PrintRegister(r: bv16): string {
    ZeroPad(Numeral(r as nat, 16), 4)
  }

  /** Four upper-case hexadecimal digits, from which the register can be read back. */
  lemma PrintRegisterIsFourHexDigits(r: bv16)
    ensures |PrintRegister(r)| == 4 && AllDigits(PrintRegister(r), 16)
    ensures Value(PrintRegister(r), 16) == r as nat
  {
    assert Pow(16, 1) == 16 && Pow(16, 2) == 256 && Pow(16, 3) == 4096 && Pow(16, 4) == 65536;
    NumeralFits(r as nat, 16, 4);
    ValueOfZeroPad(Numeral(r as nat, 16), 4, 16);
    ValueOfNumeral(r as nat, 16);
  }

  lemma PrintRegisterInjective(r: bv16, s: bv16)
    requires PrintRegister(r) == PrintRegister(s)
    ensures r == s
  {
    PrintRegisterIsFourHexDigits(r);
    PrintRegisterIsFourHexDigits(s);
    NatInjective(r, s);
  }

  lemma NatInjective(r: bv16, s: bv16)
    requires r as nat == s as nat
    ensures r == s
  {
    assert (r as nat) as bv16 == r;
    assert (s as nat) as bv16 == s;
  }

  function Checksum(s: string): Result<string, Error> {
    match EncodeAscii(s)
    case Success(bytes) => Success(PrintRegister(Register(bytes)))
    case Failure(e) => Failure(e)
  }

  /** The source masks an unbounded integer after every shift. Bit 16 is the highest that a
      shift can reach, and sixteen-bit arithmetic drops exactly that bit. */
  lemma MaskIsSixteenBitArithmetic(crc: bv17, r: bv16)
    requires crc == r as bv17
    ensures (crc << 1) & 0xFFFF == (r << 1) as bv17
    ensures ((crc << 1) ^ 0x1021) & 0xFFFF == ((r << 1) ^ 0x1021) as bv17
  {
  }

  lemma StepBitsNext(fed: bv16, k: nat, r: bv16)
    requires r == StepBits(fed, k)
    ensures StepBits(fed, k + 1) == StepBit(r)
  {
  }

  /** The body of the inner loop. */
  method ShiftOutBit(crc: bv16) returns (next: bv16)
    ensures next == StepBit(crc)
  {
    if crc & 0x8000 != 0 {
      next := (crc << 1) ^ 0x1021;
    } else {
      next := crc << 1;
    }
  }

  method Crc16Ccitt(data: string) returns (result: Result<string, Error>)
    ensures result == Checksum(data)
  {
    var encoded := EncodeAscii(data);
    if encoded.Failure? {
      return Failure(encoded.error);
    }
    var bytes := encoded.value;
    var crc: bv16 := 0xFFFF;
    for i := 0 to |bytes|
      invariant crc == Register(bytes[..i])
    {
      assert bytes[..i + 1] == bytes[..i] + [bytes[i]];
      RegisterSnoc(bytes[..i], bytes[i]);
      crc := crc ^ (bytes[i] as bv16 << 8);
      ghost var mixed := crc;
      for k := 0 to 8
        invariant crc == StepBits(mixed, k)
      {
        StepBitsNext(mixed, k, crc);
        crc := ShiftOutBit(crc);
      }
    }
    assert bytes[..|bytes|] == bytes;
    result := Success(PrintRegister(crc));
  }
}
