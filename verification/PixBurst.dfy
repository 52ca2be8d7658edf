/** Every short burst in a PIX payload is noticed, wherever it lies: in the text, in the printed
    checksum, or across the border between them. */
module PixBurst {
  import opened Crc
  import opened Gf2
  import opened Numerals
  import opened Pix
  import opened Wrappers

  // ---- The bits of a text and its trailer ----

  /** The last four bytes hold the exponents below 32. */
  lemma TrailerBits(a: seq<bv8>, c: seq<bv8>, e: int)
    requires |c| == 4
    ensures At(MessagePoly(a + c), e) == if e < 32 then At(MessagePoly(c), e) else At(MessagePoly(a), e - 32)
  {
    var m := a + c;
    if 0 <= e < 32 {
      assert m[|m| - 1 - e / 8] == c[3 - e / 8];
    } else if 32 <= e < 8 * |m| {
      assert (e - 32) / 8 == e / 8 - 4 && (e - 32) % 8 == e % 8;
      assert m[|m| - 1 - e / 8] == a[|a| - 1 - (e - 32) / 8];
    }
  }

  /** Bytes that differ in no bit of a range are equal there. */
  lemma SameBytes(a: seq<bv8>, b: seq<bv8>, k: nat)
    requires |a| == |b| && k < |a|
    requires forall e: int | 8 * (|a| - 1 - k) <= e < 8 * (|a| - k) :: !At(Difference(a, b), e)
    ensures a[k] == b[k]
  {
    var low := 8 * (|a| - 1 - k);
    forall j | 0 <= j < 8 ensures ByteBit(a[k], Distance(j)) == ByteBit(b[k], Distance(j)) {
      assert !At(Difference(a, b), low + j);
      assert (low + j) / 8 == |a| - 1 - k && (low + j) % 8 == j;
    }
    EqualByte(a[k], b[k]);
  }

  // ---- Digits of the printed register ----

  lemma FourDigits(s: string)
    requires |s| == 4 && AllDigits(s, 16)
    ensures Value(s, 16) == 256 * Value(s[..2], 16) + 16 * DigitValue(s[2]) + DigitValue(s[3])
    ensures Value(s, 16) == 4096 * DigitValue(s[0]) + 256 * DigitValue(s[1]) + 16 * DigitValue(s[2]) + DigitValue(s[3])
    ensures forall i | 0 <= i < 4 :: DigitValue(s[i]) < 16
  {
    assert forall i | 0 <= i < 4 :: s[i] in s;
    assert s == s[..2] + [s[2]] + [s[3]];
    ValueOfSnoc(s[..2], s[2], 16);
    ValueOfSnoc(s[..2] + [s[2]], s[3], 16);
    ValueOfTwoDigits(s[..2], 16);
  }

  lemma SplitLowByte(r: bv16)
    ensures r as nat == 256 * ((r >> 8) as nat) + ((r & 0xFF) as nat)
    ensures (r & 0xFF) as nat < 256
  {
  }

  lemma SplitLowTwelve(r: bv16)
    ensures r as nat == 4096 * ((r >> 12) as nat) + ((r & 0xFFF) as nat)
    ensures (r & 0xFFF) as nat < 4096
  {
  }

  lemma LastTwoDigits(r: bv16)
    ensures |PrintRegister(r)| == 4
    ensures (r & 0xFF) as nat == 16 * DigitValue(PrintRegister(r)[2]) + DigitValue(PrintRegister(r)[3])
  {
    var c := PrintRegister(r);
    PrintRegisterIsFourHexDigits(r);
    FourDigits(c);
    SplitLowByte(r);
    Remainder256((r >> 8) as nat, (r & 0xFF) as nat, Value(c[..2], 16), 16 * DigitValue(c[2]) + DigitValue(c[3]));
  }

  lemma Remainder256(q: nat, l: nat, p: nat, m: nat)
    requires 256 * q + l == 256 * p + m && l < 256 && m < 256
    ensures l == m
  {
  }

  lemma LastThreeDigits(r: bv16)
    ensures |PrintRegister(r)| == 4
    ensures (r & 0xFFF) as nat
         == 256 * DigitValue(PrintRegister(r)[1]) + 16 * DigitValue(PrintRegister(r)[2]) + DigitValue(PrintRegister(r)[3])
  {
    var c := PrintRegister(r);
    PrintRegisterIsFourHexDigits(r);
    FourDigits(c);
    SplitLowTwelve(r);
    Remainder4096((r >> 12) as nat, (r & 0xFFF) as nat, DigitValue(c[0]),
                  256 * DigitValue(c[1]) + 16 * DigitValue(c[2]) + DigitValue(c[3]));
  }

  lemma Remainder4096(q: nat, l: nat, p: nat, m: nat)
    requires 4096 * q + l == 4096 * p + m && l < 4096 && m < 4096
    ensures l == m
  {
  }

  lemma LowByteFromDigits(r: bv16, s: bv16)
    requires PrintRegister(r)[2..] == PrintRegister(s)[2..]
    ensures r & 0xFF == s & 0xFF
  {
    var c, d := PrintRegister(r), PrintRegister(s);
    LastTwoDigits(r);
    LastTwoDigits(s);
    assert c[2] == c[2..][0] == d[2] && c[3] == c[2..][1] == d[3];
    NatInjective(r & 0xFF, s & 0xFF);
  }

  lemma LowTwelveFromDigits(r: bv16, s: bv16)
    requires PrintRegister(r)[1..] == PrintRegister(s)[1..]
    ensures r & 0xFFF == s & 0xFFF
  {
    var c, d := PrintRegister(r), PrintRegister(s);
    LastThreeDigits(r);
    LastThreeDigits(s);
    assert c[1] == c[1..][0] == d[1] && c[2] == c[1..][1] == d[2] && c[3] == c[1..][2] == d[3];
    NatInjective(r & 0xFFF, s & 0xFFF);
  }

  lemma LowByteBits(r: bv16, s: bv16, k: bv4)
    requires r & 0xFF == s & 0xFF && k < 8
    ensures BitOf(r, k) == BitOf(s, k)
  {
  }

  lemma LowTwelveBits(r: bv16, s: bv16, k: bv4)
    requires r & 0xFFF == s & 0xFFF && k < 12
    ensures BitOf(r, k) == BitOf(s, k)
  {
  }

  /** Registers whose last printed digits agree differ in high coefficients only. */
  lemma HighDifference(r: bv16, s: bv16, digits: nat)
    requires digits == 2 || digits == 3
    requires PrintRegister(r)[4 - digits..] == PrintRegister(s)[4 - digits..]
    ensures forall e: int :: At(Add(RegisterPoly(r), RegisterPoly(s)), e) ==> 4 * digits <= e < 16
  {
    forall e | 0 <= e < 4 * digits ensures BitOf(r, Distance(e)) == BitOf(s, Distance(e)) {
      DistanceTable(e);
      if digits == 2 {
        LowByteFromDigits(r, s);
        LowByteBits(r, s, Distance(e));
      } else {
        LowTwelveFromDigits(r, s);
        LowTwelveBits(r, s, Distance(e));
      }
    }
  }

  // ---- Digits as bytes ----

  /** The last five bits tell the sixteen digits apart. */
  lemma DigitBits(b: bv8, c: bv8)
    requires (0x30 <= b <= 0x39 || 0x41 <= b <= 0x46) && (0x30 <= c <= 0x39 || 0x41 <= c <= 0x46)
    requires ByteBit(b, 0) == ByteBit(c, 0) && ByteBit(b, 1) == ByteBit(c, 1) && ByteBit(b, 2) == ByteBit(c, 2)
    requires ByteBit(b, 3) == ByteBit(c, 3) && ByteBit(b, 4) == ByteBit(c, 4)
    ensures b == c
  {
  }

  lemma DigitByte(c: char)
    requires IsDigit(c, 16)
    ensures var b := AsciiByte(c); 0x30 <= b <= 0x39 || 0x41 <= b <= 0x46
  {
  }

  lemma DifferentDigits(c: char, d: char)
    requires IsDigit(c, 16) && IsDigit(d, 16) && c != d
    ensures exists j | 0 <= j < 5 :: ByteBit(AsciiByte(c), Distance(j)) != ByteBit(AsciiByte(d), Distance(j))
  {
    DigitByte(c);
    DigitByte(d);
    if forall j | 0 <= j < 5 :: ByteBit(AsciiByte(c), Distance(j)) == ByteBit(AsciiByte(d), Distance(j)) {
      assert Distance(0) == 0 && Distance(1) == 1 && Distance(2) == 2 && Distance(3) == 3 && Distance(4) == 4;
      DigitBits(AsciiByte(c), AsciiByte(d));
      AsciiByteValue(c);
      AsciiByteValue(d);
    }
  }

  // ---- A burst across the border ----

  /** What the registers of two messages have to do with their difference. */
  lemma RegistersAndDifference(a: seq<bv8>, b: seq<bv8>)
    requires |a| == |b|
    ensures Divisible(Add(Shift(Difference(a, b), 16), Add(RegisterPoly(Register(a)), RegisterPoly(Register(b)))))
  {
    var ra, rb := RegisterPoly(Register(a)), RegisterPoly(Register(b));
    RegisterIsRemainder(a);
    RegisterIsRemainder(b);
    DividendDifference(a, b);
    DivisibleAdds(Add(Dividend(a), ra), Add(Dividend(b), rb));
    DivisibleSame(Add(Add(Dividend(a), ra), Add(Dividend(b), rb)), Add(Shift(Difference(a, b), 16), Add(ra, rb)));
  }

  /** A nonzero error in the last n bits of the text cannot be made up for by the coefficients of
      the register from n on. */
  lemma NoCrossing(error: Poly, change: Poly, n: nat)
    requires n <= 16 && |change| == 16
    requires forall e: int :: At(error, e) ==> e < n
    requires forall e: int :: At(change, e) ==> n <= e
    requires Divisible(Add(Shift(error, 16), change))
    ensures IsZero(error)
  {
    var low := Add(Shift(error, 16 - n), change[n..]);
    forall e: int ensures At(Shift(low, n), e) == At(Add(Shift(error, 16), change), e) {
      assert At(change[n..], e - n) == (n <= e && At(change, e));
    }
    DivisibleSame(Add(Shift(error, 16), change), Shift(low, n));
    CancelShift(low, n);
    if !IsZero(low) {
      BurstNotDivisible(low, 0);
    }
    forall e: int ensures !At(error, e) {
      assert !At(low, e + 16 - n);
    }
  }

  /** Two texts of equal length with their own checksums, and all bits in which they differ. */
  ghost predicate Codeword(a: string, c: string) {
    IsAscii(a) && c == PrintRegister(Register(AsciiBytes(a)))
  }

  lemma CodewordTrailer(a: string, c: string)
    requires Codeword(a, c)
    ensures |c| == 4 && AllDigits(c, 16) && IsAscii(c)
  {
    PrintRegisterIsFourHexDigits(Register(AsciiBytes(a)));
    DigitsAsciiToo(c);
  }

  lemma DigitsAsciiToo(c: string)
    requires AllDigits(c, 16)
    ensures IsAscii(c)
  {
    forall i | 0 <= i < |c| ensures c[i] as int < 128 {
      assert c[i] in c;
    }
  }

  /** All bits in which two texts with trailers differ. */
  function Changed(a: string, c: string, b: string, d: string): Poly {
    Difference(AsciiBytes(a + c), AsciiBytes(b + d))
  }

  lemma ChangedAt(a: string, c: string, b: string, d: string, e: int)
    requires |a| == |b| && |c| == |d| == 4
    ensures At(Changed(a, c, b, d), e)
         == if e < 32 then At(Difference(AsciiBytes(c), AsciiBytes(d)), e) else At(Difference(AsciiBytes(a), AsciiBytes(b)), e - 32)
  {
    assert AsciiBytes(a + c) == AsciiBytes(a) + AsciiBytes(c);
    assert AsciiBytes(b + d) == AsciiBytes(b) + AsciiBytes(d);
    TrailerBits(AsciiBytes(a), AsciiBytes(c), e);
    TrailerBits(AsciiBytes(b), AsciiBytes(d), e);
  }

  /** A character of the trailer below the burst is unchanged. */
  lemma SameCharacter(a: string, c: string, b: string, d: string, k: int, i: nat)
    requires |a| == |b| && |c| == |d| == 4 && IsAscii(c) && IsAscii(d) && i < 4
    requires forall e: int :: At(Changed(a, c, b, d), e) ==> k <= e
    requires 8 * (4 - i) <= k
    ensures c[i] == d[i]
  {
    var x, y := AsciiBytes(c), AsciiBytes(d);
    forall e: int | 8 * (|x| - 1 - i) <= e < 8 * (|x| - i) ensures !At(Difference(x, y), e) {
      ChangedAt(a, c, b, d, e);
    }
    SameBytes(x, y, i);
    AsciiByteValue(c[i]);
    AsciiByteValue(d[i]);
    assert c[i] as int == x[i] as int == d[i] as int;
  }

  lemma TopByteBit(x: seq<bv8>, y: seq<bv8>, j: int)
    requires |x| == |y| == 4 && 0 <= j < 8
    ensures At(Difference(x, y), 24 + j) == (ByteBit(x[0], Distance(j)) != ByteBit(y[0], Distance(j)))
  {
    assert (24 + j) / 8 == 3 && (24 + j) % 8 == j;
  }

  /** Where the first characters of the trailers differ, a burst starts at exponent 28 or below. */
  lemma FirstCharacter(a: string, c: string, b: string, d: string, k: int)
    requires |a| == |b| && |c| == |d| == 4 && AllDigits(c, 16) && AllDigits(d, 16) && c[0] != d[0]
    requires forall e: int :: At(Changed(a, c, b, d), e) ==> k <= e
    ensures k <= 28
  {
    assert c[0] in c && d[0] in d;
    DifferentDigits(c[0], d[0]);
    var j :| 0 <= j < 5 && ByteBit(AsciiByte(c[0]), Distance(j)) != ByteBit(AsciiByte(d[0]), Distance(j));
    ChangedAt(a, c, b, d, 24 + j);
    TopByteBit(AsciiBytes(c), AsciiBytes(d), j);
  }

  /** The bits of the text that a burst from exponent k can reach. */
  lemma TextBits(a: string, c: string, b: string, d: string, k: nat)
    requires |a| == |b| && |c| == |d| == 4
    requires forall e: int :: At(Changed(a, c, b, d), e) ==> k <= e < k + 16
    ensures forall e: int :: At(Difference(AsciiBytes(a), AsciiBytes(b)), e) ==> k - 32 <= e < k - 16 && 0 <= e
  {
    forall e: int | At(Difference(AsciiBytes(a), AsciiBytes(b)), e) ensures k - 32 <= e < k - 16 && 0 <= e {
      ChangedAt(a, c, b, d, e + 32);
    }
  }

  /** Where the trailers agree the text is unchanged. */
  lemma SameTrailer(a: string, c: string, b: string, d: string, from: nat)
    requires Codeword(a, c) && Codeword(b, d) && |a| == |b| && c == d
    requires forall e: int :: At(Difference(AsciiBytes(a), AsciiBytes(b)), e) ==> from <= e < from + 16
    ensures IsZero(Difference(AsciiBytes(a), AsciiBytes(b)))
  {
    PrintRegisterInjective(Register(AsciiBytes(a)), Register(AsciiBytes(b)));
    EqualRegisterIffDivisible(AsciiBytes(a), AsciiBytes(b));
    if !IsZero(Difference(AsciiBytes(a), AsciiBytes(b))) {
      BurstNotDivisible(Difference(AsciiBytes(a), AsciiBytes(b)), from);
    }
  }

  /** A burst that lies in the text. */
  lemma BurstInText(a: string, c: string, b: string, d: string, k: nat)
    requires Codeword(a, c) && Codeword(b, d) && |a| == |b| && k >= 32
    requires forall e: int :: At(Changed(a, c, b, d), e) ==> k <= e < k + 16
    ensures IsZero(Difference(AsciiBytes(a), AsciiBytes(b)))
  {
    CodewordTrailer(a, c);
    CodewordTrailer(b, d);
    forall i | 0 <= i < 4 ensures c[i] == d[i] {
      SameCharacter(a, c, b, d, k, i);
    }
    TextBits(a, c, b, d, k);
    SameTrailer(a, c, b, d, k - 32);
  }

  /** A burst that reaches the first digit of the checksum. */
  lemma BurstOverOne(a: string, c: string, b: string, d: string, k: nat)
    requires Codeword(a, c) && Codeword(b, d) && |a| == |b| && 24 <= k < 32
    requires forall e: int :: At(Changed(a, c, b, d), e) ==> k <= e < k + 16
    ensures IsZero(Difference(AsciiBytes(a), AsciiBytes(b)))
  {
    CodewordTrailer(a, c);
    CodewordTrailer(b, d);
    forall i | 1 <= i < 4 ensures c[i] == d[i] {
      SameCharacter(a, c, b, d, k, i);
    }
    TextBits(a, c, b, d, k);
    if c[0] == d[0] {
      assert c == d;
      SameTrailer(a, c, b, d, 0);
    } else {
      FirstCharacter(a, c, b, d, k);
      TextAndDigits(a, c, b, d, 3);
    }
  }

  /** A burst that reaches the second digit, or lies further down. */
  lemma BurstOverTwo(a: string, c: string, b: string, d: string, k: nat)
    requires Codeword(a, c) && Codeword(b, d) && |a| == |b| && 16 <= k < 24
    requires forall e: int :: At(Changed(a, c, b, d), e) ==> k <= e < k + 16
    ensures IsZero(Difference(AsciiBytes(a), AsciiBytes(b)))
  {
    CodewordTrailer(a, c);
    CodewordTrailer(b, d);
    forall i | 2 <= i < 4 ensures c[i] == d[i] {
      SameCharacter(a, c, b, d, k, i);
    }
    TextBits(a, c, b, d, k);
    TextAndDigits(a, c, b, d, 2);
  }

  /** The last digits agree and the text differs in few bits only. */
  lemma TextAndDigits(a: string, c: string, b: string, d: string, digits: nat)
    requires Codeword(a, c) && Codeword(b, d) && |a| == |b| && (digits == 2 || digits == 3) && |c| == |d| == 4
    requires c[4 - digits..] == d[4 - digits..]
    requires forall e: int :: At(Difference(AsciiBytes(a), AsciiBytes(b)), e) ==> e < 4 * digits
    ensures IsZero(Difference(AsciiBytes(a), AsciiBytes(b)))
  {
    var r, s := Register(AsciiBytes(a)), Register(AsciiBytes(b));
    HighDifference(r, s, digits);
    RegistersAndDifference(AsciiBytes(a), AsciiBytes(b));
    NoCrossing(Difference(AsciiBytes(a), AsciiBytes(b)), Add(RegisterPoly(r), RegisterPoly(s)), 4 * digits);
  }

  /** When all changed bits of a text and its printed checksum lie within sixteen consecutive ones,
      and the result is again a text with its checksum, nothing was changed. */
  lemma NoShortBurst(a: string, c: string, b: string, d: string, k: nat)
    requires Codeword(a, c) && Codeword(b, d) && |a| == |b|
    requires forall e: int :: At(Changed(a, c, b, d), e) ==> k <= e < k + 16
    ensures a == b && c == d
  {
    if k >= 32 {
      BurstInText(a, c, b, d, k);
    } else if k >= 24 {
      BurstOverOne(a, c, b, d, k);
    } else if k >= 16 {
      BurstOverTwo(a, c, b, d, k);
    } else {
      CodewordTrailer(a, c);
      CodewordTrailer(b, d);
      TextBits(a, c, b, d, k);
    }
    if AsciiBytes(a) != AsciiBytes(b) {
      DifferenceNonzero(AsciiBytes(a), AsciiBytes(b));
    }
    AsciiBytesInjective(a, b);
  }

  /** A reader that recomputes the checksum notices every burst of at most sixteen bits in the
      payload, also one across the border between the text and the printed checksum. */
  lemma EveryBurstNoticed(q: Request, strip: string -> string, p: string, damaged: string, k: nat)
    requires Payload(q, strip) == Success(p)
    requires |damaged| == |p| && damaged != p && IsAscii(damaged)
    requires forall e: int :: At(Difference(AsciiBytes(p), AsciiBytes(damaged)), e) ==> k <= e < k + 16
    ensures Checksum(Body(damaged)) != Success(Trailer(damaged))
  {
    PayloadIsFields(q, strip, p);
    var a, c, b, d := Body(p), Trailer(p), Body(damaged), Trailer(damaged);
    assert p == a + c && damaged == b + d;
    if Checksum(b) == Success(d) {
      NoShortBurst(a, c, b, d, k);
    }
  }
}
