/** The PIX payload of rentivo/pix.py: nested fields closed by their checksum. */
module Pix {
  import opened Crc
  import opened Gf2
  import opened Money
  import opened Numerals
  import opened Tlv
  import opened Wrappers

  /** The arguments of a payload; amount is in reais. */
  datatype Request = Request(
    pixKey: string, merchantName: string, merchantCity: string, amount: Option<real>, txid: string)

  function Clip(s: string, n: nat): string {
    if |s| <= n then s else s[..n]
  }

  function AccountFields(pixKey: string): seq<Field> {
    [Field("00", "br.gov.bcb.pix"), Field("01", pixKey)]
  }

  function AdditionalFields(txid: string): seq<Field> {
    [Field("05", txid)]
  }

  function AmountFields(amount: Option<real>): seq<Field> {
    if amount.Some? && amount.value > 0.0 then [Field("54", PrintFixed(amount.value))] else []
  }

  function HeadFields(q: Request): seq<Field> {
    [Field("00", "01"), Field("26", PrintAll(AccountFields(q.pixKey))), Field("52", "0000"), Field("53", "986")]
  }

  function TailFields(q: Request, strip: string -> string): seq<Field> {
    [Field("58", "BR"), Field("59", Clip(strip(q.merchantName), 25)),
     Field("60", Clip(strip(q.merchantCity), 15)), Field("62", PrintAll(AdditionalFields(q.txid)))]
  }

  /** The fields of a payload before its checksum; strip removes the accents of a text. */
  function RootFields(q: Request, strip: string -> string): seq<Field> {
    HeadFields(q) + AmountFields(q.amount) + TailFields(q, strip)
  }

  /** The text that the checksum covers: every field, and the tag and length of its own. */
  function CheckedText(q: Request, strip: string -> string): string {
    PrintAll(RootFields(q, strip)) + "6304"
  }

  function Payload(q: Request, strip: string -> string): Result<string, Error> {
    match Checksum(CheckedText(q, strip))
    case Success(crc) => Success(CheckedText(q, strip) + crc)
    case Failure(e) => Failure(e)
  }

  lemma PrintOne(f: Field)
    ensures PrintAll([f]) == Print(f)
  {
    assert [f][1..] == [];
    assert PrintAll([]) == "";
  }

  lemma PrintTwo(fs: seq<Field>)
    requires |fs| == 2
    ensures PrintAll(fs) == Print(fs[0]) + Print(fs[1])
  {
    PrintOne(fs[1]);
    assert fs[1..] == [fs[1]];
  }

  lemma PrintFour(fs: seq<Field>)
    requires |fs| == 4
    ensures PrintAll(fs) == Print(fs[0]) + Print(fs[1]) + Print(fs[2]) + Print(fs[3])
  {
    PrintTwo(fs[..2]);
    PrintTwo(fs[2..]);
    PrintAllConcat(fs[..2], fs[2..]);
    assert fs[..2] + fs[2..] == fs;
  }

  lemma PrintAmount(amount: Option<real>)
    ensures PrintAll(AmountFields(amount)) ==
            if amount.Some? && amount.value > 0.0 then Print(Field("54", PrintFixed(amount.value))) else ""
  {
    if AmountFields(amount) != [] {
      PrintOne(AmountFields(amount)[0]);
    }
  }

  method GeneratePixPayload(q: Request, strip: string -> string) returns (result: Result<string, Error>)
    ensures result == Payload(q, strip)
  {
    var name := Clip(strip(q.merchantName), 25);
    var city := Clip(strip(q.merchantCity), 15);
    var account := Print(Field("00", "br.gov.bcb.pix")) + Print(Field("01", q.pixKey));
    PrintTwo(AccountFields(q.pixKey));
    var additional := Print(Field("05", q.txid));
    PrintOne(AdditionalFields(q.txid)[0]);
    var payload :=
      Print(Field("00", "01"))
      + Print(Field("26", account))
      + Print(Field("52", "0000"))
      + Print(Field("53", "986"));
    assert payload == PrintAll(HeadFields(q)) by {
      PrintFour(HeadFields(q));
    }
    if q.amount.Some? && q.amount.value > 0.0 {
      payload := payload + Print(Field("54", PrintFixed(q.amount.value)));
    }
    assert payload == PrintAll(HeadFields(q)) + PrintAll(AmountFields(q.amount)) by {
      PrintAmount(q.amount);
    }
    payload := payload + (
      Print(Field("58", "BR"))
      + Print(Field("59", name))
      + Print(Field("60", city))
      + Print(Field("62", additional)));
    assert payload == PrintAll(RootFields(q, strip)) by {
      PrintFour(TailFields(q, strip));
      PrintAllConcat(HeadFields(q), AmountFields(q.amount));
      PrintAllConcat(HeadFields(q) + AmountFields(q.amount), TailFields(q, strip));
    }
    payload := payload + "6304";
    var crc := Crc16Ccitt(payload);
    match crc {
      case Success(text) => result := Success(payload + text);
      case Failure(e) => result := Failure(e);
    }
  }

  // ---- Reading a payload back ----

  lemma LengthFour()
    ensures ZeroPad(Numeral(4, 10), 2) == "04"
  {
    assert Numeral(4, 10) == "4";
  }

  /** The last four characters of a text, and the text before them. */
  function Trailer(p: string): string {
    if |p| < 4 then "" else p[|p| - 4..]
  }

  function Body(p: string): string {
    if |p| < 4 then "" else p[..|p| - 4]
  }

  lemma ClosingField(text: string, fs: seq<Field>, crc: string)
    requires text == PrintAll(fs) + "6304" && |crc| == 4
    ensures text + crc == PrintAll(fs + [Field("63", crc)])
    ensures Body(text + crc) == text && Trailer(text + crc) == crc
  {
    LengthFour();
    PrintOne(Field("63", crc));
    PrintAllConcat(fs, [Field("63", crc)]);
    assert "6304" == "63" + "04";
  }

  /** The whole payload is printed fields, the last one the checksum of the text before it. */
  lemma PayloadIsFields(q: Request, strip: string -> string, p: string)
    requires Payload(q, strip) == Success(p)
    ensures |Trailer(p)| == 4 && p == PrintAll(RootFields(q, strip) + [Field("63", Trailer(p))])
    ensures Body(p) == CheckedText(q, strip) && Checksum(Body(p)) == Success(Trailer(p))
  {
    var text := CheckedText(q, strip);
    PrintRegisterIsFourHexDigits(Register(EncodeAscii(text).value));
    ClosingField(text, RootFields(q, strip), Checksum(text).value);
  }

  lemma TemplateLengths(q: Request)
    ensures |PrintAll(AccountFields(q.pixKey))| <= 99 <==> |q.pixKey| <= 77
    ensures |PrintAll(AdditionalFields(q.txid))| <= 99 <==> |q.txid| <= 95
  {
    PrintTwo(AccountFields(q.pixKey));
    PrintLength(AccountFields(q.pixKey)[0]);
    PrintLength(AccountFields(q.pixKey)[1]);
    PrintOne(AdditionalFields(q.txid)[0]);
    PrintLength(AdditionalFields(q.txid)[0]);
  }

  /** No amount, or one that rounds to less than 10^98 centavos. */
  predicate AmountFits(amount: Option<real>) {
    amount.Some? && amount.value > 0.0 ==> RoundHalfEven(amount.value * 100.0) < Pow(10, 98)
  }

  lemma FixedLength(x: real, c: nat)
    requires x > 0.0 && c == RoundHalfEven(Abs(x) * 100.0)
    ensures |PrintFixed(x)| == |Numeral(c / 100, 10)| + 3
  {
    assert Pow(10, 1) == 10 && Pow(10, 2) == 100;
    NumeralFits(c % 100, 10, 2);
  }

  /** Two digits less for the reais than for the centavos. */
  lemma ReaisDigits(c: nat, k: nat)
    requires k >= 1
    ensures |Numeral(c / 100, 10)| <= k <==> c < Pow(10, k + 2)
  {
    NumeralFits(c / 100, 10, k);
    assert Pow(10, k + 1) == 10 * Pow(10, k) && Pow(10, k + 2) == 10 * Pow(10, k + 1);
  }

  lemma FixedFits(x: real, c: nat, k: nat)
    requires x > 0.0 && c == RoundHalfEven(Abs(x) * 100.0) && k >= 1
    ensures |PrintFixed(x)| <= k + 3 <==> c < Pow(10, k + 2)
  {
    FixedLength(x, c);
    ReaisDigits(c, k);
  }

  lemma ShortOne(f: Field)
    ensures Short([f]) <==> |f.value| <= 99
  {
    assert [f][0] == f;
  }

  lemma AmountShortAt(x: real, c: nat, k: nat, bound: nat)
    requires x > 0.0 && c == RoundHalfEven(Abs(x) * 100.0) && k == 96 && bound == Pow(10, k + 2)
    ensures Short([Field("54", PrintFixed(x))]) <==> c < bound
  {
    ShortOne(Field("54", PrintFixed(x)));
    FixedFits(x, c, k);
  }

  /** The text of an amount has at most 99 characters exactly when the amount fits. */
  lemma AmountShortIff(amount: Option<real>)
    ensures Short(AmountFields(amount)) <==> AmountFits(amount)
  {
    if amount.Some? && amount.value > 0.0 {
      AmountShortAt(amount.value, RoundHalfEven(amount.value * 100.0), 96, Pow(10, 98));
    }
  }

  lemma HeadLengths(q: Request)
    ensures (forall i | 0 <= i < 4 :: |HeadFields(q)[i].value| <= 99) <==> |q.pixKey| <= 77
    ensures forall i | 0 <= i < 4 :: |HeadFields(q)[i].tag| == 2
  {
    TemplateLengths(q);
    assert HeadFields(q)[1].value == PrintAll(AccountFields(q.pixKey));
  }

  lemma TailLengths(q: Request, strip: string -> string)
    ensures (forall i | 0 <= i < 4 :: |TailFields(q, strip)[i].value| <= 99) <==> |q.txid| <= 95
    ensures forall i | 0 <= i < 4 :: |TailFields(q, strip)[i].tag| == 2
  {
    TemplateLengths(q);
    assert TailFields(q, strip)[3].value == PrintAll(AdditionalFields(q.txid));
  }

  predicate Short(fs: seq<Field>) {
    forall i | 0 <= i < |fs| :: |fs[i].value| <= 99
  }

  lemma ShortConcat(a: seq<Field>, b: seq<Field>)
    ensures Short(a + b) <==> Short(a) && Short(b)
  {
    if Short(a + b) {
      assert forall i | 0 <= i < |a| :: (a + b)[i] == a[i];
      assert forall i | 0 <= i < |b| :: (a + b)[|a| + i] == b[i];
    }
  }

  lemma RootShort(q: Request, strip: string -> string)
    ensures Short(RootFields(q, strip)) <==> |q.pixKey| <= 77 && |q.txid| <= 95 && AmountFits(q.amount)
  {
    HeadLengths(q);
    TailLengths(q, strip);
    AmountShortIff(q.amount);
    ShortConcat(HeadFields(q) + AmountFields(q.amount), TailFields(q, strip));
    ShortConcat(HeadFields(q), AmountFields(q.amount));
  }

  lemma RootTags(q: Request, strip: string -> string)
    ensures forall i | 0 <= i < |RootFields(q, strip)| :: |RootFields(q, strip)[i].tag| == 2
  {
    HeadLengths(q);
    TailLengths(q, strip);
  }

  lemma ClosedRoundTripIff(root: seq<Field>, last: Field)
    requires forall i | 0 <= i < |root| :: |root[i].tag| == 2
    requires |last.tag| == 2 && |last.value| <= 99
    ensures Parse(PrintAll(root + [last])) == Some(root + [last]) <==> Short(root)
  {
    ShortConcat(root, [last]);
    RoundTripIff(root + [last]);
  }

  /** A reader recovers every field of the payload, and nothing else, exactly when the key has
      at most 77 characters, the transaction id at most 95 and the amount is below 10^96 reais. */
  lemma PayloadRoundTripIff(q: Request, strip: string -> string, p: string)
    requires Payload(q, strip) == Success(p)
    ensures Parse(p) == Some(RootFields(q, strip) + [Field("63", Trailer(p))])
       <==> |q.pixKey| <= 77 && |q.txid| <= 95 && AmountFits(q.amount)
  {
    PayloadIsFields(q, strip, p);
    RootTags(q, strip);
    RootShort(q, strip);
    ClosedRoundTripIff(RootFields(q, strip), Field("63", Trailer(p)));
  }

  /** When the payload reads back, so do the two templates nested in it. */
  lemma TemplatesRoundTrip(q: Request)
    requires |q.pixKey| <= 77 && |q.txid| <= 95
    ensures Parse(PrintAll(AccountFields(q.pixKey))) == Some(AccountFields(q.pixKey))
    ensures Parse(PrintAll(AdditionalFields(q.txid))) == Some(AdditionalFields(q.txid))
  {
    ParsePrintAll(AccountFields(q.pixKey));
    ParsePrintAll(AdditionalFields(q.txid));
  }

  // ---- Refusals and corruption ----

  lemma AsciiConcat(a: string, b: string)
    ensures IsAscii(a + b) <==> IsAscii(a) && IsAscii(b)
  {
    if IsAscii(a + b) {
      assert forall i | 0 <= i < |a| :: (a + b)[i] == a[i];
      assert forall i | 0 <= i < |b| :: (a + b)[|a| + i] == b[i];
    }
  }

  lemma DigitsAscii(s: string)
    requires AllDigits(s, 10)
    ensures IsAscii(s)
  {
    forall i | 0 <= i < |s| ensures s[i] as int < 128 {
      assert s[i] in s;
    }
  }

  lemma PrintAscii(f: Field)
    requires IsAscii(f.tag)
    ensures IsAscii(Print(f)) <==> IsAscii(f.value)
  {
    var n := ZeroPad(Numeral(|f.value|, 10), 2);
    ValueOfZeroPad(Numeral(|f.value|, 10), 2, 10);
    DigitsAscii(n);
    AsciiConcat(f.tag, n);
    AsciiConcat(f.tag + n, f.value);
  }

  ghost predicate AsciiValues(fs: seq<Field>) {
    forall i | 0 <= i < |fs| :: IsAscii(fs[i].value)
  }

  lemma {:induction false} PrintAllAscii(fs: seq<Field>)
    requires forall i | 0 <= i < |fs| :: IsAscii(fs[i].tag)
    ensures IsAscii(PrintAll(fs)) <==> AsciiValues(fs)
  {
    if fs != [] {
      PrintAllAscii(fs[1..]);
      PrintAscii(fs[0]);
      AsciiConcat(Print(fs[0]), PrintAll(fs[1..]));
      assert AsciiValues(fs[1..]) ==> forall i | 1 <= i < |fs| :: fs[i] == fs[1..][i - 1];
      assert AsciiValues(fs) ==> forall i | 0 <= i < |fs| - 1 :: fs[1..][i] == fs[i + 1];
    }
  }

  lemma AmountAscii(amount: Option<real>)
    ensures AsciiValues(AmountFields(amount))
  {
    if AmountFields(amount) != [] {
      var x := amount.value;
      var c: nat := RoundHalfEven(Abs(x) * 100.0);
      DigitsAscii(Numeral(c / 100, 10));
      ValueOfZeroPad(Numeral(c % 100, 10), 2, 10);
      DigitsAscii(CentsText(c));
      AsciiConcat(Sign(x), Numeral(c / 100, 10));
      AsciiConcat(Sign(x) + Numeral(c / 100, 10), ".");
      AsciiConcat(Sign(x) + Numeral(c / 100, 10) + ".", CentsText(c));
    }
  }

  /** The four texts a caller supplies, as they enter the payload. */
  predicate AsciiRequest(q: Request, strip: string -> string) {
    && IsAscii(q.pixKey) && IsAscii(q.txid)
    && IsAscii(Clip(strip(q.merchantName), 25)) && IsAscii(Clip(strip(q.merchantCity), 15))
  }

  lemma HeadAscii(q: Request)
    ensures IsAscii(PrintAll(HeadFields(q))) <==> IsAscii(q.pixKey)
  {
    var account, head := AccountFields(q.pixKey), HeadFields(q);
    PrintAllAscii(account);
    assert account[1].value == q.pixKey;
    assert AsciiValues(account) <==> IsAscii(q.pixKey);
    PrintAllAscii(head);
    assert head[1].value == PrintAll(account);
    assert AsciiValues(head) <==> IsAscii(PrintAll(account));
  }

  lemma TailAscii(q: Request, strip: string -> string)
    ensures IsAscii(PrintAll(TailFields(q, strip)))
       <==> IsAscii(q.txid) && IsAscii(Clip(strip(q.merchantName), 25)) && IsAscii(Clip(strip(q.merchantCity), 15))
  {
    PrintAllAscii(AdditionalFields(q.txid));
    assert AdditionalFields(q.txid)[0].value == q.txid;
    PrintAllAscii(TailFields(q, strip));
    assert TailFields(q, strip)[1].value == Clip(strip(q.merchantName), 25);
    assert TailFields(q, strip)[2].value == Clip(strip(q.merchantCity), 15);
    assert TailFields(q, strip)[3].value == PrintAll(AdditionalFields(q.txid));
  }

  lemma CheckedTextParts(q: Request, strip: string -> string)
    ensures CheckedText(q, strip)
         == PrintAll(HeadFields(q)) + PrintAll(AmountFields(q.amount)) + PrintAll(TailFields(q, strip)) + "6304"
  {
    PrintAllConcat(HeadFields(q), AmountFields(q.amount));
    PrintAllConcat(HeadFields(q) + AmountFields(q.amount), TailFields(q, strip));
  }

  lemma AsciiParts(a: string, b: string, c: string)
    requires IsAscii(b)
    ensures IsAscii(a + b + c + "6304") <==> IsAscii(a) && IsAscii(c)
  {
    AsciiConcat(a, b);
    AsciiConcat(a + b, c);
    AsciiConcat(a + b + c, "6304");
  }

  /** A payload is refused exactly when one of the caller's texts is not ASCII. */
  lemma PayloadSucceedsIff(q: Request, strip: string -> string)
    ensures Payload(q, strip).Success? <==> AsciiRequest(q, strip)
  {
    CheckedTextParts(q, strip);
    AmountAscii(q.amount);
    PrintAllAscii(AmountFields(q.amount));
    HeadAscii(q);
    TailAscii(q, strip);
    AsciiParts(PrintAll(HeadFields(q)), PrintAll(AmountFields(q.amount)), PrintAll(TailFields(q, strip)));
  }

  // ---- Keys just outside the conditions ----

  function Same(s: string): string {
    s
  }

  function LongKey(): string {
    seq(78, _ => 'a')
  }

  /** A key of 78 characters makes a payload that does not read back. */
  lemma LongKeyUnreadable()
    ensures var q := Request(LongKey(), "Rentivo", "SAO PAULO", None, "***");
            && Payload(q, Same).Success?
            && Parse(Payload(q, Same).value) != Some(RootFields(q, Same) + [Field("63", Trailer(Payload(q, Same).value))])
  {
    var q := Request(LongKey(), "Rentivo", "SAO PAULO", None, "***");
    PayloadSucceedsIff(q, Same);
    assert IsAscii("***") && IsAscii("Rentivo") && IsAscii("SAO PAULO");
    PayloadRoundTripIff(q, Same, Payload(q, Same).value);
  }

  /** A key with a letter beyond ASCII makes none. */
  lemma AccentedKeyRefused()
    ensures Payload(Request("\U{E9}", "Rentivo", "SAO PAULO", None, "***"), Same) == Failure(NotAscii)
  {
    PayloadSucceedsIff(Request("\U{E9}", "Rentivo", "SAO PAULO", None, "***"), Same);
    assert "\U{E9}"[0] as int == 0xE9;
  }

  lemma AsciiByteValue(c: char)
    requires c as int < 128
    ensures AsciiByte(c) as int == c as int
  {
  }

  /** Different ASCII texts are different messages. */
  lemma AsciiBytesInjective(s: string, t: string)
    requires IsAscii(s) && IsAscii(t) && AsciiBytes(s) == AsciiBytes(t)
    ensures s == t
  {
    forall i | 0 <= i < |s| ensures s[i] == t[i] {
      assert AsciiBytes(s)[i] == AsciiBytes(t)[i];
      AsciiByteValue(s[i]);
      AsciiByteValue(t[i]);
    }
  }

  /** The bits in which a and b differ lie within sixteen consecutive ones, or are odd in number. */
  ghost predicate SmallChange(a: seq<bv8>, b: seq<bv8>, k: nat)
    requires |a| == |b|
  {
    || (forall e: int :: At(Difference(a, b), e) ==> k <= e < k + 16)
    || Weight(Difference(a, b), 8 * |a|) % 2 == 1
  }

  lemma SmallChangeDetected(a: seq<bv8>, b: seq<bv8>, k: nat)
    requires |a| == |b| && a != b && SmallChange(a, b, k)
    ensures Register(a) != Register(b)
  {
    if Weight(Difference(a, b), 8 * |a|) % 2 == 1 {
      OddErrorDetected(a, b);
    } else {
      BurstDetected(a, b, k);
    }
  }

  /** A reader that recomputes the checksum notices every small change of the text before it. */
  lemma CorruptionNoticed(q: Request, strip: string -> string, p: string, damaged: string, k: nat)
    requires Payload(q, strip) == Success(p)
    requires |damaged| == |p| && damaged != p && Trailer(damaged) == Trailer(p) && IsAscii(damaged)
    requires SmallChange(AsciiBytes(Body(p)), AsciiBytes(Body(damaged)), k)
    ensures Checksum(Body(damaged)) != Success(Trailer(damaged))
  {
    PayloadIsFields(q, strip, p);
    var a, b := AsciiBytes(Body(p)), AsciiBytes(Body(damaged));
    assert p == Body(p) + Trailer(p) && damaged == Body(damaged) + Trailer(damaged);
    if a == b {
      AsciiBytesInjective(Body(p), Body(damaged));
    }
    SmallChangeDetected(a, b, k);
    if Checksum(Body(damaged)) == Success(Trailer(damaged)) {
      PrintRegisterInjective(Register(a), Register(b));
    }
  }
}
