/** Tag-length-value fields of rentivo/pix.py: printing, and a parser to print for. */
module Tlv {
  import opened Numerals
  import opened Wrappers

  datatype Field = Field(tag: string, value: string)

  function Print(f: Field): string {
    f.tag + ZeroPad(Numeral(|f.value|, 10), 2) + f.value
  }

  function PrintAll(fs: seq<Field>): string {
    if fs == [] then "" else Print(fs[0]) + PrintAll(fs[1..])
  }

  /** What a reader makes of a text: two characters of tag, two digits of length, and that
      many characters of value, until nothing is left. */
  function Parse(s: string): Option<seq<Field>> {
    if s == "" then Some([])
    else if |s| < 4 || !AllDigits(s[2..4], 10) then None
    else
      var n := Value(s[2..4], 10);
      if |s| < 4 + n then None
      else match Parse(s[4 + n..])
        case None => None
        case Some(rest) => Some([Field(s[..2], s[4..4 + n])] + rest)
  }

  predicate Fits(f: Field) {
    |f.tag| == 2 && |f.value| <= 99
  }

  predicate AllFit(fs: seq<Field>) {
    forall i | 0 <= i < |fs| :: Fits(fs[i])
  }

  lemma LengthText(n: nat)
    requires n <= 99
    ensures var d := ZeroPad(Numeral(n, 10), 2); |d| == 2 && AllDigits(d, 10) && Value(d, 10) == n
  {
    assert Pow(10, 1) == 10 && Pow(10, 2) == 100;
    NumeralFits(n, 10, 2);
    ValueOfZeroPad(Numeral(n, 10), 2, 10);
    ValueOfNumeral(n, 10);
  }

  /** The length of a printed field is exact up to 99 characters of value and more beyond. */
  lemma PrintLength(f: Field)
    requires |f.tag| == 2
    ensures |Print(f)| >= 4 + |f.value|
    ensures |f.value| <= 99 ==> |Print(f)| == 4 + |f.value|
  {
    if |f.value| <= 99 {
      LengthText(|f.value|);
    }
  }

  lemma ParseFirst(f: Field, rest: string)
    requires Fits(f)
    ensures Parse(Print(f) + rest) ==
            match Parse(rest) { case None => None case Some(fs) => Some([f] + fs) }
  {
    var s, n := Print(f) + rest, |f.value|;
    LengthText(n);
    assert s[..2] == f.tag;
    assert s[2..4] == ZeroPad(Numeral(n, 10), 2);
    assert s[4..4 + n] == f.value;
    assert s[4 + n..] == rest;
  }

  /** Printed fields are read back exactly. */
  lemma {:induction false} ParsePrintAll(fs: seq<Field>)
    requires AllFit(fs)
    ensures Parse(PrintAll(fs)) == Some(fs)
  {
    if fs != [] {
      ParsePrintAll(fs[1..]);
      ParseFirst(fs[0], PrintAll(fs[1..]));
      assert [fs[0]] + fs[1..] == fs;
    }
  }

  lemma ParsedLength(d: string)
    requires |d| == 2 && AllDigits(d, 10)
    ensures Value(d, 10) <= 99
  {
    ValueOfTwoDigits(d, 10);
  }

  /** A reader only ever produces values that fit. */
  lemma {:induction false} ParsedFit(s: string)
    ensures Parse(s).Some? ==> AllFit(Parse(s).value)
  {
    if |s| >= 4 && AllDigits(s[2..4], 10) {
      ParsedLength(s[2..4]);
      var n := Value(s[2..4], 10);
      if |s| >= 4 + n {
        ParsedFit(s[4 + n..]);
      }
    }
  }

  /** Fields with two-character tags survive printing and reading exactly when every value
      has at most 99 characters. */
  lemma RoundTripIff(fs: seq<Field>)
    requires forall i | 0 <= i < |fs| :: |fs[i].tag| == 2
    ensures Parse(PrintAll(fs)) == Some(fs) <==> forall i | 0 <= i < |fs| :: |fs[i].value| <= 99
  {
    if forall i | 0 <= i < |fs| :: |fs[i].value| <= 99 {
      ParsePrintAll(fs);
    }
    ParsedFit(PrintAll(fs));
  }

  lemma {:induction false} PrintAllConcat(a: seq<Field>, b: seq<Field>)
    ensures PrintAll(a + b) == PrintAll(a) + PrintAll(b)
  {
    if a == [] {
      assert a + b == b;
    } else {
      assert (a + b)[0] == a[0] && (a + b)[1..] == a[1..] + b;
      PrintAllConcat(a[1..], b);
    }
  }

  lemma SameLengthSameValue(d: string, e: string)
    requires |d| == |e| == 2 && AllDigits(d, 10) && AllDigits(e, 10)
    requires Value(d, 10) == Value(e, 10)
    ensures d == e
  {
    ValueOfTwoDigits(d, 10);
    ValueOfTwoDigits(e, 10);
    DigitInjective(d[0], e[0]);
    DigitInjective(d[1], e[1]);
  }

  lemma PrintFirst(s: string, n: nat)
    requires |s| >= 4 + n && AllDigits(s[2..4], 10) && n == Value(s[2..4], 10)
    ensures Print(Field(s[..2], s[4..4 + n])) == s[..4 + n]
  {
    ParsedLength(s[2..4]);
    LengthText(n);
    SameLengthSameValue(s[2..4], ZeroPad(Numeral(n, 10), 2));
  }

  /** Nothing else reads as these fields: a text that parses is the print of its fields. */
  lemma {:induction false} PrintParse(s: string)
    requires Parse(s).Some?
    ensures PrintAll(Parse(s).value) == s
  {
    if s != "" {
      var n := Value(s[2..4], 10);
      var rest := s[4 + n..];
      PrintParse(rest);
      PrintFirst(s, n);
      assert Parse(s).value[1..] == Parse(rest).value;
      assert s == s[..4 + n] + rest;
    }
  }

  // ---- Looking a field up ----

  /** The value of the first field with a tag. */
  function FindTag(fs: seq<Field>, tag: string): Option<string> {
    if fs == [] then None
    else if fs[0].tag == tag then Some(fs[0].value)
    else FindTag(fs[1..], tag)
  }

  lemma {:induction false} FindNone(fs: seq<Field>, tag: string)
    requires forall i | 0 <= i < |fs| :: fs[i].tag != tag
    ensures FindTag(fs, tag) == None
  {
    if fs != [] {
      FindNone(fs[1..], tag);
    }
  }

  lemma {:induction false} FindAt(fs: seq<Field>, i: nat, tag: string)
    requires i < |fs| && fs[i].tag == tag
    requires forall j | 0 <= j < i :: fs[j].tag != tag
    ensures FindTag(fs, tag) == Some(fs[i].value)
  {
    if i > 0 {
      FindAt(fs[1..], i - 1, tag);
    }
  }

  /** The value of a field nested in the value of another. */
  function FindNested(fs: seq<Field>, tag: string, inner: string): Option<string> {
    match FindTag(fs, tag)
    case None => None
    case Some(template) =>
      match Parse(template)
      case None => None
      case Some(nested) => FindTag(nested, inner)
  }
}
