/** Money text of rentivo/models/__init__.py: centavos printed through a float and a
    thousands format, and parsed back through floats.

    A float operation is a function fl from exact reals to the float it returns, with a
    relative error of at most 2^-53; nothing else is assumed about its rounding. */
module Money {
  import opened Numerals
  import opened Texts
  import opened Wrappers

  // ---- Floats ----

  function Abs(x: real): real {
    if x < 0.0 then -x else x
  }

  /** The size of x divided by 2^53: how far one rounding can be off. */
  function Slack(x: real): real {
    Abs(x) / 9007199254740992.0
  }

  ghost predicate IsFloat(fl: real -> real) {
    forall x: real :: Abs(fl(x) - x) <= Slack(x)
  }

  /** Python's round, and the rounding of its decimal formats. */
  function RoundHalfEven(x: real): int {
    var low := x.Floor;
    var rest := x - low as real;
    if rest < 0.5 then low
    else if rest > 0.5 then low + 1
    else if low % 2 == 0 then low else low + 1
  }

  lemma RoundsToNearest(x: real, n: int)
    requires Abs(x - n as real) < 0.5
    ensures RoundHalfEven(x) == n
  {
  }

  /** Halves go to the even neighbour. */
  lemma HalfToEven(n: int)
    ensures RoundHalfEven(n as real + 0.5) == if n % 2 == 0 then n else n + 1
  {
    assert (n as real + 0.5).Floor == n;
  }

  // ---- Printing ----

  /** Groups of three digits from the right, separated by commas. */
  function Group(digits: string): string {
    if |digits| <= 3 then digits
    else Group(digits[..|digits| - 3]) + "," + digits[|digits| - 3..]
  }

  function CentsText(c: nat): string {
    ZeroPad(Numeral(c % 100, 10), 2)
  }

  function Sign(x: real): string {
    if x < 0.0 then "-" else ""
  }

  /** The format .2f. */
  function PrintFixed(x: real): string {
    var c: nat := RoundHalfEven(Abs(x) * 100.0);
    Sign(x) + Numeral(c / 100, 10) + "." + CentsText(c)
  }

  /** The format ,.2f. */
  function PrintGrouped(x: real): string {
    var c: nat := RoundHalfEven(Abs(x) * 100.0);
    Sign(x) + Group(Numeral(c / 100, 10)) + "." + CentsText(c)
  }

  function FormatBrlInput(fl: real -> real, centavos: int): string {
    var reais := fl(centavos as real / 100.0);
    Replace(Replace(Replace(PrintGrouped(reais), ',', 'X'), '.', ','), 'X', '.')
  }

  /** The default text of the command line's edit prompt. */
  function FormatAmountInput(fl: real -> real, centavos: int): string {
    PrintFixed(fl(centavos as real / 100.0))
  }

  // ---- Parsing ----

  predicate IsSpace(c: char) {
    c == ' ' || '\t' <= c <= '\r'
  }

  function Strip(s: string): string {
    if s == [] then s
    else if IsSpace(s[0]) then Strip(s[1..])
    else if IsSpace(s[|s| - 1]) then Strip(s[..|s| - 1])
    else s
  }

  /** x divided by 10^k. */
  function ScaleDown(x: real, k: nat): real {
    if k == 0 then x else ScaleDown(x, k - 1) / 10.0
  }

  /** Digits with at most one point among them. */
  function ParseUnsigned(s: string): Option<real> {
    var k := IndexOf(s, '.');
    var whole, fraction := s[..k], if k < |s| then s[k + 1..] else [];
    if whole + fraction == [] || !AllDigits(whole + fraction, 10) then None
    else Some(ScaleDown(Value(whole + fraction, 10) as real, |fraction|))
  }

  /** The number written by a decimal text, or None where float() raises. */
  function ParseDecimal(s: string): Option<real> {
    if s != [] && s[0] == '-' then
      match ParseUnsigned(s[1..])
      case Some(x) => Some(-x)
      case None => None
    else if s != [] && s[0] == '+' then ParseUnsigned(s[1..])
    else ParseUnsigned(s)
  }

  function ParseBrl(fl: real -> real, text: string): Option<int> {
    var stripped := Strip(text);
    if stripped == [] then None
    else
      var dotted := if ',' in stripped then Replace(Remove(stripped, '.'), ',', '.') else stripped;
      match ParseDecimal(dotted)
      case None => None
      case Some(x) => Some(RoundHalfEven(fl(fl(x) * 100.0)))
  }

  // ---- The float steps are exact after rounding ----

  /** The quotient is off by one rounding of the centavos. */
  lemma NearQuotient(x: real, read: real)
    requires Abs(x) <= 2251799813685247.0 && Abs(read - x / 100.0) <= Slack(x / 100.0)
    ensures Abs(read * 100.0 - x) <= Slack(x) < 0.25
  {
  }

  /** The product is off by one more. */
  lemma NearProduct(x: real, q: real, p: real)
    requires Abs(x) <= 2251799813685247.0 && Abs(q - x) <= Slack(x) && Abs(p - q) <= Slack(q)
    ensures Abs(p - x) < 0.5
  {
  }

  lemma QuotientRoundsBack(fl: real -> real, n: int)
    requires IsFloat(fl) && -0x8_0000_0000_0000 < n < 0x8_0000_0000_0000
    ensures var q := fl(n as real / 100.0);
            RoundHalfEven(Abs(q) * 100.0) == (if n < 0 then -n else n) && (q < 0.0 <==> n < 0)
  {
    var x := n as real;
    var read := fl(x / 100.0);
    NearQuotient(x, read);
    RoundsToNearest(Abs(read) * 100.0, if n < 0 then -n else n);
  }

  lemma ProductRoundsBack(fl: real -> real, n: int)
    requires IsFloat(fl) && -0x8_0000_0000_0000 < n < 0x8_0000_0000_0000
    ensures RoundHalfEven(fl(fl(n as real / 100.0) * 100.0)) == n
  {
    var x := n as real;
    var read := fl(x / 100.0);
    NearQuotient(x, read);
    NearProduct(x, read * 100.0, fl(read * 100.0));
    RoundsToNearest(fl(read * 100.0), n);
  }

  // ---- The text survives the swap ----

  /** What FormatBrlInput's three replacements do to a grouped number. */
  function Swap(s: string): string {
    Replace(Replace(Replace(s, ',', 'X'), '.', ','), 'X', '.')
  }

  lemma DigitsArePlain(s: string)
    requires AllDigits(s, 10)
    ensures ',' !in s && '.' !in s && 'X' !in s && '-' !in s && '+' !in s
    ensures forall c <- s :: !IsSpace(c)
  {
  }

  lemma SwapConcat(a: string, b: string)
    ensures Swap(a + b) == Swap(a) + Swap(b)
  {
  }

  lemma SwapPlain(s: string)
    requires ',' !in s && '.' !in s && 'X' !in s
    ensures Swap(s) == s
  {
    assert forall i | 0 <= i < |s| :: s[i] in s;
  }

  lemma SwapGroupStep(front: string, last: string)
    requires AllDigits(last, 10)
    ensures Swap(front + "," + last) == Swap(front) + "." + last
  {
    SwapConcat(front + ",", last);
    SwapConcat(front, ",");
    DigitsArePlain(last);
    SwapPlain(last);
    assert Swap(",") == ".";
  }

  lemma RemoveGroupStep(front: string, last: string, plain: string)
    requires Remove(front, '.') == plain && '.' !in last
    ensures Remove(front + "." + last, '.') == plain + last
  {
    RemoveConcat(front + ".", last, '.');
    RemoveConcat(front, ".", '.');
    RemoveAbsent(last, '.');
    assert Remove(front + ".", '.') == plain + [];
    assert plain + [] == plain;
  }

  /** Removing the points undoes the grouping. */
  lemma {:induction false} UngroupSwapped(digits: string)
    requires AllDigits(digits, 10)
    ensures Remove(Swap(Group(digits)), '.') == digits
    ensures ',' !in Swap(Group(digits))
  {
    DigitsArePlain(digits);
    if |digits| <= 3 {
      SwapPlain(digits);
      RemoveAbsent(digits, '.');
    } else {
      var front, last := digits[..|digits| - 3], digits[|digits| - 3..];
      UngroupSwapped(front);
      SwapGroupStep(Group(front), last);
      DigitsArePlain(last);
      RemoveGroupStep(Swap(Group(front)), last, front);
      assert front + last == digits;
    }
  }

  lemma ValueOfTwoMore(s: string, d: string)
    requires AllDigits(s, 10) && AllDigits(d, 10) && |d| == 2
    ensures AllDigits(s + d, 10) && Value(s + d, 10) == 100 * Value(s, 10) + Value(d, 10)
  {
    assert s + d == (s + [d[0]]) + [d[1]];
    ValueOfSnoc(s, d[0], 10);
    ValueOfSnoc(s + [d[0]], d[1], 10);
    ValueOfTwoDigits(d, 10);
  }

  lemma ParsePoint(whole: string, fraction: string)
    requires whole != [] && AllDigits(whole, 10) && AllDigits(fraction, 10)
    ensures AllDigits(whole + fraction, 10)
    ensures ParseUnsigned(whole + "." + fraction)
         == Some(ScaleDown(Value(whole + fraction, 10) as real, |fraction|))
  {
    DigitsArePlain(whole);
    IndexOfAfter(whole, '.', fraction);
    var s := whole + "." + fraction;
    assert s[..|whole|] == whole && s[|whole| + 1..] == fraction;
  }

  /** The sign, the digits of the reais and the two digits of the centavos. */
  predicate Pieces(sign: string, whole: string, d: string) {
    && (sign == "" || sign == "-")
    && whole != [] && AllDigits(whole, 10)
    && |d| == 2 && AllDigits(d, 10)
  }

  lemma ScaleDownTwice(x: real)
    ensures ScaleDown(x, 2) == x / 100.0
  {
    assert ScaleDown(x, 1) == x / 10.0;
  }

  lemma ParseTwoDecimals(whole: string, d: string)
    requires Pieces("", whole, d)
    ensures ParseUnsigned(whole + "." + d) == Some((100 * Value(whole, 10) + Value(d, 10)) as real / 100.0)
  {
    ParsePoint(whole, d);
    ValueOfTwoMore(whole, d);
    ScaleDownTwice(Value(whole + d, 10) as real);
  }

  lemma Reassociate(a: string, b: string, c: string, d: string)
    ensures a + b + c + d == a + (b + c + d)
  {
  }

  /** The centavos that the pieces stand for. */
  function PiecesValue(sign: string, whole: string, d: string): int
    requires Pieces(sign, whole, d)
  {
    var c := 100 * Value(whole, 10) + Value(d, 10);
    if sign == "-" then -c else c
  }

  lemma NegativeOver(c: int)
    ensures (-c) as real / 100.0 == -(c as real / 100.0)
  {
  }

  lemma StartsWithDigit(whole: string, rest: string)
    requires whole != [] && AllDigits(whole, 10)
    ensures whole + rest != [] && (whole + rest)[0] != '-' && (whole + rest)[0] != '+'
  {
    assert whole[0] in whole;
  }

  lemma ParsePieces(sign: string, whole: string, d: string)
    requires Pieces(sign, whole, d)
    ensures ParseDecimal(sign + whole + "." + d) == Some(PiecesValue(sign, whole, d) as real / 100.0)
  {
    var c := 100 * Value(whole, 10) + Value(d, 10);
    var plain := whole + "." + d;
    ParseTwoDecimals(whole, d);
    assert plain == whole + ("." + d);
    StartsWithDigit(whole, "." + d);
    ParseSigned(sign, plain, c as real / 100.0);
    NegativeOver(c);
    Reassociate(sign, whole, ".", d);
  }

  lemma ParseSigned(sign: string, unsigned: string, x: real)
    requires sign == "" || sign == "-"
    requires unsigned != [] && unsigned[0] != '-' && unsigned[0] != '+'
    requires ParseUnsigned(unsigned) == Some(x)
    ensures ParseDecimal(sign + unsigned) == Some(if sign == "-" then -x else x)
  {
    assert sign == "-" ==> (sign + unsigned)[1..] == unsigned;
    assert sign == "" ==> sign + unsigned == unsigned;
  }

  /** Space, tab, line feed, vertical tab, form feed and carriage return. */
  predicate Blank(s: string) {
    forall i | 0 <= i < |s| :: s[i] as int in {32, 9, 10, 11, 12, 13}
  }

  predicate Trim(s: string) {
    s != [] && !IsSpace(s[0]) && !IsSpace(s[|s| - 1])
  }

  lemma {:induction false} StripPadding(before: string, s: string, after: string)
    requires Blank(before) && Trim(s) && Blank(after)
    ensures Strip(before + s + after) == s
    decreases |before| + |after|
  {
    var all := before + s + after;
    if before != [] {
      assert all[1..] == before[1..] + s + after;
      StripPadding(before[1..], s, after);
    } else if after != [] {
      assert all[0] == s[0];
      assert all[..|all| - 1] == before + s + after[..|after| - 1];
      StripPadding(before, s, after[..|after| - 1]);
    } else {
      assert all == s;
    }
  }

  lemma DottedTrim(sign: string, whole: string, d: string)
    requires Pieces(sign, whole, d)
    ensures var s := sign + whole + "." + d; Trim(s) && ',' !in s
  {
    DigitsArePlain(whole);
    DigitsArePlain(d);
    var s := sign + whole + "." + d;
    assert s[|s| - 1] == d[1] && d[1] in d;
    assert whole[0] in whole;
    assert s[0] == (if sign == "-" then '-' else whole[0]);
  }

  /** The grouped text, after the swap. */
  lemma SwappedText(sign: string, whole: string, d: string)
    requires Pieces(sign, whole, d)
    ensures Swap(sign + Group(whole) + "." + d) == sign + Swap(Group(whole)) + "," + d
  {
    DigitsArePlain(d);
    SwapConcat(sign + Group(whole) + ".", d);
    SwapConcat(sign + Group(whole), ".");
    SwapConcat(sign, Group(whole));
    SwapPlain(sign);
    SwapPlain(d);
    assert Swap(".") == ",";
  }

  lemma RemovePoints(sign: string, grouped: string, digits: string, d: string)
    requires '.' !in sign && Remove(grouped, '.') == digits && '.' !in d
    ensures Remove(sign + grouped + "," + d, '.') == sign + digits + "," + d
  {
    RemoveConcat(sign + grouped + ",", d, '.');
    RemoveConcat(sign + grouped, ",", '.');
    RemoveConcat(sign, grouped, '.');
    RemoveAbsent(sign, '.');
    RemoveAbsent(",", '.');
    RemoveAbsent(d, '.');
  }

  lemma CommaToPoint(a: string, b: string)
    requires ',' !in a && ',' !in b
    ensures Replace(a + "," + b, ',', '.') == a + "." + b
  {
    assert forall i | 0 <= i < |a| :: a[i] in a;
    assert forall i | 0 <= i < |b| :: b[i] in b;
  }

  /** Dropping the points and reading the comma as a point leaves the plain number. */
  lemma UnswappedText(sign: string, whole: string, d: string)
    requires Pieces(sign, whole, d)
    ensures Replace(Remove(sign + Swap(Group(whole)) + "," + d, '.'), ',', '.') == sign + whole + "." + d
  {
    UngroupSwapped(whole);
    DigitsArePlain(whole);
    DigitsArePlain(d);
    RemovePoints(sign, Swap(Group(whole)), whole, d);
    CommaToPoint(sign + whole, d);
  }

  lemma {:induction false} GroupEnds(digits: string)
    requires AllDigits(digits, 10) && digits != []
    ensures Group(digits) != [] && Swap(Group(digits))[0] == digits[0]
  {
    DigitsArePlain(digits);
    if |digits| > 3 {
      GroupEnds(digits[..|digits| - 3]);
    }
  }

  lemma SwappedTrim(sign: string, whole: string, d: string)
    requires Pieces(sign, whole, d)
    ensures var t := sign + Swap(Group(whole)) + "," + d; Trim(t) && ',' in t
  {
    GroupEnds(whole);
    DigitsArePlain(whole);
    DigitsArePlain(d);
    var t := sign + Swap(Group(whole)) + "," + d;
    assert t[|t| - 1] == d[1] && d[1] in d && t[|t| - 3] == ',';
    assert t[0] == (if sign == "" then whole[0] else '-') && whole[0] in whole;
  }

  /** 3, 7, 11 and so on. */
  predicate Fourth(i: nat) {
    i == 3 || (i >= 4 && Fourth(i - 4))
  }

  lemma {:induction false} FourthIff(i: nat)
    ensures Fourth(i) <==> i % 4 == 3
  {
    if i >= 4 {
      FourthIff(i - 4);
      var q, r := (i - 4) / 4, (i - 4) % 4;
      assert i - 4 == 4 * q + r && i == 4 * (q + 1) + r;
    }
  }

  lemma NoComma(digits: string, k: nat)
    requires AllDigits(digits, 10) && k < |digits|
    ensures digits[k] != ','
  {
    assert digits[k] in digits;
  }

  /** The characters from the right of a text with one more group. */
  lemma FromRight(front: string, last: string, i: nat)
    requires |last| == 3 && i < |front| + 4
    ensures var g := front + "," + last;
            g[|g| - 1 - i] == if i < 3 then last[2 - i] else if i == 3 then ',' else front[|front| + 3 - i]
  {
  }

  lemma {:induction false} GroupCommas(digits: string, i: nat)
    requires AllDigits(digits, 10) && i < |Group(digits)|
    ensures Group(digits)[|Group(digits)| - 1 - i] == ',' <==> Fourth(i)
  {
    if |digits| <= 3 {
      NoComma(digits, |digits| - 1 - i);
    } else {
      var front, last := digits[..|digits| - 3], digits[|digits| - 3..];
      FromRight(Group(front), last, i);
      if i < 3 {
        NoComma(last, 2 - i);
      } else if i >= 4 {
        GroupCommas(front, i - 4);
      }
    }
  }

  /** Counted from the right, every fourth character is a separator and no other is. */
  lemma GroupShape(digits: string, i: nat)
    requires AllDigits(digits, 10) && i < |Group(digits)|
    ensures Group(digits)[|Group(digits)| - 1 - i] == ',' <==> i % 4 == 3
  {
    GroupCommas(digits, i);
    FourthIff(i);
  }

  // ---- The round trips ----

  /** The pipeline of ParseBrl on a text whose parts are known. */
  lemma ParseStages(fl: real -> real, text: string, stripped: string, dotted: string, x: real)
    requires Strip(text) == stripped && stripped != []
    requires dotted == if ',' in stripped then Replace(Remove(stripped, '.'), ',', '.') else stripped
    requires ParseDecimal(dotted) == Some(x)
    ensures ParseBrl(fl, text) == Some(RoundHalfEven(fl(fl(x) * 100.0)))
  {
  }

  lemma ParseSteps(fl: real -> real, text: string, stripped: string, dotted: string, n: int)
    requires IsFloat(fl) && -0x8_0000_0000_0000 < n < 0x8_0000_0000_0000
    requires Strip(text) == stripped && stripped != []
    requires dotted == if ',' in stripped then Replace(Remove(stripped, '.'), ',', '.') else stripped
    requires ParseDecimal(dotted) == Some(n as real / 100.0)
    ensures ParseBrl(fl, text) == Some(n)
  {
    ParseStages(fl, text, stripped, dotted, n as real / 100.0);
    ProductRoundsBack(fl, n);
  }

  lemma CentsPieces(c: nat) returns (whole: string, d: string)
    ensures Pieces("", whole, d) && 100 * Value(whole, 10) + Value(d, 10) == c
    ensures whole == Numeral(c / 100, 10) && d == CentsText(c)
  {
    whole, d := Numeral(c / 100, 10), ZeroPad(Numeral(c % 100, 10), 2);
    assert Pow(10, 1) == 10 && Pow(10, 2) == 100;
    NumeralFits(c % 100, 10, 2);
    ValueOfZeroPad(Numeral(c % 100, 10), 2, 10);
    ValueOfNumeral(c % 100, 10);
    ValueOfNumeral(c / 100, 10);
  }

  /** The text of a float that is the given centavos after rounding. */
  lemma PrintedText(x: real, c: nat, sign: string, whole: string, d: string)
    requires RoundHalfEven(Abs(x) * 100.0) == c && sign == Sign(x)
    requires whole == Numeral(c / 100, 10) && d == CentsText(c)
    ensures PrintFixed(x) == sign + whole + "." + d
    ensures PrintGrouped(x) == sign + Group(whole) + "." + d
  {
  }

  lemma QuotientText(fl: real -> real, n: int, c: nat, sign: string, whole: string, d: string)
    requires IsFloat(fl) && -0x8_0000_0000_0000 < n < 0x8_0000_0000_0000
    requires c == (if n < 0 then -n else n) && sign == (if n < 0 then "-" else "")
    requires whole == Numeral(c / 100, 10) && d == CentsText(c)
    ensures FormatBrlInput(fl, n) == Swap(sign + Group(whole) + "." + d)
    ensures FormatAmountInput(fl, n) == sign + whole + "." + d
  {
    QuotientRoundsBack(fl, n);
    PrintedText(fl(n as real / 100.0), c, sign, whole, d);
  }

  /** The pieces of the text of an amount. */
  lemma PrintedPieces(fl: real -> real, n: int) returns (sign: string, whole: string, d: string)
    requires IsFloat(fl) && -0x8_0000_0000_0000 < n < 0x8_0000_0000_0000
    ensures Pieces(sign, whole, d) && PiecesValue(sign, whole, d) == n
    ensures FormatBrlInput(fl, n) == Swap(sign + Group(whole) + "." + d)
    ensures FormatAmountInput(fl, n) == sign + whole + "." + d
  {
    sign := if n < 0 then "-" else "";
    whole, d := CentsPieces(if n < 0 then -n else n);
    QuotientText(fl, n, if n < 0 then -n else n, sign, whole, d);
  }

  /** The text shown in a form field parses back to the amount it was printed from, also with
      blanks around it, whatever the rounding of the float operations. */
  lemma FormTextRoundTrip(fl: real -> real, n: int, before: string, after: string)
    requires IsFloat(fl) && -0x8_0000_0000_0000 < n < 0x8_0000_0000_0000
    requires Blank(before) && Blank(after)
    ensures ParseBrl(fl, before + FormatBrlInput(fl, n) + after) == Some(n)
  {
    var text := FormatBrlInput(fl, n);
    var plain := FormTextReads(fl, n);
    StripPadding(before, text, after);
    ParseSteps(fl, before + text + after, text, plain, n);
  }

  /** The plain decimal that the parser makes of the form text of an amount. */
  lemma FormTextReads(fl: real -> real, n: int) returns (plain: string)
    requires IsFloat(fl) && -0x8_0000_0000_0000 < n < 0x8_0000_0000_0000
    ensures var text := FormatBrlInput(fl, n);
            && Trim(text) && ',' in text
            && Replace(Remove(text, '.'), ',', '.') == plain
            && ParseDecimal(plain) == Some(n as real / 100.0)
  {
    var sign, whole, d := PrintedPieces(fl, n);
    plain := sign + whole + "." + d;
    FormTextStages(FormatBrlInput(fl, n), sign, whole, d, plain, n);
  }

  /** What the parser makes of a form text. */
  lemma FormTextStages(text: string, sign: string, whole: string, d: string, plain: string, n: int)
    requires Pieces(sign, whole, d) && PiecesValue(sign, whole, d) == n
    requires text == Swap(sign + Group(whole) + "." + d) && plain == sign + whole + "." + d
    ensures Trim(text) && ',' in text
    ensures Replace(Remove(text, '.'), ',', '.') == plain
    ensures ParseDecimal(plain) == Some(n as real / 100.0)
  {
    SwappedText(sign, whole, d);
    SwappedTrim(sign, whole, d);
    UnswappedText(sign, whole, d);
    ParsePieces(sign, whole, d);
  }

  /** A text without a comma is read as it stands. */
  lemma ParsePlain(fl: real -> real, before: string, text: string, after: string, n: int)
    requires IsFloat(fl) && -0x8_0000_0000_0000 < n < 0x8_0000_0000_0000
    requires Blank(before) && Blank(after) && Trim(text) && ',' !in text
    requires ParseDecimal(text) == Some(n as real / 100.0)
    ensures ParseBrl(fl, before + text + after) == Some(n)
  {
    StripPadding(before, text, after);
    ParseSteps(fl, before + text + after, text, text, n);
  }

  /** So does the dotted default text of the command line. */
  lemma AmountTextRoundTrip(fl: real -> real, n: int, before: string, after: string)
    requires IsFloat(fl) && -0x8_0000_0000_0000 < n < 0x8_0000_0000_0000
    requires Blank(before) && Blank(after)
    ensures ParseBrl(fl, before + FormatAmountInput(fl, n) + after) == Some(n)
  {
    var sign, whole, d := PrintedPieces(fl, n);
    var text := FormatAmountInput(fl, n);
    assert Trim(text) && ',' !in text by {
      DottedTrim(sign, whole, d);
    }
    assert ParseDecimal(text) == Some(n as real / 100.0) by {
      ParsePieces(sign, whole, d);
    }
    ParsePlain(fl, before, text, after, n);
  }

  lemma HundredOver(v: nat)
    ensures (100 * v) as real / 100.0 == v as real
  {
  }

  lemma ParseWhole(s: string, n: nat)
    requires s != [] && AllDigits(s, 10) && n == 100 * Value(s, 10)
    ensures ParseDecimal(s) == Some(n as real / 100.0) && Trim(s) && ',' !in s
  {
    DigitsArePlain(s);
    assert s[0] in s && s[|s| - 1] in s;
    IndexOfAbsent(s, '.');
    assert s[..|s|] == s && s + [] == s;
    assert ScaleDown(Value(s, 10) as real, 0) == Value(s, 10) as real;
    HundredOver(Value(s, 10));
  }

  /** Reais typed without cents are read as that many reais. */
  lemma WholeTextParses(fl: real -> real, before: string, s: string, after: string, n: nat)
    requires IsFloat(fl) && s != [] && AllDigits(s, 10)
    requires n == 100 * Value(s, 10) && n < 0x8_0000_0000_0000
    requires Blank(before) && Blank(after)
    ensures ParseBrl(fl, before + s + after) == Some(n)
  {
    ParseWhole(s, n);
    ParsePlain(fl, before, s, after, n);
  }

  lemma ScaleDownThrice(x: real)
    ensures ScaleDown(x, 3) == x / 1000.0
  {
    assert ScaleDown(x, 1) == x / 10.0;
    ScaleDownTwice(x);
  }

  /** Reais and cents with a comma, as people type them: with or without points between thousands
      and with a sign. */
  lemma CommaTextParses(fl: real -> real, before: string, sign: string, whole: string, d: string, after: string, n: int)
    requires IsFloat(fl) && Pieces(sign, whole, d) && n == PiecesValue(sign, whole, d)
    requires -0x8_0000_0000_0000 < n < 0x8_0000_0000_0000 && Blank(before) && Blank(after)
    ensures ParseBrl(fl, before + (sign + whole + "," + d) + after) == Some(n)
    ensures ParseBrl(fl, before + (sign + Swap(Group(whole)) + "," + d) + after) == Some(n)
    ensures ParseBrl(fl, before + (sign + whole + "." + d) + after) == Some(n)
  {
    var plain, comma, grouped := sign + whole + "." + d, sign + whole + "," + d, sign + Swap(Group(whole)) + "," + d;
    assert ParseDecimal(plain) == Some(n as real / 100.0) by {
      ParsePieces(sign, whole, d);
    }
    CommaText(sign, whole, d);
    CommaStages(fl, before, comma, after, plain, n);
    UnswappedText(sign, whole, d);
    SwappedTrim(sign, whole, d);
    CommaStages(fl, before, grouped, after, plain, n);
    assert Trim(plain) && ',' !in plain by {
      DottedTrim(sign, whole, d);
    }
    ParsePlain(fl, before, plain, after, n);
  }

  lemma CommaStages(fl: real -> real, before: string, text: string, after: string, plain: string, n: int)
    requires IsFloat(fl) && -0x8_0000_0000_0000 < n < 0x8_0000_0000_0000 && Blank(before) && Blank(after)
    requires Trim(text) && ',' in text && Replace(Remove(text, '.'), ',', '.') == plain
    requires ParseDecimal(plain) == Some(n as real / 100.0)
    ensures ParseBrl(fl, before + text + after) == Some(n)
  {
    StripPadding(before, text, after);
    ParseSteps(fl, before + text + after, text, plain, n);
  }

  lemma CommaText(sign: string, whole: string, d: string)
    requires Pieces(sign, whole, d)
    ensures var t := sign + whole + "," + d;
            Trim(t) && ',' in t && Replace(Remove(t, '.'), ',', '.') == sign + whole + "." + d
  {
    var t := sign + whole + "," + d;
    DigitsArePlain(whole);
    DigitsArePlain(d);
    RemoveAbsent(whole, '.');
    RemovePoints(sign, whole, whole, d);
    CommaToPoint(sign + whole, d);
    assert t[|t| - 1] == d[1] && d[1] in d && t[|t| - 3] == ',';
    assert t[0] == (if sign == "" then whole[0] else '-') && whole[0] in whole;
  }

  /** Which texts are decimals: digits with at most one point among them, and at least one digit. */
  lemma UnsignedIff(s: string)
    ensures ParseUnsigned(s).Some? <==> Decimal(s)
  {
    var k := IndexOf(s, '.');
    if k < |s| {
      assert s == s[..k] + "." + s[k + 1..];
      if ParseUnsigned(s).Some? {
        SplitDigits(s[..k], s[k + 1..]);
        assert Decimal(s);
      }
    } else {
      assert s[..k] == s && s + [] == s;
      assert ParseUnsigned(s).Some? ==> Decimal(s);
    }
    if Decimal(s) {
      DecimalReads(s);
    }
  }

  /** A sign before a decimal keeps or negates it. */
  lemma SignedText(s: string)
    requires Decimal(s)
    ensures ParseUnsigned(s).Some? && ParseDecimal(s) == ParseUnsigned(s)
    ensures ParseDecimal("+" + s) == ParseUnsigned(s) && ParseDecimal("-" + s) == Some(-ParseUnsigned(s).value)
  {
    DecimalReads(s);
    assert ("+" + s)[1..] == s && ("-" + s)[1..] == s;
    assert s[0] != '-' && s[0] != '+' by {
      if s != [] && AllDigits(s, 10) {
        assert s[0] in s;
      } else {
        var whole: string, fraction: string :|
          s == whole + "." + fraction && AllDigits(whole, 10) && AllDigits(fraction, 10) && whole + fraction != [];
        assert whole != [] ==> whole[0] in whole;
      }
    }
  }

  ghost predicate Decimal(s: string) {
    || (s != [] && AllDigits(s, 10))
    || exists whole: string, fraction: string ::
         s == whole + "." + fraction && AllDigits(whole, 10) && AllDigits(fraction, 10) && whole + fraction != []
  }

  lemma SplitDigits(a: string, b: string)
    requires AllDigits(a + b, 10)
    ensures AllDigits(a, 10) && AllDigits(b, 10)
  {
    forall c | c in a ensures IsDigit(c, 10) {
      assert c in a + b;
    }
    forall c | c in b ensures IsDigit(c, 10) {
      assert c in a + b;
    }
  }

  lemma DecimalReads(s: string)
    requires Decimal(s)
    ensures ParseUnsigned(s).Some?
  {
    if s != [] && AllDigits(s, 10) {
      DigitsArePlain(s);
      IndexOfAbsent(s, '.');
      assert s[..|s|] == s && s + [] == s;
    } else {
      var whole: string, fraction: string :|
        s == whole + "." + fraction && AllDigits(whole, 10) && AllDigits(fraction, 10) && whole + fraction != [];
      DigitsArePlain(whole);
      IndexOfAfter(whole, '.', fraction);
      assert s[..|whole|] == whole && s[|whole| + 1..] == fraction;
    }
  }

  // ---- Grouped reais without cents ----

  /** Reais as a person writes them: 2.850 for 2850. */
  function GroupedReais(n: nat): string {
    Swap(Group(Numeral(n, 10)))
  }

  /** A text of three digits or less stays as it is; a longer one gets a point before its last
      three digits. */
  lemma GroupedDigits(digits: string)
    requires AllDigits(digits, 10)
    ensures Swap(Group(digits)) ==
            if |digits| <= 3 then digits
            else Swap(Group(digits[..|digits| - 3])) + "." + digits[|digits| - 3..]
  {
    DigitsArePlain(digits);
    if |digits| <= 3 {
      SwapPlain(digits);
    } else {
      SwapGroupStep(Group(digits[..|digits| - 3]), digits[|digits| - 3..]);
    }
  }

  /** Digits with points among them, seen from both ends. */
  predicate Unsigned(text: string) {
    Trim(text) && ',' !in text && text[0] != '-' && text[0] != '+'
  }

  lemma GroupedUnsigned(digits: string)
    requires AllDigits(digits, 10) && digits != []
    ensures Unsigned(Swap(Group(digits)))
  {
    var text := Swap(Group(digits));
    GroupedDigits(digits);
    GroupEnds(digits);
    UngroupSwapped(digits);
    DigitsArePlain(digits);
    assert digits[0] in digits && digits[|digits| - 1] in digits;
    assert text[|text| - 1] == digits[|digits| - 1];
  }

  /** The centavos for a decimal read from a text. */
  function Centavos(fl: real -> real, x: real): int {
    RoundHalfEven(fl(fl(x) * 100.0))
  }

  /** Such a text is read as it stands. */
  lemma UnsignedReads(fl: real -> real, text: string)
    requires Unsigned(text)
    ensures ParseUnsigned(text).None? ==> ParseBrl(fl, text) == None
    ensures ParseUnsigned(text).Some? ==> ParseBrl(fl, text) == Some(Centavos(fl, ParseUnsigned(text).value))
  {
    StripPadding("", text, "");
    assert "" + text + "" == text;
  }

  /** A text with two points is no number. */
  lemma TwoPoints(x: string, y: string, z: string)
    ensures ParseUnsigned(x + "." + y + "." + z) == None
  {
    var s := x + "." + y + "." + z;
    var k, second := IndexOf(s, '.'), |x| + 1 + |y|;
    assert s[|x|] == '.' && s[second] == '.';
    IndexOfAtMost(s, '.', |x|);
    var whole, fraction := s[..k], s[k + 1..];
    assert fraction[second - k - 1] == '.';
    assert (whole + fraction)[k + (second - k - 1)] == '.';
    assert !IsDigit('.', 10);
  }

  lemma ThousandthsParse(front: string, last: string)
    requires front != [] && AllDigits(front, 10) && AllDigits(last, 10) && |last| == 3
    ensures AllDigits(front + last, 10)
    ensures ParseUnsigned(front + "." + last) == Some(Value(front + last, 10) as real / 1000.0)
  {
    ParsePoint(front, last);
    ScaleDownThrice(Value(front + last, 10) as real);
  }

  lemma ThousandthsOf(front: string, last: string, digits: string, x: real)
    requires front != [] && AllDigits(front, 10) && AllDigits(last, 10) && |last| == 3
    requires digits == front + last && AllDigits(digits, 10) && x == Value(digits, 10) as real / 1000.0
    ensures ParseUnsigned(front + "." + last) == Some(x)
  {
    ThousandthsParse(front, last);
  }

  lemma OnePointText(digits: string)
    requires AllDigits(digits, 10) && 4 <= |digits| <= 6
    ensures Swap(Group(digits)) == digits[..|digits| - 3] + "." + digits[|digits| - 3..]
  {
    GroupedDigits(digits);
    GroupedDigits(digits[..|digits| - 3]);
  }

  /** One point before the last three digits makes thousandths of them. */
  lemma OnePointValue(digits: string, x: real)
    requires AllDigits(digits, 10) && 4 <= |digits| <= 6 && x == Value(digits, 10) as real / 1000.0
    ensures ParseUnsigned(Swap(Group(digits))) == Some(x)
  {
    OnePointText(digits);
    SplitLast(digits);
    ThousandthsOf(digits[..|digits| - 3], digits[|digits| - 3..], digits, x);
  }

  lemma SplitLast(digits: string)
    requires AllDigits(digits, 10) && |digits| > 3
    ensures digits == digits[..|digits| - 3] + digits[|digits| - 3..]
    ensures AllDigits(digits[..|digits| - 3], 10) && AllDigits(digits[|digits| - 3..], 10)
  {
  }

  lemma OnePoint(fl: real -> real, digits: string, x: real)
    requires AllDigits(digits, 10) && 4 <= |digits| <= 6 && x == Value(digits, 10) as real / 1000.0
    ensures ParseBrl(fl, Swap(Group(digits))) == Some(Centavos(fl, x))
  {
    OnePointValue(digits, x);
    GroupedUnsigned(digits);
    UnsignedReads(fl, Swap(Group(digits)));
  }

  lemma ManyPoints(fl: real -> real, digits: string)
    requires AllDigits(digits, 10) && |digits| >= 7
    ensures ParseBrl(fl, Swap(Group(digits))) == None
  {
    var text, front, last := Swap(Group(digits)), digits[..|digits| - 3], digits[|digits| - 3..];
    assert ParseUnsigned(text) == None by {
      GroupedDigits(digits);
      GroupedDigits(front);
      TwoPoints(Swap(Group(front[..|front| - 3])), front[|front| - 3..], last);
    }
    assert Unsigned(text) by {
      GroupedUnsigned(digits);
    }
    UnsignedReads(fl, text);
  }

  /** Thousandths of reais, read through the float steps, are tenths of centavos to the nearest
      centavo. */
  lemma ThousandthsRound(fl: real -> real, n: nat, x: real)
    requires IsFloat(fl) && n < 1_000_000 && x == n as real / 1000.0
    ensures -5 <= 10 * Centavos(fl, x) - n <= 5
  {
    var read := fl(x);
    NearThousandth(x, read, fl(read * 100.0));
    HalfUnit(fl(read * 100.0));
  }

  lemma NearThousandth(x: real, read: real, p: real)
    requires 0.0 <= x < 1000.0 && Abs(read - x) <= Slack(x) && Abs(p - read * 100.0) <= Slack(read * 100.0)
    ensures Abs(p - x * 100.0) < 0.01
  {
  }

  lemma HalfUnit(x: real)
    ensures Abs(RoundHalfEven(x) as real - x) <= 0.5
  {
  }

  lemma BelowThousand(fl: real -> real, n: nat)
    requires IsFloat(fl) && n < 1000
    ensures ParseBrl(fl, GroupedReais(n)) == Some(100 * n)
  {
    var digits := Numeral(n, 10);
    ValueOfNumeral(n, 10);
    DigitCounts(n);
    GroupedDigits(digits);
    assert "" + digits + "" == digits;
    WholeTextParses(fl, "", digits, "", 100 * n);
  }

  lemma FromThousand(fl: real -> real, n: nat)
    requires IsFloat(fl) && 1000 <= n < 1_000_000
    ensures match ParseBrl(fl, GroupedReais(n))
            case Some(v) => -5 <= 10 * v - n <= 5
            case None => false
  {
    ValueOfNumeral(n, 10);
    DigitCounts(n);
    OnePoint(fl, Numeral(n, 10), n as real / 1000.0);
    ThousandthsRound(fl, n, n as real / 1000.0);
  }

  lemma FromMillion(fl: real -> real, n: nat)
    requires n >= 1_000_000
    ensures ParseBrl(fl, GroupedReais(n)) == None
  {
    DigitCounts(n);
    ManyPoints(fl, Numeral(n, 10));
  }

  /** Which texts with points and without cents are read as meant: those below a thousand, where
      there is no point yet. From a thousand on the point is taken for a decimal point and the
      value is a thousandth, to the nearest centavo; from a million on there are two points and
      the text is refused. */
  lemma GroupedTextIff(fl: real -> real, n: nat)
    requires IsFloat(fl)
    ensures ParseBrl(fl, GroupedReais(n)) == Some(100 * n) <==> n < 1000
    ensures ParseBrl(fl, GroupedReais(n)) == None <==> n >= 1_000_000
    ensures 1000 <= n < 1_000_000 ==> -5 <= 10 * ParseBrl(fl, GroupedReais(n)).value - n <= 5
  {
    if n < 1000 {
      BelowThousand(fl, n);
    } else if n < 1_000_000 {
      FromThousand(fl, n);
    } else {
      FromMillion(fl, n);
    }
  }

  lemma DigitCounts(n: nat)
    ensures |Numeral(n, 10)| <= 3 <==> n < 1000
    ensures |Numeral(n, 10)| <= 6 <==> n < 1_000_000
  {
    assert Pow(10, 1) == 10 && Pow(10, 2) == 100 && Pow(10, 3) == 1000;
    assert Pow(10, 4) == 10_000 && Pow(10, 5) == 100_000 && Pow(10, 6) == 1_000_000;
    NumeralFits(n, 10, 3);
    NumeralFits(n, 10, 6);
  }

  lemma TwoThousand()
    ensures AllDigits("2850", 10) && Value("2850", 10) == 2850
  {
    assert "2850" == "28" + "50";
    ValueOfTwoDigits("28", 10);
    ValueOfTwoDigits("50", 10);
    ValueOfTwoMore("28", "50");
  }

  /** For example, "2.850" is read as 285 centavos. */
  lemma PointWithoutComma(fl: real -> real)
    requires IsFloat(fl)
    ensures ParseBrl(fl, "2.850") == Some(285)
  {
    var text := "2.850";
    assert text == "2" + "." + "850" && "2" + "850" == "2850";
    assert AllDigits("2", 10) && AllDigits("850", 10);
    TwoThousand();
    ThousandthsParse("2", "850");
    assert ParseDecimal(text) == ParseUnsigned(text) == Some(285.0 / 100.0);
    assert text == "" + text + "";
    ParsePlain(fl, "", text, "", 285);
  }

  // ---- The amount in a PIX payload ----

  lemma QuotientSign(fl: real -> real, n: int)
    requires IsFloat(fl)
    ensures fl(n as real / 100.0) > 0.0 <==> n > 0
  {
    var exact := n as real / 100.0;
    assert Abs(fl(exact) - exact) <= Slack(exact);
  }

  /** The printed amount is the exact decimal of the centavos. */
  lemma AmountTextDecodes(fl: real -> real, n: int)
    requires IsFloat(fl) && -0x8_0000_0000_0000 < n < 0x8_0000_0000_0000
    ensures ParseDecimal(FormatAmountInput(fl, n)) == Some(n as real / 100.0)
  {
    var sign, whole, d := PrintedPieces(fl, n);
    ParsePieces(sign, whole, d);
  }

  lemma TenToSixteen()
    ensures Pow(10, 16) == 10_000_000_000_000_000
  {
    assert Pow(10, 2) == 100;
    assert Pow(10, 4) == 10_000;
    assert Pow(10, 6) == 1_000_000;
    assert Pow(10, 8) == 100_000_000;
    assert Pow(10, 10) == 10_000_000_000;
    assert Pow(10, 12) == 1_000_000_000_000;
    assert Pow(10, 14) == 100_000_000_000_000;
  }

  lemma FixedTextShort(x: real, c: nat)
    requires RoundHalfEven(Abs(x) * 100.0) == c < 0x8_0000_0000_0000
    ensures |PrintFixed(x)| <= 20
  {
    var whole, d := CentsPieces(c);
    TenToSixteen();
    NumeralFits(c / 100, 10, 16);
  }

  lemma AmountTextShort(fl: real -> real, n: int)
    requires IsFloat(fl) && -0x8_0000_0000_0000 < n < 0x8_0000_0000_0000
    ensures |FormatAmountInput(fl, n)| <= 20
  {
    QuotientRoundsBack(fl, n);
    FixedTextShort(fl(n as real / 100.0), if n < 0 then -n else n);
  }
}
