/** Unpadded URL-safe base64 of web/static/core/js/webauthn.js, over the browser's btoa and atob
    (sections 3.2, 4 and 5 of RFC 4648). */
module Base64Url {
  import opened Texts
  import opened Wrappers

  type byte = b: int | 0 <= b < 256

  /** Six bits. */
  type sextet = n: int | 0 <= n < 64

  // ---- The alphabet ----

  function Sextet(n: sextet): (c: char)
    ensures SextetValue(c) == n
  {
    if n < 26 then ('A' as int + n) as char
    else if n < 52 then ('a' as int + (n - 26)) as char
    else if n < 62 then ('0' as int + (n - 52)) as char
    else if n == 62 then '+'
    else '/'
  }

  /** The value of a character of the alphabet; 64 for any other. */
  function SextetValue(c: char): (n: int)
    ensures 0 <= n <= 64
  {
    if 'A' <= c <= 'Z' then c as int - 'A' as int
    else if 'a' <= c <= 'z' then c as int - 'a' as int + 26
    else if '0' <= c <= '9' then c as int - '0' as int + 52
    else if c == '+' then 62
    else if c == '/' then 63
    else 64
  }

  predicate AllSextets(s: string) {
    forall i | 0 <= i < |s| :: SextetValue(s[i]) < 64
  }

  function Spell(vs: seq<sextet>): string {
    seq(|vs|, i requires 0 <= i < |vs| => Sextet(vs[i]))
  }

  function Values(s: string): seq<sextet>
    requires AllSextets(s)
  {
    seq(|s|, i requires 0 <= i < |s| => SextetValue(s[i]))
  }

  lemma SextetInjective(c: char, d: char)
    requires SextetValue(c) == SextetValue(d) < 64
    ensures c == d
  {
  }

  lemma ValuesOfSpell(vs: seq<sextet>)
    ensures AllSextets(Spell(vs)) && Values(Spell(vs)) == vs
  {
    forall i | 0 <= i < |vs| ensures SextetValue(Spell(vs)[i]) == vs[i] {
      assert Spell(vs)[i] == Sextet(vs[i]);
    }
  }

  lemma SpellOfValues(s: string)
    requires AllSextets(s)
    ensures Spell(Values(s)) == s
  {
    forall i | 0 <= i < |s| ensures Spell(Values(s))[i] == s[i] {
      SextetInjective(Spell(Values(s))[i], s[i]);
    }
  }

  // ---- Groups of three bytes and four sextets ----

  function Sextet1(a: byte): sextet { a / 4 }
  function Sextet2(a: byte, b: byte): sextet { a % 4 * 16 + b / 16 }
  function Sextet3(b: byte, c: byte): sextet { b % 16 * 4 + c / 64 }
  function Sextet4(c: byte): sextet { c % 64 }

  function Byte1(v: sextet, w: sextet): byte { v * 4 + w / 16 }
  function Byte2(w: sextet, x: sextet): byte { w % 16 * 16 + x / 4 }
  function Byte3(x: sextet, y: sextet): byte { x % 4 * 64 + y }

  /** The bits of the bytes six by six, the last group filled up with zeros. */
  function Sextets(bs: seq<byte>): seq<sextet> {
    if |bs| == 0 then []
    else if |bs| == 1 then [Sextet1(bs[0]), Sextet2(bs[0], 0)]
    else if |bs| == 2 then [Sextet1(bs[0]), Sextet2(bs[0], bs[1]), Sextet3(bs[1], 0)]
    else [Sextet1(bs[0]), Sextet2(bs[0], bs[1]), Sextet3(bs[1], bs[2]), Sextet4(bs[2])] + Sextets(bs[3..])
  }

  /** The whole bytes among the bits. */
  function Bytes(vs: seq<sextet>): seq<byte> {
    if |vs| < 2 then []
    else if |vs| == 2 then [Byte1(vs[0], vs[1])]
    else if |vs| == 3 then [Byte1(vs[0], vs[1]), Byte2(vs[1], vs[2])]
    else [Byte1(vs[0], vs[1]), Byte2(vs[1], vs[2]), Byte3(vs[2], vs[3])] + Bytes(vs[4..])
  }

  lemma BytesBack(a: byte, b: byte, c: byte)
    ensures Byte1(Sextet1(a), Sextet2(a, b)) == a
    ensures Byte2(Sextet2(a, b), Sextet3(b, c)) == b
    ensures Byte3(Sextet3(b, c), Sextet4(c)) == c
  {
  }

  lemma SextetsBack(v: sextet, w: sextet, x: sextet, y: sextet)
    ensures Sextet1(Byte1(v, w)) == v
    ensures Sextet2(Byte1(v, w), Byte2(w, x)) == w
    ensures Sextet3(Byte2(w, x), Byte3(x, y)) == x
    ensures Sextet4(Byte3(x, y)) == y
    ensures Sextet2(Byte1(v, w), 0) == w <==> w % 16 == 0
    ensures Sextet3(Byte2(w, x), 0) == x <==> x % 4 == 0
  {
  }

  function Padding(n: nat): string {
    if n % 3 == 0 then "" else if n % 3 == 1 then "==" else "="
  }

  // ---- The browser's functions ----

  predicate Latin1(s: string) {
    forall i | 0 <= i < |s| :: s[i] as int < 256
  }

  function Chars(bs: seq<byte>): string {
    seq(|bs|, i requires 0 <= i < |bs| => bs[i] as char)
  }

  function Codes(s: string): seq<byte>
    requires Latin1(s)
  {
    seq(|s|, i requires 0 <= i < |s| => s[i] as int)
  }

  function Btoa(s: string): string
    requires Latin1(s)
  {
    Spell(Sextets(Codes(s))) + Padding(|s|)
  }

  predicate IsSpace(c: char) {
    c == ' ' || c == '\t' || c == '\n' || c == '\r' || c as int == 12
  }

  function DropSpaces(s: string): string {
    if s == [] then [] else if IsSpace(s[0]) then DropSpaces(s[1..]) else [s[0]] + DropSpaces(s[1..])
  }

  function DropPadding(s: string): string {
    if |s| % 4 != 0 || s == [] || s[|s| - 1] != '=' then s
    else if s[|s| - 2] != '=' then s[..|s| - 1]
    else s[..|s| - 2]
  }

  function Atob(s: string): (r: Option<string>)
    ensures r.Some? ==> Latin1(r.value)
  {
    var t := DropPadding(DropSpaces(s));
    if |t| % 4 == 1 || !AllSextets(t) then None else Some(Chars(Bytes(Values(t))))
  }

  // ---- The two helpers ----

  function EncodeUrl(bs: seq<byte>): string {
    Remove(Replace(Replace(Btoa(Chars(bs)), '+', '-'), '/', '_'), '=')
  }

  /** while (base64.length % 4) base64 += '='; */
  function Pad(s: string): string
    decreases (4 - |s| % 4) % 4
  {
    if |s| % 4 == 0 then s
    else
      PadShrinks(|s|);
      Pad(s + "=")
  }

  lemma PadShrinks(n: nat)
    requires n % 4 != 0
    ensures (4 - (n + 1) % 4) % 4 < (4 - n % 4) % 4
  {
    var q, r := n / 4, n % 4;
    assert n == 4 * q + r && n + 1 == 4 * q + (r + 1);
    assert (n + 1) % 4 == if r == 3 then 0 else r + 1;
  }

  function DecodeUrl(t: string): Option<seq<byte>> {
    match Atob(Pad(Replace(Replace(t, '-', '+'), '_', '/')))
    case Some(binary) => Some(Codes(binary))
    case None => None
  }

  method BufferToBase64url(buffer: array<byte>) returns (text: string)
    ensures text == EncodeUrl(buffer[..])
  {
    var str := "";
    for i := 0 to buffer.Length
      invariant str == Chars(buffer[..i])
    {
      str := str + [buffer[i] as char];
    }
    assert buffer[..buffer.Length] == buffer[..];
    text := Remove(Replace(Replace(Btoa(str), '+', '-'), '/', '_'), '=');
  }

  method Base64urlToBuffer(base64url: string) returns (ok: bool, bytes: array<byte>)
    ensures ok <==> DecodeUrl(base64url).Some?
    ensures ok ==> fresh(bytes) && bytes[..] == DecodeUrl(base64url).value
  {
    var base64 := Replace(Replace(base64url, '-', '+'), '_', '/');
    while |base64| % 4 != 0
      invariant Pad(base64) == Pad(Replace(Replace(base64url, '-', '+'), '_', '/'))
      decreases (4 - |base64| % 4) % 4
    {
      PadShrinks(|base64|);
      base64 := base64 + "=";
    }
    var binary := Atob(base64);
    match binary {
      case None =>
        ok, bytes := false, new byte[0];
      case Some(text) =>
        ok, bytes := true, new byte[|text|];
        for i := 0 to |text|
          invariant forall k | 0 <= k < i :: bytes[k] == text[k] as int
        {
          bytes[i] := text[i] as int;
        }
        assert bytes[..] == Codes(text);
    }
  }

  // ---- Encoding and decoding groups ----

  lemma {:induction false} SextetCount(bs: seq<byte>)
    ensures |Sextets(bs)| % 4 == if |bs| % 3 == 0 then 0 else |bs| % 3 + 1
  {
    if |bs| >= 3 {
      SextetCount(bs[3..]);
      FourMore(|Sextets(bs[3..])|);
    }
  }

  lemma FourMore(n: nat)
    ensures (n + 4) % 4 == n % 4
  {
    assert n == 4 * (n / 4) + n % 4 && n + 4 == 4 * (n / 4 + 1) + n % 4;
  }

  lemma ThreeMore(n: nat)
    requires n % 4 == 1
    ensures (n + 3) % 4 == 0
  {
    assert n == 4 * (n / 4) + 1 && n + 3 == 4 * (n / 4 + 1);
  }

  lemma SextetsOfGroup(a: byte, b: byte, c: byte, rest: seq<byte>)
    ensures Sextets([a, b, c] + rest) == [Sextet1(a), Sextet2(a, b), Sextet3(b, c), Sextet4(c)] + Sextets(rest)
  {
    assert ([a, b, c] + rest)[3..] == rest;
  }

  lemma BytesOfGroup(v: sextet, w: sextet, x: sextet, y: sextet, rest: seq<sextet>)
    ensures Bytes([v, w, x, y] + rest) == [Byte1(v, w), Byte2(w, x), Byte3(x, y)] + Bytes(rest)
  {
    assert ([v, w, x, y] + rest)[4..] == rest;
  }

  lemma GroupBack(a: byte, b: byte, c: byte, rest: seq<byte>)
    requires Bytes(Sextets(rest)) == rest
    ensures Bytes(Sextets([a, b, c] + rest)) == [a, b, c] + rest
  {
    SextetsOfGroup(a, b, c, rest);
    BytesOfGroup(Sextet1(a), Sextet2(a, b), Sextet3(b, c), Sextet4(c), Sextets(rest));
    BytesBack(a, b, c);
  }

  lemma SextetsOfFew(a: byte, b: byte)
    ensures Sextets([a]) == [Sextet1(a), Sextet2(a, 0)]
    ensures Sextets([a, b]) == [Sextet1(a), Sextet2(a, b), Sextet3(b, 0)]
  {
  }

  lemma BytesOfFew(v: sextet, w: sextet, x: sextet)
    ensures Bytes([v, w]) == [Byte1(v, w)]
    ensures Bytes([v, w, x]) == [Byte1(v, w), Byte2(w, x)]
  {
  }

  lemma OneBack(a: byte)
    ensures Bytes(Sextets([a])) == [a]
  {
    SextetsOfFew(a, 0);
    BytesOfFew(Sextet1(a), Sextet2(a, 0), 0);
    BytesBack(a, 0, 0);
  }

  lemma TwoBack(a: byte, b: byte)
    ensures Bytes(Sextets([a, b])) == [a, b]
  {
    SextetsOfFew(a, b);
    BytesOfFew(Sextet1(a), Sextet2(a, b), Sextet3(b, 0));
    BytesBack(a, b, 0);
  }

  lemma {:induction false} BytesOfSextets(bs: seq<byte>)
    ensures Bytes(Sextets(bs)) == bs
  {
    if |bs| == 1 {
      assert bs == [bs[0]];
      OneBack(bs[0]);
    } else if |bs| == 2 {
      assert bs == [bs[0], bs[1]];
      TwoBack(bs[0], bs[1]);
    } else if |bs| >= 3 {
      var rest := bs[3..];
      BytesOfSextets(rest);
      assert bs == [bs[0], bs[1], bs[2]] + rest;
      GroupBack(bs[0], bs[1], bs[2], rest);
    }
  }

  /** The bits of the last sextet that no byte takes are zero. */
  predicate NoSpareBits(vs: seq<sextet>) {
    && (|vs| % 4 == 2 ==> vs[|vs| - 1] % 16 == 0)
    && (|vs| % 4 == 3 ==> vs[|vs| - 1] % 4 == 0)
  }

  lemma SameTail(v: sextet, w: sextet, x: sextet, y: sextet, a: seq<sextet>, b: seq<sextet>)
    ensures [v, w, x, y] + a == [v, w, x, y] + b <==> a == b
  {
    assert ([v, w, x, y] + a)[4..] == a && ([v, w, x, y] + b)[4..] == b;
  }

  lemma FullGroup(v: sextet, w: sextet, x: sextet, y: sextet, rest: seq<sextet>)
    ensures Sextets(Bytes([v, w, x, y] + rest)) == [v, w, x, y] + Sextets(Bytes(rest))
  {
    BytesOfGroup(v, w, x, y, rest);
    SextetsOfGroup(Byte1(v, w), Byte2(w, x), Byte3(x, y), Bytes(rest));
    SextetsBack(v, w, x, y);
  }

  lemma PairGroup(v: sextet, w: sextet)
    ensures Sextets(Bytes([v, w])) == [v, w] <==> w % 16 == 0
  {
    BytesOfFew(v, w, 0);
    SextetsOfFew(Byte1(v, w), 0);
    SextetsBack(v, w, 0, 0);
    assert Sextets(Bytes([v, w]))[1] == Sextet2(Byte1(v, w), 0);
  }

  lemma TripleGroup(v: sextet, w: sextet, x: sextet)
    ensures Sextets(Bytes([v, w, x])) == [v, w, x] <==> x % 4 == 0
  {
    BytesOfFew(v, w, x);
    SextetsOfFew(Byte1(v, w), Byte2(w, x));
    SextetsBack(v, w, x, 0);
    assert Sextets(Bytes([v, w, x]))[2] == Sextet3(Byte2(w, x), 0);
  }

  lemma SpareOfRest(vs: seq<sextet>)
    requires |vs| >= 4 && |vs| % 4 != 1
    ensures NoSpareBits(vs) <==> NoSpareBits(vs[4..])
  {
    assert |vs[4..]| % 4 == |vs| % 4;
  }

  lemma {:induction false} SextetsOfBytes(vs: seq<sextet>)
    requires |vs| % 4 != 1
    ensures Sextets(Bytes(vs)) == vs <==> NoSpareBits(vs)
  {
    if |vs| >= 4 {
      var rest := vs[4..];
      SextetsOfBytes(rest);
      assert vs == [vs[0], vs[1], vs[2], vs[3]] + rest;
      FullGroup(vs[0], vs[1], vs[2], vs[3], rest);
      SameTail(vs[0], vs[1], vs[2], vs[3], Sextets(Bytes(rest)), rest);
      SpareOfRest(vs);
    } else if |vs| == 2 {
      assert vs == [vs[0], vs[1]];
      PairGroup(vs[0], vs[1]);
    } else if |vs| == 3 {
      assert vs == [vs[0], vs[1], vs[2]];
      TripleGroup(vs[0], vs[1], vs[2]);
    }
  }

  // ---- Stripping and restoring the padding ----

  /** The URL-safe spelling of a text of the alphabet, and back. */
  function UrlSafe(s: string): string {
    Replace(Replace(s, '+', '-'), '/', '_')
  }

  function Standard(s: string): string {
    Replace(Replace(s, '-', '+'), '_', '/')
  }

  lemma CodesOfChars(bs: seq<byte>)
    ensures Latin1(Chars(bs)) && Codes(Chars(bs)) == bs
  {
  }

  lemma PaddingRemoved(s: string, n: nat)
    requires AllSextets(s)
    ensures Remove(UrlSafe(s + Padding(n)), '=') == UrlSafe(s)
  {
    assert UrlSafe(s + Padding(n)) == UrlSafe(s) + Padding(n);
    RemoveConcat(UrlSafe(s), Padding(n), '=');
    RemoveAbsent(UrlSafe(s), '=');
    assert Remove("=", '=') == "" && Remove("==", '=') == Remove("=", '=');
  }

  /** The encoding is the text of the groups, spelled URL-safe, and nothing of the padding. */
  lemma EncodeUrlIs(bs: seq<byte>)
    ensures AllSextets(Spell(Sextets(bs))) && EncodeUrl(bs) == UrlSafe(Spell(Sextets(bs)))
  {
    CodesOfChars(bs);
    ValuesOfSpell(Sextets(bs));
    PaddingRemoved(Spell(Sextets(bs)), |bs|);
  }

  lemma StandardOfUrlSafe(s: string)
    requires AllSextets(s)
    ensures Standard(UrlSafe(s)) == s
  {
    forall i | 0 <= i < |s| ensures s[i] != '-' && s[i] != '_' {
      assert SextetValue(s[i]) < 64;
    }
  }

  lemma PadThree(s: string)
    requires |s| % 4 == 3
    ensures Pad(s) == s + "="
  {
    assert |s + "="| == |s| + 1;
  }

  lemma PadTwo(s: string)
    requires |s| % 4 == 2
    ensures Pad(s) == s + "=="
  {
    assert |s + "="| == |s| + 1 && s + "=" + "=" == s + "==";
    PadThree(s + "=");
  }

  lemma PadOne(s: string)
    requires |s| % 4 == 1
    ensures Pad(s) == s + "==="
  {
    assert |s + "="| == |s| + 1 && s + "=" + "==" == s + "===";
    PadTwo(s + "=");
  }

  lemma PadRestores(s: string, n: nat)
    requires |s| % 4 == if n % 3 == 0 then 0 else n % 3 + 1
    ensures Pad(s) == s + Padding(n)
  {
    if n % 3 == 1 {
      PadTwo(s);
    } else if n % 3 == 2 {
      PadThree(s);
    } else {
      assert s + "" == s;
    }
  }

  /** The length of an encoding tells how much padding it had: it is never one more than a
      multiple of four, and padding it adds exactly the stripped characters, at most two. */
  lemma PaddingRestored(bs: seq<byte>)
    ensures |EncodeUrl(bs)| % 4 != 1
    ensures Pad(Standard(EncodeUrl(bs))) == Btoa(Chars(bs))
    ensures |Btoa(Chars(bs))| - |EncodeUrl(bs)| <= 2
  {
    var s := Spell(Sextets(bs));
    EncodeUrlIs(bs);
    SextetCount(bs);
    StandardOfUrlSafe(s);
    PadRestores(s, |bs|);
    CodesOfChars(bs);
  }

  lemma {:induction false} DropNothing(s: string)
    requires forall i | 0 <= i < |s| :: !IsSpace(s[i])
    ensures DropSpaces(s) == s
  {
    if s != [] {
      DropNothing(s[1..]);
    }
  }

  /** A text without padding and blanks. */
  predicate Plain(t: string) {
    forall i | 0 <= i < |t| :: !IsSpace(t[i]) && t[i] != '='
  }

  lemma SextetsPlain(s: string)
    requires AllSextets(s)
    ensures Plain(s)
  {
    forall i | 0 <= i < |s| ensures !IsSpace(s[i]) && s[i] != '=' {
      assert SextetValue(s[i]) < 64;
    }
  }

  lemma NoSpaces(s: string, padding: string)
    requires Plain(s) && forall i | 0 <= i < |padding| :: padding[i] == '='
    ensures DropSpaces(s + padding) == s + padding
  {
    var p := s + padding;
    forall i | 0 <= i < |p| ensures !IsSpace(p[i]) {
      assert p[i] == if i < |s| then s[i] else padding[i - |s|];
    }
    DropNothing(p);
  }

  lemma NoneDropped(s: string)
    requires Plain(s)
    ensures DropPadding(s) == s
  {
    if s != [] {
      assert s[|s| - 1] != '=';
    }
  }

  lemma OneDropped(p: string, kept: string)
    requires Plain(kept) && |p| % 4 == 0 && p == kept + "="
    ensures DropPadding(p) == kept
  {
    assert p[|p| - 1] == '=' && p[|p| - 2] == kept[|kept| - 1] && p[..|p| - 1] == kept;
  }

  lemma TwoDropped(p: string, kept: string)
    requires |p| % 4 == 0 && p == kept + "=="
    ensures DropPadding(p) == kept
  {
    assert p[|p| - 1] == '=' && p[|p| - 2] == '=' && p[..|p| - 2] == kept;
  }

  lemma PaddingDropped(s: string, padding: string)
    requires Plain(s) && (padding == "" || padding == "=" || padding == "==") && (|s| + |padding|) % 4 == 0
    ensures DropPadding(DropSpaces(s + padding)) == s
  {
    NoSpaces(s, padding);
    if padding == "==" {
      TwoDropped(s + "==", s);
    } else if padding == "=" {
      OneDropped(s + "=", s);
    } else {
      assert s + padding == s;
      NoneDropped(s);
    }
  }

  lemma AtobIs(s: string, t: string)
    requires DropPadding(DropSpaces(s)) == t
    ensures Atob(s) == if |t| % 4 == 1 || !AllSextets(t) then None else Some(Chars(Bytes(Values(t))))
  {
  }

  function Decoded(s: string): Option<string> {
    if AllSextets(s) then Some(Chars(Bytes(Values(s)))) else None
  }

  lemma AtobWith(s: string, padding: string)
    requires Plain(s) && (padding == "" || padding == "=" || padding == "==") && (|s| + |padding|) % 4 == 0
    ensures Atob(s + padding) == Decoded(s)
  {
    PaddingDropped(s, padding);
    AtobIs(s + padding, s);
    assert |s| % 4 != 1;
  }

  /** The padding of a text that can be padded right. */
  lemma PadText(s: string) returns (padding: string)
    requires |s| % 4 != 1
    ensures padding == "" || padding == "=" || padding == "=="
    ensures (|s| + |padding|) % 4 == 0 && Pad(s) == s + padding
  {
    if |s| % 4 == 3 {
      PadThree(s);
      padding := "=";
    } else if |s| % 4 == 2 {
      PadTwo(s);
      padding := "==";
    } else {
      assert s + "" == s;
      padding := "";
    }
  }

  lemma AtobPadded(s: string)
    requires Plain(s) && |s| % 4 != 1
    ensures Atob(Pad(s)) == Decoded(s)
  {
    var padding := PadText(s);
    AtobWith(s, padding);
  }

  lemma OneAndTwo(s: string)
    ensures s + "===" == s + "=" + "==" && |s + "==="| == |s| + 3
  {
  }

  lemma ThreeDropped(s: string)
    requires Plain(s) && |s| % 4 == 1
    ensures DropPadding(DropSpaces(s + "===")) == s + "="
  {
    NoSpaces(s, "===");
    OneAndTwo(s);
    ThreeMore(|s|);
    TwoDropped(s + "===", s + "=");
  }

  lemma AtobRefuses(s: string)
    requires Plain(s) && |s| % 4 == 1
    ensures Atob(Pad(s)) == None
  {
    assert Pad(s) == s + "===" by {
      PadOne(s);
    }
    ThreeDropped(s);
    AtobIs(s + "===", s + "=");
    assert !AllSextets(s + "=") by {
      assert SextetValue((s + "=")[|s|]) == 64;
    }
  }

  /** Every byte array is decoded from its encoding. */
  lemma RoundTrip(bs: seq<byte>)
    ensures DecodeUrl(EncodeUrl(bs)) == Some(bs)
  {
    var s := Spell(Sextets(bs));
    EncodeUrlIs(bs);
    SextetCount(bs);
    StandardOfUrlSafe(s);
    SextetsPlain(s);
    AtobPadded(s);
    ValuesOfSpell(Sextets(bs));
    BytesOfSextets(bs);
    CodesOfChars(bs);
  }

  lemma StandardPlain(t: string)
    requires Plain(t)
    ensures Plain(Standard(t)) && |Standard(t)| == |t|
  {
  }

  /** A text without padding is refused exactly when its length is one more than a multiple of
      four or it has a foreign character. */
  lemma RefusedIff(t: string)
    requires Plain(t)
    ensures DecodeUrl(t).None? <==> |t| % 4 == 1 || !AllSextets(Standard(t))
  {
    StandardPlain(t);
    if |t| % 4 == 1 {
      AtobRefuses(Standard(t));
    } else {
      AtobPadded(Standard(t));
    }
  }

  lemma UrlSafeOfStandard(t: string)
    requires '+' !in t && '/' !in t
    ensures UrlSafe(Standard(t)) == t
  {
    forall i | 0 <= i < |t| ensures UrlSafe(Standard(t))[i] == t[i] {
      assert t[i] in t;
    }
  }

  lemma UrlSafeOnly(s: string)
    ensures '+' !in UrlSafe(s) && '/' !in UrlSafe(s)
  {
  }

  lemma DecodedIs(t: string)
    requires Plain(t) && DecodeUrl(t).Some?
    ensures AllSextets(Standard(t)) && |t| % 4 != 1 && DecodeUrl(t).value == Bytes(Values(Standard(t)))
  {
    RefusedIff(t);
    StandardPlain(t);
    AtobPadded(Standard(t));
    CodesOfChars(Bytes(Values(Standard(t))));
  }

  /** A decoded text is the encoding of its bytes exactly when it is spelled URL-safe and its
      spare bits are zero: decoding is no more one-to-one than that. */
  lemma CanonicalIff(t: string)
    requires Plain(t) && DecodeUrl(t).Some?
    ensures AllSextets(Standard(t))
    ensures EncodeUrl(DecodeUrl(t).value) == t <==> '+' !in t && '/' !in t && NoSpareBits(Values(Standard(t)))
  {
    DecodedIs(t);
    var s := Standard(t);
    var bs := Bytes(Values(s));
    EncodeUrlIs(bs);
    SextetsOfBytes(Values(s));
    SpellOfValues(s);
    if EncodeUrl(bs) == t {
      UrlSafeOnly(Spell(Sextets(bs)));
      StandardOfUrlSafe(Spell(Sextets(bs)));
      ValuesOfSpell(Sextets(bs));
    } else if '+' !in t && '/' !in t {
      UrlSafeOfStandard(t);
    }
  }

  // ---- The alphabet and the bits ----

  /** The URL-safe character for six bits. */
  function UrlCharacter(n: sextet): char {
    UrlSafe([Sextet(n)])[0]
  }

  /** It is A to Z, a to z, 0 to 9, the minus and the underscore, in this order. */
  lemma UrlAlphabet(n: sextet)
    ensures UrlCharacter(0) == 'A' && UrlCharacter(25) == 'Z' && UrlCharacter(26) == 'a' && UrlCharacter(51) == 'z'
    ensures UrlCharacter(52) == '0' && UrlCharacter(61) == '9' && UrlCharacter(62) == '-' && UrlCharacter(63) == '_'
    ensures n != 25 && n != 51 && n < 61 ==> UrlCharacter(n + 1) as int == UrlCharacter(n) as int + 1
  {
  }

  /** Every character of an encoding is the one that the alphabet gives for its six bits. */
  lemma EncodedCharacter(bs: seq<byte>, i: nat)
    requires i < |Sextets(bs)|
    ensures |EncodeUrl(bs)| == |Sextets(bs)| && EncodeUrl(bs)[i] == UrlCharacter(Sextets(bs)[i])
  {
    EncodeUrlIs(bs);
    assert Spell(Sextets(bs))[i] == Sextet(Sextets(bs)[i]);
  }

  /** The number that the bits of characters or bytes make, the first ones highest. */
  function FourNumber(v: int, w: int, x: int, y: int): int {
    0x40000 * v + 0x1000 * w + 0x40 * x + y
  }

  function ThreeNumber(a: int, b: int, c: int): int {
    0x10000 * a + 0x100 * b + c
  }

  /** Four characters stand for the same number as three bytes; at the end two stand for one byte
      and three for two, with zeros below. */
  lemma GroupNumber(a: byte, b: byte, c: byte, rest: seq<byte>)
    ensures var s := Sextets([a, b, c] + rest);
            |s| >= 4 && s[4..] == Sextets(rest) && FourNumber(s[0], s[1], s[2], s[3]) == ThreeNumber(a, b, c)
    ensures var s := Sextets([a]); |s| == 2 && FourNumber(s[0], s[1], 0, 0) == ThreeNumber(a, 0, 0)
    ensures var s := Sextets([a, b]); |s| == 3 && FourNumber(s[0], s[1], s[2], 0) == ThreeNumber(a, b, 0)
  {
    SextetsOfGroup(a, b, c, rest);
    SextetsOfFew(a, b);
    GroupArithmetic(a, b, c);
  }

  lemma GroupArithmetic(a: byte, b: byte, c: byte)
    ensures FourNumber(Sextet1(a), Sextet2(a, b), Sextet3(b, c), Sextet4(c)) == ThreeNumber(a, b, c)
    ensures FourNumber(Sextet1(a), Sextet2(a, 0), 0, 0) == ThreeNumber(a, 0, 0)
    ensures FourNumber(Sextet1(a), Sextet2(a, b), Sextet3(b, 0), 0) == ThreeNumber(a, b, 0)
  {
  }
}
