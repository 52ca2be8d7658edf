/** Where rentivo/services/bill_service.py stores a bill's PDF and its receipts. */
module Keys {

  function Extension(contentType: string): string {
    if contentType == "application/pdf" then ".pdf"
    else if contentType == "image/jpeg" then ".jpg"
    else if contentType == "image/png" then ".png"
    else ""
  }

  predicate IsAllowedType(contentType: string) {
    contentType in {"application/pdf", "image/jpeg", "image/png"}
  }

  function StorageKey(prefix: string, billing: string, bill: string): string {
    if prefix != "" then prefix + "/" + billing + "/" + bill + ".pdf"
    else billing + "/" + bill + ".pdf"
  }

  function ReceiptKey(prefix: string, billing: string, bill: string, receipt: string, contentType: string): string {
    var ext := Extension(contentType);
    if prefix != "" then prefix + "/" + billing + "/" + bill + "/receipts/" + receipt + ext
    else billing + "/" + bill + "/receipts/" + receipt + ext
  }

  /** An identifier as it stands between two slashes of a key. */
  predicate IsId(s: string) {
    '/' !in s
  }

  /** Text up to its first slash is determined by the whole. */
  lemma SplitAtSlash(a: string, x: string, b: string, y: string)
    requires IsId(a) && IsId(b)
    requires a + ("/" + x) == b + ("/" + y)
    ensures a == b && x == y
  {
    var s := a + ("/" + x);
    assert s[|a|] == '/' && s[|b|] == '/';
    assert forall i | 0 <= i < |a| :: s[i] == a[i] && a[i] != '/';
    assert forall i | 0 <= i < |b| :: s[i] == b[i] && b[i] != '/';
    assert |a| == |b|;
    assert a == s[..|a|] == b;
    assert x == s[|a| + 1..] == y;
  }

  lemma HasSlash(b: string, y: string)
    ensures !IsId(b + ("/" + y))
  {
    assert (b + ("/" + y))[|b|] == '/';
  }

  lemma CutPrefix(p: string, x: string, y: string)
    requires p + x == p + y
    ensures x == y
  {
    assert x == (p + x)[|p|..];
    assert y == (p + y)[|p|..];
  }

  lemma CutSuffix(x: string, y: string, p: string, q: string)
    requires x + p == y + q && |p| == |q|
    ensures x == y && p == q
  {
    assert x == (x + p)[..|x|];
    assert y == (y + q)[..|y|];
    assert p == (x + p)[|x|..];
    assert q == (y + q)[|y|..];
  }

  function Folder(prefix: string): string {
    if prefix != "" then prefix + "/" else ""
  }

  lemma Assoc(a: string, b: string, c: string)
    ensures a + b + c == a + (b + c)
  {
  }

  lemma BillShape(f: string, billing: string, bill: string)
    ensures f + billing + "/" + bill + ".pdf" == f + (billing + ("/" + (bill + ".pdf")))
  {
    Assoc(f + billing + "/", bill, ".pdf");
    Assoc(f + billing, "/", bill + ".pdf");
    Assoc(f, billing, "/" + (bill + ".pdf"));
  }

  lemma ReceiptShape(f: string, billing: string, bill: string, receipt: string, ext: string)
    ensures f + billing + "/" + bill + "/receipts/" + receipt + ext
         == f + (billing + ("/" + (bill + ("/" + ("receipts/" + (receipt + ext))))))
  {
    var file := receipt + ext;
    Assoc(f + billing + "/" + bill + "/receipts/", receipt, ext);
    Assoc(f + billing + "/" + bill, "/receipts/", file);
    Assoc("/", "receipts/", file);
    assert "/" + "receipts/" == "/receipts/";
    var rest := "/" + ("receipts/" + file);
    Assoc(f + billing + "/", bill, rest);
    Assoc(f + billing, "/", bill + rest);
    Assoc(f, billing, "/" + (bill + rest));
  }

  lemma KeyShapes(prefix: string, billing: string, bill: string, receipt: string, contentType: string)
    ensures StorageKey(prefix, billing, bill) == Folder(prefix) + (billing + ("/" + (bill + ".pdf")))
    ensures ReceiptKey(prefix, billing, bill, receipt, contentType)
         == Folder(prefix) + (billing + ("/" + (bill + ("/" + ("receipts/" + (receipt + Extension(contentType)))))))
  {
    assert "" + billing == billing;
    BillShape(Folder(prefix), billing, bill);
    ReceiptShape(Folder(prefix), billing, bill, receipt, Extension(contentType));
  }

  /** Two bills never share a key. */
  lemma StorageKeyInjective(prefix: string, g1: string, b1: string, g2: string, b2: string)
    requires IsId(g1) && IsId(g2)
    requires StorageKey(prefix, g1, b1) == StorageKey(prefix, g2, b2)
    ensures g1 == g2 && b1 == b2
  {
    KeyShapes(prefix, g1, b1, "", "");
    KeyShapes(prefix, g2, b2, "", "");
    CutPrefix(Folder(prefix), g1 + ("/" + (b1 + ".pdf")), g2 + ("/" + (b2 + ".pdf")));
    SplitAtSlash(g1, b1 + ".pdf", g2, b2 + ".pdf");
    CutSuffix(b1, b2, ".pdf", ".pdf");
  }

  /** Two receipts never share a key. */
  lemma ReceiptKeyInjective(prefix: string, g1: string, b1: string, r1: string, t1: string,
                            g2: string, b2: string, r2: string, t2: string)
    requires IsId(g1) && IsId(g2) && IsId(b1) && IsId(b2) && IsAllowedType(t1) && IsAllowedType(t2)
    requires ReceiptKey(prefix, g1, b1, r1, t1) == ReceiptKey(prefix, g2, b2, r2, t2)
    ensures g1 == g2 && b1 == b2 && r1 == r2 && t1 == t2
  {
    KeyShapes(prefix, g1, b1, r1, t1);
    KeyShapes(prefix, g2, b2, r2, t2);
    var e1, e2 := r1 + Extension(t1), r2 + Extension(t2);
    var x1, x2 := "receipts/" + e1, "receipts/" + e2;
    CutPrefix(Folder(prefix), g1 + ("/" + (b1 + ("/" + x1))), g2 + ("/" + (b2 + ("/" + x2))));
    SplitAtSlash(g1, b1 + ("/" + x1), g2, b2 + ("/" + x2));
    SplitAtSlash(b1, x1, b2, x2);
    CutPrefix("receipts/", e1, e2);
    CutSuffix(r1, r2, Extension(t1), Extension(t2));
    ExtensionInjective(t1, t2);
  }

  lemma ExtensionInjective(t1: string, t2: string)
    requires IsAllowedType(t1) && IsAllowedType(t2) && Extension(t1) == Extension(t2)
    ensures t1 == t2
  {
    assert ".pdf"[1] != ".jpg"[1] && ".jpg"[1] != ".png"[1] && ".pdf"[2] != ".png"[2];
  }

  /** A receipt is never stored where a bill's PDF is. */
  lemma KeysDisjoint(prefix: string, g1: string, b1: string, g2: string, b2: string, r2: string, t2: string)
    requires IsId(g1) && IsId(g2) && IsId(b1)
    ensures StorageKey(prefix, g1, b1) != ReceiptKey(prefix, g2, b2, r2, t2)
  {
    if StorageKey(prefix, g1, b1) == ReceiptKey(prefix, g2, b2, r2, t2) {
      KeyShapes(prefix, g1, b1, "", "");
      KeyShapes(prefix, g2, b2, r2, t2);
      var x2 := "receipts/" + (r2 + Extension(t2));
      CutPrefix(Folder(prefix), g1 + ("/" + (b1 + ".pdf")), g2 + ("/" + (b2 + ("/" + x2))));
      SplitAtSlash(g1, b1 + ".pdf", g2, b2 + ("/" + x2));
      HasSlash(b2, x2);
    }
  }

  /** Keys begin with the prefix and end with what the file is. */
  lemma KeyEnds(prefix: string, g: string, b: string, r: string, contentType: string)
    ensures prefix != "" ==> prefix + "/" <= StorageKey(prefix, g, b) && prefix + "/" <= ReceiptKey(prefix, g, b, r, contentType)
    ensures EndsWith(StorageKey(prefix, g, b), "/" + b + ".pdf")
    ensures contentType == "application/pdf" ==> EndsWith(ReceiptKey(prefix, g, b, r, contentType), "/receipts/" + r + ".pdf")
    ensures contentType == "image/jpeg" ==> EndsWith(ReceiptKey(prefix, g, b, r, contentType), "/receipts/" + r + ".jpg")
    ensures contentType == "image/png" ==> EndsWith(ReceiptKey(prefix, g, b, r, contentType), "/receipts/" + r + ".png")
  {
    var ext := Extension(contentType);
    EndOf(Folder(prefix) + g, "/", b, ".pdf");
    EndOf(Folder(prefix) + g + "/" + b, "/receipts/", r, ext);
    FolderFirst(prefix, g + "/" + b + ".pdf");
    FolderFirst(prefix, g + "/" + b + "/receipts/" + r + ext);
    assert "" + g == g;
  }

  predicate EndsWith(s: string, t: string) {
    |t| <= |s| && s[|s| - |t|..] == t
  }

  lemma EndOf(a: string, b: string, c: string, d: string)
    ensures EndsWith(a + b + c + d, b + c + d)
  {
    assert a + b + c + d == a + (b + c + d);
  }

  lemma FolderFirst(prefix: string, rest: string)
    ensures Folder(prefix) <= Folder(prefix) + rest
  {
  }

  /** For example. */
  lemma SampleKeys()
    ensures StorageKey("dados", "G", "B") == "dados/G/B.pdf"
    ensures ReceiptKey("", "G", "B", "R", "image/jpeg") == "G/B/receipts/R.jpg"
  {
  }
}
