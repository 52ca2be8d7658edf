/** What a reader finds in a PIX payload, tag by tag. */
module PixReading {
  import opened Crc
  import opened Money
  import opened Pix
  import opened Tlv
  import opened Wrappers

  /** v is s, cut to n characters. */
  predicate IsCut(v: string, s: string, n: nat) {
    v <= s && |v| == if |s| < n then |s| else n
  }

  /** The text of an amount that is stated, two decimals. */
  function StatedAmount(amount: Option<real>): Option<string> {
    if amount.Some? && amount.value > 0.0 then Some(PrintFixed(amount.value)) else None
  }

  /** The tags of the fields, in order. */
  function Tags(fs: seq<Field>): seq<string> {
    seq(|fs|, i requires 0 <= i < |fs| => fs[i].tag)
  }

  /** The fields of a payload to a key, with the recipient's name and city, a transaction id and
      an amount if one is stated. */
  predicate Shows(fs: seq<Field>, key: string, name: string, city: string, txid: string, amount: Option<string>) {
    && Tags(fs) == ["00", "26", "52", "53"] + (if amount.Some? then ["54"] else []) + ["58", "59", "60", "62", "63"]
    && FindTag(fs, "00") == Some("01")
    && FindNested(fs, "26", "00") == Some("br.gov.bcb.pix") && FindNested(fs, "26", "01") == Some(key)
    && FindTag(fs, "52") == Some("0000") && FindTag(fs, "53") == Some("986")
    && FindTag(fs, "54") == amount
    && FindTag(fs, "58") == Some("BR")
    && FindTag(fs, "59").Some? && IsCut(FindTag(fs, "59").value, name, 25)
    && FindTag(fs, "60").Some? && IsCut(FindTag(fs, "60").value, city, 15)
    && FindNested(fs, "62", "05") == Some(txid)
  }

  lemma ClipIsCut(s: string, n: nat)
    ensures IsCut(Clip(s, n), s, n)
  {
  }

  lemma FieldsInOrder(q: Request, strip: string -> string, crc: string)
    ensures var fs, k := RootFields(q, strip) + [Field("63", crc)], if StatedAmount(q.amount).Some? then 5 else 4;
            && |fs| == k + 5
            && fs[0] == Field("00", "01") && fs[1] == Field("26", PrintAll(AccountFields(q.pixKey)))
            && fs[2] == Field("52", "0000") && fs[3] == Field("53", "986")
            && (k == 5 ==> fs[4] == Field("54", StatedAmount(q.amount).value))
            && fs[k] == Field("58", "BR") && fs[k + 1] == Field("59", Clip(strip(q.merchantName), 25))
            && fs[k + 2] == Field("60", Clip(strip(q.merchantCity), 15))
            && fs[k + 3] == Field("62", PrintAll(AdditionalFields(q.txid))) && fs[k + 4] == Field("63", crc)
  {
  }

  lemma FindHead(fs: seq<Field>)
    requires |fs| >= 4 && fs[0].tag == "00" && fs[1].tag == "26" && fs[2].tag == "52" && fs[3].tag == "53"
    ensures FindTag(fs, "00") == Some(fs[0].value) && FindTag(fs, "26") == Some(fs[1].value)
    ensures FindTag(fs, "52") == Some(fs[2].value) && FindTag(fs, "53") == Some(fs[3].value)
  {
    assert "00"[0] != "26"[0] && "00"[0] != "52"[0] && "26"[0] != "52"[0] && "52"[1] != "53"[1] && "00"[0] != "53"[0]
        && "26"[0] != "53"[0];
    FindAt(fs, 0, "00");
    FindAt(fs, 1, "26");
    FindAt(fs, 2, "52");
    FindAt(fs, 3, "53");
  }

  /** The tags of the first k fields. */
  predicate HeadTags(fs: seq<Field>, k: nat) {
    && |fs| == k + 5 && 4 <= k <= 5
    && fs[0].tag == "00" && fs[1].tag == "26" && fs[2].tag == "52" && fs[3].tag == "53" && (k == 5 ==> fs[4].tag == "54")
  }

  /** The tags of the other five. */
  predicate TailTags(fs: seq<Field>, k: nat)
    requires |fs| == k + 5
  {
    fs[k].tag == "58" && fs[k + 1].tag == "59" && fs[k + 2].tag == "60" && fs[k + 3].tag == "62" && fs[k + 4].tag == "63"
  }

  lemma FindInTail(fs: seq<Field>, k: nat, i: nat, tag: string)
    requires HeadTags(fs, k) && i < 5 && fs[k + i].tag == tag
    requires tag == "58" || tag == "59" || tag == "60" || tag == "62" || tag == "63"
    requires forall j | k <= j < k + i :: fs[j].tag != tag
    ensures FindTag(fs, tag) == Some(fs[k + i].value)
  {
    forall j | 0 <= j < k + i ensures fs[j].tag != tag {
      if j < k {
        HeadDiffers(fs, k, j, tag);
      }
    }
    FindAt(fs, k + i, tag);
  }

  lemma HeadDiffers(fs: seq<Field>, k: nat, j: nat, tag: string)
    requires HeadTags(fs, k) && j < k
    requires tag == "58" || tag == "59" || tag == "60" || tag == "62" || tag == "63"
    ensures fs[j].tag != tag
  {
    var head := fs[j].tag;
    assert head == "00" || head == "26" || head == "52" || head == "53" || head == "54";
    assert |head| == 2 && |tag| == 2;
    assert (head[0] == '0' && tag[0] != '0') || (head[0] == '2' && tag[0] != '2') || (head[0] == '5' && head[1] < '8');
  }

  lemma FindTail(fs: seq<Field>, k: nat)
    requires HeadTags(fs, k) && TailTags(fs, k)
    ensures FindTag(fs, "58") == Some(fs[k].value) && FindTag(fs, "59") == Some(fs[k + 1].value)
    ensures FindTag(fs, "60") == Some(fs[k + 2].value) && FindTag(fs, "62") == Some(fs[k + 3].value)
    ensures FindTag(fs, "63") == Some(fs[k + 4].value)
  {
    FindInTail(fs, k, 0, "58");
    FindInTail(fs, k, 1, "59");
    FindInTail(fs, k, 2, "60");
    FindInTail(fs, k, 3, "62");
    FindInTail(fs, k, 4, "63");
  }

  lemma FindAmount(fs: seq<Field>, k: nat)
    requires HeadTags(fs, k) && TailTags(fs, k)
    ensures FindTag(fs, "54") == if k == 5 then Some(fs[4].value) else None
  {
    if k == 5 {
      FindAt(fs, 4, "54");
    } else {
      FindNone(fs, "54");
    }
  }

  lemma FindAccount(key: string)
    ensures FindTag(AccountFields(key), "00") == Some("br.gov.bcb.pix") && FindTag(AccountFields(key), "01") == Some(key)
  {
    FindAt(AccountFields(key), 0, "00");
    FindAt(AccountFields(key), 1, "01");
  }

  lemma FindAdditional(txid: string)
    ensures FindTag(AdditionalFields(txid), "05") == Some(txid)
  {
    FindAt(AdditionalFields(txid), 0, "05");
  }

  lemma TagsAre(fs: seq<Field>, k: nat, amount: Option<string>)
    requires |fs| == k + 5 && k == if amount.Some? then 5 else 4
    requires HeadTags(fs, k) && TailTags(fs, k)
    ensures Tags(fs) == ["00", "26", "52", "53"] + (if amount.Some? then ["54"] else []) + ["58", "59", "60", "62", "63"]
  {
  }

  lemma RootShows(q: Request, strip: string -> string, crc: string)
    requires |q.pixKey| <= 77 && |q.txid| <= 95
    ensures Shows(RootFields(q, strip) + [Field("63", crc)], q.pixKey, strip(q.merchantName), strip(q.merchantCity), q.txid,
                  StatedAmount(q.amount))
  {
    var fs := RootFields(q, strip) + [Field("63", crc)];
    var k := if StatedAmount(q.amount).Some? then 5 else 4;
    FieldsInOrder(q, strip, crc);
    FindHead(fs);
    FindTail(fs, k);
    FindAmount(fs, k);
    TagsAre(fs, k, StatedAmount(q.amount));
    TemplatesRoundTrip(q);
    FindAccount(q.pixKey);
    FindAdditional(q.txid);
    ClipIsCut(strip(q.merchantName), 25);
    ClipIsCut(strip(q.merchantCity), 15);
  }

  lemma ClosingTag(q: Request, strip: string -> string, crc: string)
    ensures FindTag(RootFields(q, strip) + [Field("63", crc)], "63") == Some(crc)
  {
    var k := if StatedAmount(q.amount).Some? then 5 else 4;
    FieldsInOrder(q, strip, crc);
    FindTail(RootFields(q, strip) + [Field("63", crc)], k);
  }

  lemma PayloadParses(q: Request, strip: string -> string, p: string)
    requires Payload(q, strip) == Success(p) && |q.pixKey| <= 77 && |q.txid| <= 95 && AmountFits(q.amount)
    ensures Parse(p) == Some(RootFields(q, strip) + [Field("63", Trailer(p))])
    ensures |p| >= 4 && Trailer(p) == p[|p| - 4..] && Checksum(p[..|p| - 4]) == Success(p[|p| - 4..])
  {
    PayloadIsFields(q, strip, p);
    PayloadRoundTripIff(q, strip, p);
  }

  /** A reader of any payload within the bounds finds the fixed fields, the key in field 01 of tag
      26, the amount in tag 54 when one is stated, the stripped name cut to 25 characters in tag
      59, the stripped city cut to 15 in tag 60, the transaction id in field 05 of tag 62, and
      last the checksum of everything before it. */
  lemma PayloadShows(q: Request, strip: string -> string, p: string)
    requires Payload(q, strip) == Success(p) && |q.pixKey| <= 77 && |q.txid| <= 95 && AmountFits(q.amount)
    ensures Parse(p).Some?
    ensures Shows(Parse(p).value, q.pixKey, strip(q.merchantName), strip(q.merchantCity), q.txid, StatedAmount(q.amount))
    ensures |p| >= 4 && FindTag(Parse(p).value, "63") == Some(p[|p| - 4..])
    ensures Checksum(p[..|p| - 4]) == Success(p[|p| - 4..])
  {
    PayloadParses(q, strip, p);
    RootShows(q, strip, Trailer(p));
    ClosingTag(q, strip, Trailer(p));
  }
}
