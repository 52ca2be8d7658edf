/** Conservation of money from the items of a billing to the amount that a payer's bank reads
    out of the PIX payload. */
module BillMoney {
  import opened BillWorld
  import opened ItemTable
  import opened Money
  import opened PdfMerge
  import opened PixReading
  import opened Receipts
  import opened Tlv
  import opened Wrappers
  import BillCoherence
  import Keys
  import Pix

  // ---- The total of a generated bill ----

  function FixedSum(items: seq<BillingItem>): int {
    if items == [] then 0
    else (if items[0].item.kind == Fixed then items[0].item.amount else 0) + FixedSum(items[1..])
  }

  /** The amounts entered for the items that are not fixed; an item without one counts as 0. */
  function VariableSum(items: seq<BillingItem>, variable: map<int, int>): int {
    if items == [] then 0
    else
      var i := items[0];
      (if i.item.kind != Fixed && i.id.Some? && i.id.value in variable then variable[i.id.value] else 0)
      + VariableSum(items[1..], variable)
  }

  function ExtraSum(extras: seq<(string, int)>): int {
    if extras == [] then 0 else extras[0].1 + ExtraSum(extras[1..])
  }

  lemma SumFirst(lines: seq<Item>)
    requires lines != []
    ensures Sum(lines) == lines[0].amount + Sum(lines[1..])
  {
    BillCoherence.SumConcat(lines[..1], lines[1..]);
    assert lines == lines[..1] + lines[1..];
    assert lines[..1][..0] == [];
  }

  lemma {:induction false} BillingLinesSum(items: seq<BillingItem>, variable: map<int, int>)
    ensures Sum(BillingLines(items, variable)) == FixedSum(items) + VariableSum(items, variable)
  {
    var lines := BillingLines(items, variable);
    if items != [] {
      BillingLinesSum(items[1..], variable);
      assert lines[1..] == BillingLines(items[1..], variable);
      SumFirst(lines);
    }
  }

  lemma {:induction false} ExtraLinesSum(extras: seq<(string, int)>)
    ensures Sum(ExtraLines(extras)) == ExtraSum(extras)
  {
    var lines := ExtraLines(extras);
    if extras != [] {
      ExtraLinesSum(extras[1..]);
      assert lines[1..] == ExtraLines(extras[1..]);
      SumFirst(lines);
    }
  }

  lemma GeneratedTotal(items: seq<BillingItem>, variable: map<int, int>, extras: seq<(string, int)>)
    ensures Sum(BillingLines(items, variable) + ExtraLines(extras))
         == FixedSum(items) + VariableSum(items, variable) + ExtraSum(extras)
  {
    BillCoherence.SumConcat(BillingLines(items, variable), ExtraLines(extras));
    BillingLinesSum(items, variable);
    ExtraLinesSum(extras);
  }

  /** Line by line: the billing's items in order with their fixed or entered amounts, then the
      extras in order. */
  lemma GeneratedLines(items: seq<BillingItem>, variable: map<int, int>, extras: seq<(string, int)>, k: nat)
    requires k < |items| + |extras|
    ensures var lines := BillingLines(items, variable) + ExtraLines(extras);
            && |lines| == |items| + |extras|
            && (k < |items| ==>
                  && lines[k].description == items[k].item.description && lines[k].kind == items[k].item.kind
                  && (items[k].item.kind == Fixed ==> lines[k].amount == items[k].item.amount)
                  && (items[k].item.kind != Fixed && items[k].id.Some? ==>
                        lines[k].amount == if items[k].id.value in variable then variable[items[k].id.value] else 0))
            && (k >= |items| ==>
                  lines[k].description == extras[k - |items|].0 && lines[k].amount == extras[k - |items|].1 && lines[k].kind == Extra)
  {
  }

  // ---- The amount in the payload ----

  datatype Reading = Unreadable | NoAmount | Amount(text: string)

  /** What a reader of a payload takes for the amount. */
  function ReadAmount(payload: string): Reading {
    match Parse(payload)
    case None => Unreadable
    case Some(fs) =>
      match FindTag(fs, "54")
      case None => NoAmount
      case Some(text) => Amount(text)
  }

  /** The payload's amount is exactly n centavos; none is stated unless n is positive. */
  predicate States(payload: string, n: int) {
    if n > 0 then
      ReadAmount(payload).Amount? && ParseDecimal(ReadAmount(payload).text) == Some(n as real / 100.0)
    else ReadAmount(payload) == NoAmount
  }

  lemma AmountStated(fl: real -> real, n: int)
    requires IsFloat(fl) && n < 0x8_0000_0000_0000
    ensures var amount := StatedAmount(Some(fl(n as real / 100.0)));
            && (amount.Some? <==> n > 0)
            && (n > 0 ==> ParseDecimal(amount.value) == Some(n as real / 100.0))
    ensures Pix.AmountFits(Some(fl(n as real / 100.0)))
  {
    QuotientSign(fl, n);
    Pix.AmountShortIff(Some(fl(n as real / 100.0)));
    if n > 0 {
      AmountTextShort(fl, n);
      AmountTextDecodes(fl, n);
    }
  }

  // ---- Whom the payload pays ----

  /** The key that is paid has at most 77 characters. */
  predicate KeyFits(cfg: Config, own: string) {
    if own != "" then |own| <= 77 else |cfg.pixKey| <= 77
  }

  /** A reader of the payload finds the key, the recipient of the settings, no transaction id, and
      the total. */
  predicate PayloadPays(cfg: Config, payload: string, key: string, total: int) {
    && Parse(payload).Some?
    && Shows(Parse(payload).value, key, cfg.strip(cfg.merchantName), cfg.strip(cfg.merchantCity), "***",
             FindTag(Parse(payload).value, "54"))
    && States(payload, total)
  }

  /** PIX data pays a billing's own key, or the configured one when the billing has none; there is
      none exactly when both are empty or the recipient is not configured. */
  predicate Pays(cfg: Config, pix: Option<PixData>, own: string, total: int) {
    && (pix.None? <==> (own == "" && cfg.pixKey == "") || cfg.merchantName == "" || cfg.merchantCity == "")
    && (pix.Some? ==>
          && pix.value.key == (if own != "" then own else cfg.pixKey)
          && PayloadPays(cfg, pix.value.payload, pix.value.key, total))
  }

  /** Which key PIX data names, and when there is none, whatever the length of the key. */
  lemma PixDataKey(cfg: Config, own: string, total: int)
    ensures match GetPixData(cfg, own, total)
            case Success(Some(pix)) => pix.key == if own != "" then own else cfg.pixKey
            case _ => true
    ensures GetPixData(cfg, own, total) == Success(None)
       <==> (own == "" && cfg.pixKey == "") || cfg.merchantName == "" || cfg.merchantCity == ""
  {
  }

  lemma PayloadIsPaying(cfg: Config, key: string, total: int, p: string)
    requires IsFloat(cfg.fl) && total < 0x8_0000_0000_0000 && |key| <= 77
    requires Pix.Payload(PixRequest(cfg, key, total), cfg.strip) == Success(p)
    ensures PayloadPays(cfg, p, key, total)
  {
    AmountStated(cfg.fl, total);
    PayloadShows(PixRequest(cfg, key, total), cfg.strip, p);
  }

  /** PIX data pays whom it should and what it was made for. */
  lemma PixDataStates(cfg: Config, own: string, total: int)
    requires IsFloat(cfg.fl) && total < 0x8_0000_0000_0000 && KeyFits(cfg, own)
    ensures match GetPixData(cfg, own, total)
            case Success(pix) => Pays(cfg, pix, own, total)
            case Failure(_) => true
  {
    PixDataKey(cfg, own, total);
    var key := if own != "" then own else cfg.pixKey;
    var p := Pix.Payload(PixRequest(cfg, key, total), cfg.strip);
    if p.Success? {
      PayloadIsPaying(cfg, key, total, p.value);
    }
  }

  // ---- End to end ----

  /** The PDF in storage at a key is drawn from the bill's content and from PIX data that pays the
      billing's key its total. */
  ghost predicate InvoiceStates(cfg: Config, w: World, key: string, b: BillData, g: Billing, theme: string) {
    && key in w.objects
    && exists pix: Option<PixData>, files ::
         && w.objects[key] == Merged(cfg.tools, cfg.draw(BillContent(b.month, b.dueDate, b.lines, b.total, b.notes),
                                                         Surroundings(g.name, pix, theme)), files)
         && Pays(cfg, pix, g.pixKey, b.total)
  }

  lemma StoredInvoiceStates(cfg: Config, w: World, hasReceipts: bool, b: BillData, g: Billing, theme: string)
    requires IsFloat(cfg.fl) && b.total < 0x8_0000_0000_0000 && KeyFits(cfg, g.pixKey)
    requires GenerateAndStore(cfg, w, hasReceipts, b, g, theme).result.Success?
    ensures InvoiceStates(cfg, GenerateAndStore(cfg, w, hasReceipts, b, g, theme).world,
                          Keys.StorageKey(cfg.prefix, g.uuid, b.uuid), b, g, theme)
  {
    PixDataStates(cfg, g.pixKey, b.total);
    var pix := GetPixData(cfg, g.pixKey, b.total).value;
    var files := FetchReceiptData(w, hasReceipts, b.id);
    var key := Keys.StorageKey(cfg.prefix, g.uuid, b.uuid);
    assert GenerateAndStore(cfg, w, hasReceipts, b, g, theme).world.objects[key]
        == Merged(cfg.tools, cfg.draw(BillContent(b.month, b.dueDate, b.lines, b.total, b.notes),
                                      Surroundings(g.name, pix, theme)), files);
  }

  /** The fixed amounts of a billing, the amounts entered for its other items and the extras add
      up to the bill's total; its persisted lines add up to the same; and the PIX payload drawn
      on its invoice states it to the centavo. */
  lemma MoneyConserved(cfg: Config, w: World, hasReceipts: bool, g: Billing, month: string, variable: map<int, int>,
                       extras: seq<(string, int)>, notes: string, due: string, theme: string, uuid: string)
    requires BillCoherence.LinesWellFormed(w) && forall j <- w.bills :: j < w.nextBill
    requires IsFloat(cfg.fl) && KeyFits(cfg, g.pixKey)
    requires FixedSum(g.items) + VariableSum(g.items, variable) + ExtraSum(extras) < 0x8_0000_0000_0000
    requires GenerateBill(cfg, w, hasReceipts, g, month, variable, extras, notes, due, theme, uuid).result.Success?
    ensures var o := GenerateBill(cfg, w, hasReceipts, g, month, variable, extras, notes, due, theme, uuid);
            var b := o.result.value;
            && b.total == FixedSum(g.items) + VariableSum(g.items, variable) + ExtraSum(extras)
            && w.nextBill in o.world.bills && o.world.bills[w.nextBill].total == b.total
            && Sum(LinesOf(o.world, w.nextBill)) == b.total
            && InvoiceStates(cfg, o.world, Keys.StorageKey(cfg.prefix, g.uuid, uuid), b.(pdfPath := None), g, theme)
  {
    var lines := BillingLines(g.items, variable) + ExtraLines(extras);
    GeneratedTotal(g.items, variable, extras);
    var draft := BillData(None, "", g.id.value, month, Sum(lines), lines, None, notes, OrNone(due), "draft");
    var w1 := InsertBill(w, draft, uuid);
    BillCoherence.InsertLines(w, lines, w1.bills);
    var loaded := LoadBill(w1, w.nextBill).value;
    assert loaded == draft.(id := Some(w.nextBill), uuid := uuid);
    StoredInvoiceStates(cfg, w1, hasReceipts, loaded, g, theme);
    assert GenerateBill(cfg, w, hasReceipts, g, month, variable, extras, notes, due, theme, uuid)
        == Finish(GenerateAndStore(cfg, w1, hasReceipts, loaded, g, theme), loaded);
  }

  /** The same after an edit: the new lines add up to what the redrawn invoice states. */
  lemma MoneyConservedByUpdate(cfg: Config, w: World, hasReceipts: bool, b: BillData, g: Billing, lines: seq<Item>,
                               notes: string, due: string, theme: string)
    requires BillCoherence.LinesWellFormed(w) && b.id.Some?
    requires IsFloat(cfg.fl) && KeyFits(cfg, g.pixKey) && Sum(lines) < 0x8_0000_0000_0000
    requires UpdateBill(cfg, w, hasReceipts, b, g, lines, notes, due, theme).result.Success?
    ensures var o := UpdateBill(cfg, w, hasReceipts, b, g, lines, notes, due, theme);
            var after := o.result.value;
            && after.lines == lines == LinesOf(o.world, b.id.value) && after.total == Sum(lines)
            && InvoiceStates(cfg, o.world, Keys.StorageKey(cfg.prefix, g.uuid, after.uuid),
                             after.(pdfPath := w.bills[b.id.value].pdfPath), g, theme)
  {
    var id := b.id.value;
    var edited := b.(lines := lines, total := Sum(lines), notes := notes, dueDate := OrNone(due));
    var w1 := RewriteBill(w, id, edited);
    BillCoherence.RewriteLines(w, id, lines, w.bills);
    var loaded := LoadBill(w1, id).value;
    StoredInvoiceStates(cfg, w1, hasReceipts, loaded, g, theme);
  }

  // ---- Every stored PDF ----

  /** What is read in the PDF of a bill: its persisted content, with the billing's data and the
      theme as when it was last drawn, and then the pages of each of its receipts. */
  ghost predicate Reads(cfg: Config, s: BillCoherence.Site, b: BillData, id: int, pix: Option<PixData>, parts: seq<seq<Page>>) {
    var w, rs := s.world, ListByBill(s.world.receipts, id);
    && id in s.drawn && b.billingId in s.billings
    && var key := Keys.StorageKey(cfg.prefix, s.billings[b.billingId].uuid, b.uuid);
    && key in w.objects && b.pdfPath == Some(cfg.resolve(key))
    && |parts| == |rs|
    && (forall i | 0 <= i < |rs| ::
          && rs[i].storageKey in w.objects && Keys.IsAllowedType(rs[i].contentType)
          && Gives(cfg.tools, w.objects[rs[i].storageKey], rs[i].contentType, parts[i]))
    && cfg.tools.read(w.objects[key]).pages
       == cfg.tools.read(cfg.draw(BillContent(b.month, b.dueDate, b.lines, b.total, b.notes),
                                  Surroundings(s.drawn[id].name, pix, s.drawn[id].theme))).pages
          + Flatten(parts)
  }

  /** The PIX data on a coherent bill's PDF. */
  lemma DrawnPix(cfg: Config, o: BillCoherence.Occasion, total: int) returns (pix: Option<PixData>)
    requires BillCoherence.PixReady(cfg, o.pixKey)
    ensures BillCoherence.Around(cfg, o, total) == Surroundings(o.name, pix, o.theme)
    ensures GetPixData(cfg, o.pixKey, total) == Success(pix)
  {
    BillCoherence.PixReadyIff(cfg, o.pixKey, total);
    pix := GetPixData(cfg, o.pixKey, total).value;
  }

  lemma CoherentReads(cfg: Config, s: BillCoherence.Site, id: int, b: BillData)
    returns (pix: Option<PixData>, parts: seq<seq<Page>>)
    requires BillCoherence.Inv(cfg, s) && LoadBill(s.world, id) == Some(b)
    requires ReadsBack(cfg.tools) && forall c, around :: cfg.tools.read(cfg.draw(c, around)).complete
    ensures Reads(cfg, s, b, id, pix, parts) && GetPixData(cfg, s.drawn[id].pixKey, b.total) == Success(pix)
  {
    var w, rs := s.world, ListByBill(s.world.receipts, id);
    assert BillCoherence.Coherent(cfg, s, id);
    pix := DrawnPix(cfg, s.drawn[id], b.total);
    var invoice := cfg.draw(BillContent(b.month, b.dueDate, b.lines, b.total, b.notes),
                            Surroundings(s.drawn[id].name, pix, s.drawn[id].theme));
    BillCoherence.AllReceiptsMerged(cfg, s, id);
    parts := MergedShows(cfg.tools, invoice, Fetch(w.objects, rs));
    ReceiptTypes(cfg, s, id);
    assert BillCoherence.RowContent(w, id) == BillContent(b.month, b.dueDate, b.lines, b.total, b.notes);
  }

  lemma ReceiptTypes(cfg: Config, s: BillCoherence.Site, id: int)
    requires BillCoherence.Inv(cfg, s)
    ensures forall i | 0 <= i < |ListByBill(s.world.receipts, id)| ::
              Keys.IsAllowedType(ListByBill(s.world.receipts, id)[i].contentType)
  {
    var rs := ListByBill(s.world.receipts, id);
    ListByBillIsListing(s.world.receipts, id);
    forall i | 0 <= i < |rs| ensures Keys.IsAllowedType(rs[i].contentType) {
      assert rs[i] in rs && BillCoherence.ReceiptStored(cfg, s, rs[i]);
    }
  }

  /** In every state that requests lead to: a reader of a live bill's PDF finds its lines, total,
      notes and due date, PIX data that pays the right key exactly the total, and every page of
      every receipt in order. */
  lemma EveryStoredPdf(cfg: Config, ops: seq<BillCoherence.Op>, id: int, b: BillData)
    returns (pix: Option<PixData>, parts: seq<seq<Page>>)
    requires BillCoherence.RunGranted(cfg, ops) && LoadBill(BillCoherence.Run(cfg, ops).world, id) == Some(b)
    requires ReadsBack(cfg.tools) && forall c, around :: cfg.tools.read(cfg.draw(c, around)).complete
    requires IsFloat(cfg.fl) && b.total < 0x8_0000_0000_0000
    requires id in BillCoherence.Run(cfg, ops).drawn ==> KeyFits(cfg, BillCoherence.Run(cfg, ops).drawn[id].pixKey)
    ensures Reads(cfg, BillCoherence.Run(cfg, ops), b, id, pix, parts)
    ensures Pays(cfg, pix, BillCoherence.Run(cfg, ops).drawn[id].pixKey, b.total)
  {
    var s := BillCoherence.Run(cfg, ops);
    BillCoherence.CoherentAlways(cfg, ops);
    pix, parts := CoherentReads(cfg, s, id, b);
    PixDataStates(cfg, s.drawn[id].pixKey, b.total);
  }
}
