/** What a request to the bill service leaves for later requests to read, and what it leaves
    alone. */
module BillEffects {
  import opened BillCoherence
  import opened BillWorld
  import opened ItemTable
  import opened PdfMerge
  import opened Receipts
  import opened Wrappers
  import Keys

  /** Every other bill loads as before. */
  ghost predicate OthersLoad(before: World, after: World, id: int) {
    forall j: int | j != id :: LoadBill(after, j) == LoadBill(before, j)
  }

  function PathOf(cfg: Config, b: BillData, g: Billing): string {
    cfg.resolve(Keys.StorageKey(cfg.prefix, g.uuid, b.uuid))
  }

  /** Storing the PDF of a loaded bill changes what is loaded in one path only. */
  lemma StoringLoads(cfg: Config, w: World, hasReceipts: bool, b: BillData, g: Billing, theme: string)
    requires b.id.Some? && LoadBill(w, b.id.value) == Some(b)
    requires GenerateAndStore(cfg, w, hasReceipts, b, g, theme).result.Success?
    ensures var after := GenerateAndStore(cfg, w, hasReceipts, b, g, theme).world;
            && LoadBill(after, b.id.value) == Some(b.(pdfPath := Some(PathOf(cfg, b, g))))
            && OthersLoad(w, after, b.id.value)
            && after.receipts == w.receipts && after.bills.Keys == w.bills.Keys
  {
    var after := GenerateAndStore(cfg, w, hasReceipts, b, g, theme).world;
    assert after.lines == w.lines;
  }

  lemma OthersTwice(a: World, b: World, c: World, id: int)
    requires OthersLoad(a, b, id) && OthersLoad(b, c, id)
    ensures OthersLoad(a, c, id)
  {
    forall j: int | j != id ensures LoadBill(c, j) == LoadBill(a, j) {
      assert LoadBill(b, j) == LoadBill(a, j);
    }
  }

  /** A generated bill loads with the lines, notes and due date that were asked for, as a draft. */
  lemma GenerateThenLoad(cfg: Config, s: Site, g: Billing, month: string, variable: map<int, int>,
                         extras: seq<(string, int)>, notes: string, due: string, theme: string, uuid: string)
    requires WellFormed(cfg, s) && g.id.Some? && AllIdentified(g.items) && PixReady(cfg, g.pixKey)
    ensures var o := GenerateBill(cfg, s.world, true, g, month, variable, extras, notes, due, theme, uuid);
            var lines, id := BillingLines(g.items, variable) + ExtraLines(extras), s.world.nextBill;
            && o.result.Success? && LoadBill(o.world, id) == Some(o.result.value)
            && o.result.value == BillData(Some(id), uuid, g.id.value, month, Sum(lines), lines, o.result.value.pdfPath,
                                          notes, if due == "" then None else Some(due), "draft")
            && o.result.value.pdfPath == Some(PathOf(cfg, o.result.value, g))
            && OthersLoad(s.world, o.world, id) && o.world.receipts == s.world.receipts
  {
    var lines, id := BillingLines(g.items, variable) + ExtraLines(extras), s.world.nextBill;
    var draft := BillData(None, "", g.id.value, month, Sum(lines), lines, None, notes, OrNone(due), "draft");
    var w1 := InsertBill(s.world, draft, uuid);
    InsertedLoads(s.world, draft, uuid);
    var b := draft.(id := Some(id), uuid := uuid);
    PixReadyIff(cfg, g.pixKey, b.total);
    StoringLoads(cfg, w1, true, b, g, theme);
    OthersTwice(s.world, w1, GenerateAndStore(cfg, w1, true, b, g, theme).world, id);
  }

  lemma InsertedLoads(w: World, draft: BillData, uuid: string)
    requires LinesWellFormed(w) && forall j <- w.bills :: j < w.nextBill
    ensures var after := InsertBill(w, draft, uuid);
            && LoadBill(after, w.nextBill) == Some(draft.(id := Some(w.nextBill), uuid := uuid))
            && OthersLoad(w, after, w.nextBill)
  {
    InsertLines(w, draft.lines, InsertBill(w, draft, uuid).bills);
  }

  /** An edited bill loads with the new lines, their sum, the new notes and due date, and is
      otherwise as it was. */
  lemma UpdateThenLoad(cfg: Config, s: Site, b: BillData, g: Billing, lines: seq<Item>, notes: string, due: string,
                       theme: string)
    requires LinesWellFormed(s.world) && b.id.Some? && LoadBill(s.world, b.id.value) == Some(b) && PixReady(cfg, g.pixKey)
    ensures var o := UpdateBill(cfg, s.world, true, b, g, lines, notes, due, theme);
            && o.result.Success? && LoadBill(o.world, b.id.value) == Some(o.result.value)
            && o.result.value == b.(lines := lines, total := Sum(lines), notes := notes,
                                    dueDate := if due == "" then None else Some(due), pdfPath := Some(PathOf(cfg, b, g)))
            && OthersLoad(s.world, o.world, b.id.value) && o.world.receipts == s.world.receipts
  {
    var id := b.id.value;
    var edited := b.(lines := lines, total := Sum(lines), notes := notes, dueDate := OrNone(due));
    var w1 := RewriteBill(s.world, id, edited);
    RewrittenLoads(s.world, id, b, edited);
    PixReadyIff(cfg, g.pixKey, edited.total);
    StoringLoads(cfg, w1, true, edited, g, theme);
    OthersTwice(s.world, w1, GenerateAndStore(cfg, w1, true, edited, g, theme).world, id);
  }

  /** The row takes month, lines, total, notes and due date, and nothing else of the object; every
      other bill loads as before. */
  lemma RewrittenLoads(w: World, id: int, b: BillData, edited: BillData)
    requires LinesWellFormed(w) && LoadBill(w, id) == Some(b)
    ensures var after := RewriteBill(w, id, edited);
            && LoadBill(after, id) == Some(b.(month := edited.month, lines := edited.lines, total := edited.total,
                                              notes := edited.notes, dueDate := edited.dueDate))
            && OthersLoad(w, after, id)
  {
    RewriteLines(w, id, edited.lines, w.bills);
  }

  /** Drawing the PDF again succeeds exactly when the PIX texts are ready; the bill keeps everything
      but its path, and the PDF shows the billing and the theme as they are now. */
  lemma RegenerateThenLoad(cfg: Config, s: Site, b: BillData, g: Billing, theme: string)
    requires b.id.Some? && LoadBill(s.world, b.id.value) == Some(b)
    ensures var o := RegeneratePdf(cfg, s.world, true, b, g, theme);
            && (o.result.Success? <==> PixReady(cfg, g.pixKey))
            && (o.result.Failure? ==> o.world == s.world)
            && (o.result.Success? ==>
                  && LoadBill(o.world, b.id.value) == Some(o.result.value)
                  && o.result.value == b.(pdfPath := Some(PathOf(cfg, b, g)))
                  && After(s, b.id.value, o, g, theme).drawn == s.drawn[b.id.value := Occasion(g.name, g.pixKey, theme)])
            && OthersLoad(s.world, o.world, b.id.value) && o.world.receipts == s.world.receipts
  {
    PixReadyIff(cfg, g.pixKey, b.total);
    if PixReady(cfg, g.pixKey) {
      StoringLoads(cfg, s.world, true, b, g, theme);
    }
  }

  /** A new status is loaded, and nothing else changes. */
  lemma StatusThenLoad(w: World, b: BillData, status: string)
    requires b.id.Some? && LoadBill(w, b.id.value) == Some(b)
    ensures ChangeStatus(w, b, status).result.Success? <==>
              status in {"draft", "published", "sent", "paid", "cancelled", "delayed_payment"}
    ensures var o := ChangeStatus(w, b, status);
            && LoadBill(o.world, b.id.value) == Some(if o.result.Success? then b.(status := status) else b)
            && OthersLoad(w, o.world, b.id.value) && o.world.receipts == w.receipts && o.world.objects == w.objects
  {
    var o := ChangeStatus(w, b, status);
    assert o.world.lines == w.lines;
  }

  /** A deleted bill no longer loads, and nothing else changes. */
  lemma DropThenLoad(w: World, id: int)
    ensures var after := MarkDeleted(w, id);
            && LoadBill(after, id) == None && OthersLoad(w, after, id)
            && after.receipts == w.receipts && after.objects == w.objects
  {
    assert MarkDeleted(w, id).lines == w.lines;
  }

  // ---- Receipts ----

  /** An upload is refused exactly for its type, its size or for being empty; then nothing
      changes. Otherwise its file is stored under its key and its row is listed last. */
  lemma AddThenList(cfg: Config, s: Site, op: Op, b: BillData, g: Billing)
    requires Inv(cfg, s) && op.Attach? && Granted(cfg, s, op) && Loaded(s, op.bill) == Some((b, g))
    ensures var o := AddReceipt(cfg, s.world, true, b, g, op.filename, op.bytes, op.contentType, op.theme, op.keyId, op.uuid);
            var allowed := op.contentType in {"application/pdf", "image/jpeg", "image/png"} && 0 < |op.bytes| <= 10485760;
            && (o.result.Success? <==> allowed)
            && (!allowed ==> o.world == s.world)
            && (allowed ==>
                  var r := o.result.value;
                  && ListByBill(o.world.receipts, op.bill) == ListByBill(s.world.receipts, op.bill) + [r]
                  && r.uuid == op.uuid && r.filename == op.filename && r.contentType == op.contentType
                  && r.size == |op.bytes|
                  && r.storageKey in o.world.objects && o.world.objects[r.storageKey] == op.bytes)
  {
    if UploadError(op.bytes, op.contentType).None? {
      var r := NewReceipt(cfg, s.world, op.bill, b.uuid, g, op.filename, op.bytes, op.contentType, op.keyId, op.uuid);
      UploadAttachable(cfg, s, op, b, g);
      AttachKeeps(cfg, s, r, op.bytes, op.keyId);
      FileSurvives(cfg, Attached(s, r, op.bytes), op.bill, b, g, op.theme, r);
    }
  }

  /** Why requests on a bill are refused: an unknown status, a bill or receipt without an id, a bill
      that is gone, no receipt repository. */
  lemma BillRefusals(cfg: Config, w: World, b: BillData, g: Billing, lines: seq<Item>, text: string, theme: string,
                     receipt: Option<int>, uuids: seq<string>)
    ensures var r := ChangeStatus(w, b, text).result;
            var known := text in {"draft", "published", "sent", "paid", "cancelled", "delayed_payment"};
            && (!known ==> r == Failure(BadStatus)) && (known && b.id.None? ==> r == Failure(MissingId))
    ensures var o := UpdateBill(cfg, w, true, b, g, lines, text, text, theme);
            && (b.id.None? ==> o == Outcome(w, Failure(MissingId)))
            && (b.id.Some? && (b.id.value !in w.bills || w.bills[b.id.value].deleted) ==> o.result == Failure(NotFound))
    ensures DeleteReceipt(cfg, w, false, receipt, b, g, theme) == Outcome(w, Failure(NotConfigured))
    ensures receipt.None? ==> DeleteReceipt(cfg, w, true, receipt, b, g, theme) == Outcome(w, Failure(MissingId))
    ensures ReorderReceipts(cfg, w, false, b, g, uuids, theme) == Outcome(w, Failure(NotConfigured))
    ensures b.id.None? ==> ReorderReceipts(cfg, w, true, b, g, uuids, theme) == Outcome(w, Failure(MissingId))
  {
  }

  /** Why an upload is refused: its type first, then its size, then that it is empty. */
  lemma UploadRefusals(cfg: Config, w: World, b: BillData, g: Billing, filename: string, bytes: Blob, contentType: string,
                       theme: string, keyId: string, uuid: string)
    requires b.id.Some?
    ensures var r := AddReceipt(cfg, w, true, b, g, filename, bytes, contentType, theme, keyId, uuid).result;
            var known := contentType in {"application/pdf", "image/jpeg", "image/png"};
            && (!known ==> r == Failure(BadType))
            && (known && |bytes| > 10485760 ==> r == Failure(TooLarge))
            && (known && bytes == [] ==> r == Failure(EmptyFile))
    ensures AddReceipt(cfg, w, false, b, g, filename, bytes, contentType, theme, keyId, uuid) == Outcome(w, Failure(NotConfigured))
  {
  }

  /** Storing a bill's PDF succeeds and leaves the receipts, their rows and their files. */
  lemma FileSurvives(cfg: Config, s: Site, bill: int, b: BillData, g: Billing, theme: string, r: Receipt)
    requires InvBut(cfg, s, {bill}) && Loaded(s, bill) == Some((b, g)) && r in s.world.receipts
    ensures var o := GenerateAndStore(cfg, s.world, true, b, g, theme);
            && o.result.Success? && o.world.receipts == s.world.receipts
            && r.storageKey in s.world.objects && r.storageKey in o.world.objects
            && o.world.objects[r.storageKey] == s.world.objects[r.storageKey]
  {
    PixReadyIff(cfg, g.pixKey, b.total);
    ReceiptKeyDiffers(cfg, s, bill, r);
    assert ReceiptStored(cfg, s, r);
  }

  /** A deleted receipt is gone from the listing of its bill and the others keep their order. */
  lemma DeleteThenList(cfg: Config, s: Site, r: Receipt, b: BillData, g: Billing, theme: string)
    requires Inv(cfg, s) && r in s.world.receipts && Loaded(s, r.billId) == Some((b, g))
    ensures var o := DeleteReceipt(cfg, s.world, true, Some(r.id), b, g, theme);
            && o.result.Success?
            && ListByBill(o.world.receipts, r.billId) == Without(ListByBill(s.world.receipts, r.billId), r.id)
            && forall j: int | j != r.billId :: ListByBill(o.world.receipts, j) == ListByBill(s.world.receipts, j)
  {
    DetachKeeps(cfg, s, r);
    PixReadyIff(cfg, g.pixKey, b.total);
    forall j: int | j != r.billId
      ensures ListByBill(Detached(s, r.id).world.receipts, j) == ListByBill(s.world.receipts, j)
    {
      DetachListing(s, r, j);
    }
  }

  /** A list without repeats is accepted exactly when it is a permutation of the bill's receipts.
      Then the listing is that list; other bills' listings stay in either case. */
  lemma ReorderThenList(cfg: Config, s: Site, b: BillData, g: Billing, uuids: seq<string>, theme: string)
    requires Inv(cfg, s) && b.id.Some? && Loaded(s, b.id.value) == Some((b, g)) && NoRepeats(uuids)
    ensures var o := ReorderReceipts(cfg, s.world, true, b, g, uuids, theme); var id := b.id.value;
            && (o.result.Success? <==> multiset(uuids) == multiset(Uuids(ListByBill(s.world.receipts, id))))
            && (o.result.Success? ==> Uuids(ListByBill(o.world.receipts, id)) == uuids)
            && (o.result.Failure? ==> o.world == s.world)
            && forall j: int | j != id :: ListByBill(o.world.receipts, j) == ListByBill(s.world.receipts, j)
  {
    var rows, id := s.world.receipts, b.id.value;
    ListByBillIsListing(rows, id);
    ListingDistinct(rows, ListByBill(rows, id));
    AcceptsExactlyPermutations(ListByBill(rows, id), uuids);
    PixReadyIff(cfg, g.pixKey, b.total);
    var plan := PlanOrder(ListByBill(rows, id), uuids);
    if plan.Success? {
      ReorderGivesListIff(rows, id, uuids, plan.value);
      forall j: int | j != id ensures ListByBill(ApplySorts(rows, plan.value), j) == ListByBill(rows, j) {
        ReorderKeepsOthers(rows, id, uuids, plan.value, j);
      }
    }
  }

  // ---- Rows over whole runs ----

  /** A bill keeps its id, its uuid and its billing, and so its storage key; once deleted it keeps
      everything. */
  ghost predicate RowsKept(before: map<int, BillRow>, after: map<int, BillRow>) {
    forall id <- before :: id in after && RowKept(before[id], after[id])
  }

  predicate RowKept(before: BillRow, after: BillRow) {
    && after.uuid == before.uuid && after.billingId == before.billingId
    && (before.deleted ==> after == before)
  }

  ghost predicate BillingUuidsKept(before: Site, after: Site) {
    forall g <- before.billings :: g in after.billings && after.billings[g].uuid == before.billings[g].uuid
  }

  lemma RowsKeptTwice(a: map<int, BillRow>, b: map<int, BillRow>, c: map<int, BillRow>)
    requires RowsKept(a, b) && RowsKept(b, c)
    ensures RowsKept(a, c)
  {
    forall id | id in a ensures id in c && RowKept(a[id], c[id]) {
      assert RowKept(a[id], b[id]) && RowKept(b[id], c[id]);
    }
  }

  /** Storing the PDF of a bill that loads. */
  lemma StoringKeepsRows(cfg: Config, before: map<int, BillRow>, w: World, id: int, b: BillData, g: Billing, theme: string)
    requires RowsKept(before, w.bills) && LoadBill(w, id) == Some(b)
    ensures RowsKept(before, GenerateAndStore(cfg, w, true, b, g, theme).world.bills)
  {
    PathKeepsRows(w.bills, id, PathOf(cfg, b, g));
    var after := GenerateAndStore(cfg, w, true, b, g, theme).world.bills;
    assert after == w.bills || after == w.bills[id := w.bills[id].(pdfPath := Some(PathOf(cfg, b, g)))];
    RowsKeptTwice(before, w.bills, after);
  }

  lemma PathKeepsRows(bills: map<int, BillRow>, id: int, path: string)
    requires id in bills && !bills[id].deleted
    ensures RowsKept(bills, bills[id := bills[id].(pdfPath := Some(path))]) && RowsKept(bills, bills)
  {
  }

  lemma StepKeepsRows(cfg: Config, s: Site, op: Op)
    requires Inv(cfg, s) && Granted(cfg, s, op)
    ensures RowsKept(s.world.bills, Step(cfg, s, op).world.bills)
  {
    match op {
      case Generate(_, _, _, _, _, _, _, _) => GenerateKeepsRows(cfg, s, op);
      case CreateBilling(_, _) =>
      case EditBilling(_, _, _, _) =>
      case DropBilling(_) =>
      case Drop(_) =>
      case _ => LoadedKeepsRows(cfg, s, op);
    }
  }

  lemma StepKeepsBillings(cfg: Config, s: Site, op: Op)
    requires Granted(cfg, s, op)
    ensures BillingUuidsKept(s, Step(cfg, s, op))
  {
  }

  lemma LoadedKeepsRows(cfg: Config, s: Site, op: Op)
    requires op.Update? || op.Regenerate? || op.Status? || op.Attach? || op.Detach? || op.Reorder?
    ensures RowsKept(s.world.bills, Step(cfg, s, op).world.bills)
  {
    match Loaded(s, op.bill) {
      case None =>
      case Some(pair) =>
        if op.Attach? || op.Detach? || op.Reorder? {
          ReceiptStepKeepsRows(cfg, s, op, pair.0, pair.1);
        } else {
          BillStepKeepsRows(cfg, s, op, pair.0, pair.1);
        }
    }
  }

  lemma GenerateStores(cfg: Config, w: World, g: Billing, op: Op, w1: World, b: BillData)
    requires op.Generate? && AllIdentified(g.items) && g.id.Some?
    requires var lines := BillingLines(g.items, op.variable) + ExtraLines(op.extras);
             w1 == InsertBill(w, BillData(None, "", g.id.value, op.month, Sum(lines), lines, None, op.notes,
                                          OrNone(op.due), "draft"), op.uuid)
    requires LoadBill(w1, w.nextBill) == Some(b)
    ensures GenerateBill(cfg, w, true, g, op.month, op.variable, op.extras, op.notes, op.due, op.theme, op.uuid).world
         == GenerateAndStore(cfg, w1, true, b, g, op.theme).world
  {
  }

  lemma NewRowKeepsRows(bills: map<int, BillRow>, id: int, row: BillRow)
    requires id !in bills
    ensures RowsKept(bills, bills[id := row])
  {
  }

  lemma GenerateKeepsRows(cfg: Config, s: Site, op: Op)
    requires Inv(cfg, s) && op.Generate?
    ensures RowsKept(s.world.bills, Step(cfg, s, op).world.bills)
  {
    var loaded := LoadBilling(s, op.billing);
    if loaded.Some? && AllIdentified(loaded.value.items) {
      var g, w, id := loaded.value, s.world, s.world.nextBill;
      var lines := BillingLines(g.items, op.variable) + ExtraLines(op.extras);
      var draft := BillData(None, "", op.billing, op.month, Sum(lines), lines, None, op.notes, OrNone(op.due), "draft");
      var w1 := InsertBill(w, draft, op.uuid);
      NewRowKeepsRows(w.bills, id, w1.bills[id]);
      var b := LoadBill(w1, id).value;
      GenerateStores(cfg, w, g, op, w1, b);
      StoringKeepsRows(cfg, w.bills, w1, id, b, g, op.theme);
    }
  }

  lemma UpdateKeepsRows(cfg: Config, w: World, id: int, b: BillData, g: Billing, lines: seq<Item>, notes: string,
                        due: string, theme: string)
    requires LoadBill(w, id) == Some(b)
    ensures RowsKept(w.bills, UpdateBill(cfg, w, true, b, g, lines, notes, due, theme).world.bills)
  {
    var edited := b.(lines := lines, total := Sum(lines), notes := notes, dueDate := OrNone(due));
    var w1 := RewriteBill(w, id, edited);
    EditKeepsRows(w.bills, id, w1.bills[id]);
    StoringKeepsRows(cfg, w.bills, w1, id, LoadBill(w1, id).value, g, theme);
  }

  lemma EditKeepsRows(bills: map<int, BillRow>, id: int, row: BillRow)
    requires id in bills && !bills[id].deleted && row.uuid == bills[id].uuid && row.billingId == bills[id].billingId
    ensures RowsKept(bills, bills[id := row])
  {
  }

  lemma BillStepKeepsRows(cfg: Config, s: Site, op: Op, b: BillData, g: Billing)
    requires op.Update? || op.Regenerate? || op.Status?
    requires Loaded(s, op.bill) == Some((b, g))
    ensures RowsKept(s.world.bills, StepBill(cfg, s, op, b, g).world.bills)
  {
    match op {
      case Update(_, lines, notes, due, theme) => UpdateKeepsRows(cfg, s.world, op.bill, b, g, lines, notes, due, theme);
      case Regenerate(_, theme) => StoringKeepsRows(cfg, s.world.bills, s.world, op.bill, b, g, theme);
      case Status(_, _) =>
    }
  }

  lemma ReceiptStepKeepsRows(cfg: Config, s: Site, op: Op, b: BillData, g: Billing)
    requires op.Attach? || op.Detach? || op.Reorder?
    requires Loaded(s, op.bill) == Some((b, g))
    ensures RowsKept(s.world.bills, StepBill(cfg, s, op, b, g).world.bills)
  {
    match op {
      case Attach(_, filename, bytes, contentType, theme, keyId, uuid) =>
        var r := NewReceipt(cfg, s.world, op.bill, b.uuid, g, filename, bytes, contentType, keyId, uuid);
        StoringKeepsRows(cfg, s.world.bills, InsertReceipt(s.world, r, bytes), op.bill, b, g, theme);
      case Detach(r, _, theme) => StoringKeepsRows(cfg, s.world.bills, Detached(s, r.id).world, op.bill, b, g, theme);
      case Reorder(_, uuids, theme) =>
        var plan := PlanOrder(ListByBill(s.world.receipts, op.bill), uuids);
        if plan.Success? {
          StoringKeepsRows(cfg, s.world.bills, s.world.(receipts := ApplySorts(s.world.receipts, plan.value)), op.bill, b, g,
                           theme);
        }
    }
  }

  /** Whatever requests follow, a bill keeps its identity and its storage key, and a deleted bill
      stays deleted and unchanged. */
  lemma {:induction false} BillsAreForGood(cfg: Config, ops: seq<Op>, more: seq<Op>)
    requires RunGranted(cfg, ops + more)
    ensures RowsKept(Run(cfg, ops).world.bills, Run(cfg, ops + more).world.bills)
    ensures BillingUuidsKept(Run(cfg, ops), Run(cfg, ops + more))
  {
    if more == [] {
      assert ops + more == ops;
    } else {
      var front, last := more[..|more| - 1], more[|more| - 1];
      assert (ops + more)[..|ops + more| - 1] == ops + front;
      BillsAreForGood(cfg, ops, front);
      var before := Run(cfg, ops + front);
      CoherentAlways(cfg, ops + front);
      StepKeepsRows(cfg, before, last);
      StepKeepsBillings(cfg, before, last);
      RowsKeptTwice(Run(cfg, ops).world.bills, before.world.bills, Step(cfg, before, last).world.bills);
    }
  }

  lemma KeysAreForGood(cfg: Config, ops: seq<Op>, more: seq<Op>, id: int)
    requires RunGranted(cfg, ops) && RunGranted(cfg, ops + more) && id in Run(cfg, ops).world.bills
    ensures KeyOf(cfg, Run(cfg, ops + more), id) == KeyOf(cfg, Run(cfg, ops), id)
  {
    BillsAreForGood(cfg, ops, more);
    CoherentAlways(cfg, ops);
  }
}
