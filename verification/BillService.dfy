/** The bill service with its repositories and storage as objects: rentivo/services/bill_service.py
    and the bill and receipt repositories of rentivo/repositories/sqlalchemy.py. Every method is
    proved to do what BillWorld says of the same operation. */
module BillService {
  import opened BillWorld
  import opened ItemTable
  import opened PdfMerge
  import opened Receipts
  import opened Wrappers
  import Keys
  import Pix

  class Storage {
    var objects: map<string, Blob>
    const resolve: string -> string

    constructor (resolve: string -> string)
      ensures objects == map[] && this.resolve == resolve
    {
      objects := map[];
      this.resolve := resolve;
    }

    method Save(key: string, data: Blob) returns (path: string)
      modifies this
      ensures objects == old(objects)[key := data] && path == resolve(key)
    {
      objects := objects[key := data];
      path := resolve(key);
    }

    method Get(key: string) returns (data: Option<Blob>)
      ensures data == if key in objects then Some(objects[key]) else None
    {
      data := if key in objects then Some(objects[key]) else None;
    }
  }

  /** A bill in memory. The service changes the object that its caller holds. */
  class Bill {
    var id: Option<int>
    var uuid: string
    var billingId: int
    var month: string
    var total: int
    var lines: seq<Item>
    var pdfPath: Option<string>
    var notes: string
    var dueDate: Option<string>
    var status: string

    function Data(): BillData
      reads this
    {
      BillData(id, uuid, billingId, month, total, lines, pdfPath, notes, dueDate, status)
    }

    constructor (data: BillData)
      ensures Data() == data
    {
      id, uuid, billingId, month, total := data.id, data.uuid, data.billingId, data.month, data.total;
      lines, pdfPath, notes, dueDate, status := data.lines, data.pdfPath, data.notes, data.dueDate, data.status;
    }
  }

  lemma NewRowsNext(p: int, nextId: int, items: seq<Item>, k: nat)
    requires k < |items|
    ensures NewRows(p, nextId, items[..k + 1]) == NewRows(p, nextId, items[..k]) + [Row(nextId + k, p, k, items[k])]
  {
  }

  class BillRepository {
    var bills: map<int, BillRow>
    var nextBill: int
    var lines: seq<Row>
    var nextLine: int

    constructor ()
      ensures bills == map[] && nextBill == 0 && lines == [] && nextLine == 0
    {
      bills, nextBill, lines, nextLine := map[], 0, [], 0;
    }

    /** The rows of the receipts table and the objects of the storage, with these two tables. */
    function Tables(receipts: seq<Receipt>, nextReceipt: int, objects: map<string, Blob>): World
      reads this
    {
      World(bills, nextBill, lines, nextLine, receipts, nextReceipt, objects)
    }

    method InsertLines(billId: int, items: seq<Item>)
      modifies this`lines, this`nextLine
      ensures lines == old(lines) + NewRows(billId, old(nextLine), items) && nextLine == old(nextLine) + |items|
    {
      ghost var first := nextLine;
      for i := 0 to |items|
        invariant lines == old(lines) + NewRows(billId, first, items[..i]) && nextLine == first + i
      {
        NewRowsNext(billId, first, items, i);
        lines := lines + [Row(nextLine, billId, i, items[i])];
        nextLine := nextLine + 1;
      }
      assert items[..|items|] == items;
    }

    method GetById(id: int) returns (bill: Bill?)
      ensures bill == null <==> LoadBill(Tables([], 0, map[]), id).None?
      ensures bill != null ==> fresh(bill) && LoadBill(Tables([], 0, map[]), id) == Some(bill.Data())
    {
      if id !in bills || bills[id].deleted {
        return null;
      }
      var row := bills[id];
      bill := new Bill(BillData(Some(id), row.uuid, row.billingId, row.month, row.total, Items(OfParent(lines, id)),
                                row.pdfPath, row.notes, row.dueDate, row.status));
    }

    method Create(bill: Bill, uuid: string) returns (created: Bill?)
      modifies this
      ensures Tables([], 0, map[]) == InsertBill(old(Tables([], 0, map[])), bill.Data(), uuid)
      ensures created == null <==> LoadBill(Tables([], 0, map[]), old(nextBill)).None?
      ensures created != null ==> fresh(created) && LoadBill(Tables([], 0, map[]), old(nextBill)) == Some(created.Data())
    {
      var id := nextBill;
      bills := bills[id := BillRow(uuid, bill.billingId, bill.month, bill.total, bill.pdfPath, bill.notes, bill.dueDate,
                                   bill.status, false)];
      nextBill := nextBill + 1;
      InsertLines(id, bill.lines);
      created := GetById(id);
    }

    method DeleteLines(billId: int)
      modifies this`lines
      ensures lines == WithoutParent(old(lines), billId)
    {
      var kept := [];
      for i := 0 to |lines|
        invariant lines == old(lines) && kept == WithoutParent(lines[..i], billId)
      {
        assert lines[..i + 1][..i] == lines[..i];
        if lines[i].parent != billId {
          kept := kept + [lines[i]];
        }
      }
      assert lines[..|lines|] == lines;
      lines := kept;
    }

    method Update(id: int, bill: Bill) returns (loaded: Bill?)
      modifies this
      ensures Tables([], 0, map[]) == RewriteBill(old(Tables([], 0, map[])), id, bill.Data())
      ensures loaded == null <==> LoadBill(Tables([], 0, map[]), id).None?
      ensures loaded != null ==> fresh(loaded) && LoadBill(Tables([], 0, map[]), id) == Some(loaded.Data())
    {
      if id in bills {
        bills := bills[id := bills[id].(month := bill.month, total := bill.total, notes := bill.notes,
                                        dueDate := bill.dueDate)];
        DeleteLines(id);
        InsertLines(id, bill.lines);
      }
      loaded := GetById(id);
    }

    method UpdatePdfPath(id: int, path: string)
      modifies this`bills
      ensures Tables([], 0, map[]) == SetPath(old(Tables([], 0, map[])), id, path)
    {
      if id in bills {
        bills := bills[id := bills[id].(pdfPath := Some(path))];
      }
    }

    method UpdateStatus(id: int, status: string)
      modifies this`bills
      ensures Tables([], 0, map[]) == SetStatus(old(Tables([], 0, map[])), id, status)
    {
      if id in bills {
        bills := bills[id := bills[id].(status := status)];
      }
    }

    method Delete(id: int)
      modifies this`bills
      ensures Tables([], 0, map[]) == MarkDeleted(old(Tables([], 0, map[])), id)
    {
      if id in bills {
        bills := bills[id := bills[id].(deleted := true)];
      }
    }
  }

  class ReceiptRepository {
    var rows: seq<Receipt>
    var nextId: int

    constructor ()
      ensures rows == [] && nextId == 0
    {
      rows, nextId := [], 0;
    }

    method Create(receipt: Receipt, uuid: string) returns (created: Receipt)
      modifies this
      ensures created == receipt.(id := old(nextId), uuid := uuid)
      ensures rows == old(rows) + [created] && nextId == old(nextId) + 1
    {
      created := receipt.(id := nextId, uuid := uuid);
      rows := rows + [created];
      nextId := nextId + 1;
    }

    method Delete(id: int)
      modifies this`rows
      ensures rows == Without(old(rows), id)
    {
      var kept := [];
      for i := 0 to |rows|
        invariant rows == old(rows) && kept == Without(rows[..i], id)
      {
        assert rows[..i + 1][..i] == rows[..i];
        if rows[i].id != id {
          kept := kept + [rows[i]];
        }
      }
      assert rows[..|rows|] == rows;
      rows := kept;
    }

    method UpdateSortOrders(updates: seq<(int, int)>)
      modifies this`rows
      ensures rows == ApplySorts(old(rows), updates)
    {
      for i := 0 to |updates|
        invariant rows == ApplySorts(old(rows), updates[..i])
      {
        assert updates[..i + 1][..i] == updates[..i];
        rows := SetSort(rows, updates[i].0, updates[i].1);
      }
      assert updates[..|updates|] == updates;
    }
  }

  // ---- Loops of the service that change nothing ----

  method Total(lines: seq<Item>) returns (total: int)
    ensures total == Sum(lines)
  {
    total := 0;
    for i := 0 to |lines|
      invariant total == Sum(lines[..i])
    {
      assert lines[..i + 1][..i] == lines[..i];
      total := total + lines[i].amount;
    }
    assert lines[..|lines|] == lines;
  }

  /** The lines of a new bill; refuses an item that is not fixed and has no id. */
  method DraftLines(items: seq<BillingItem>, variable: map<int, int>, extras: seq<(string, int)>)
    returns (lines: Result<seq<Item>, Error>)
    ensures lines == if AllIdentified(items) then Success(BillingLines(items, variable) + ExtraLines(extras))
                     else Failure(MissingId)
  {
    var list := [];
    for i := 0 to |items|
      invariant AllIdentified(items[..i]) && list == BillingLines(items[..i], variable)
    {
      var amount := items[i].item.amount;
      if items[i].item.kind != Fixed {
        if items[i].id.None? {
          assert items[i] in items;
          return Failure(MissingId);
        }
        amount := if items[i].id.value in variable then variable[items[i].id.value] else 0;
      }
      list := list + [items[i].item.(amount := amount)];
    }
    assert items[..|items|] == items;
    for i := 0 to |extras|
      invariant list == BillingLines(items, variable) + ExtraLines(extras[..i])
    {
      list := list + [Item(extras[i].0, extras[i].1, Extra)];
    }
    assert extras[..|extras|] == extras;
    lines := Success(list);
  }

  /** The new sort orders, or the reason to refuse the list. */
  method OrderUpdates(existing: seq<Receipt>, uuids: seq<string>) returns (plan: Result<seq<(int, int)>, OrderError>)
    ensures plan == PlanOrder(existing, uuids)
  {
    var byUuid: map<string, Receipt> := map[];
    for i := 0 to |existing|
      invariant byUuid == ByUuid(existing[..i])
    {
      assert existing[..i + 1][..i] == existing[..i];
      byUuid := byUuid[existing[i].uuid := existing[i]];
    }
    assert existing[..|existing|] == existing;
    for i := 0 to |uuids|
      invariant FirstForeign(byUuid, uuids) == FirstForeign(byUuid, uuids[i..])
      invariant forall k | 0 <= k < i :: uuids[k] in byUuid
    {
      assert uuids[i..][1..] == uuids[i + 1..];
      if uuids[i] !in byUuid {
        return Failure(Foreign(uuids[i]));
      }
    }
    if |uuids| != |existing| {
      return Failure(Incomplete);
    }
    var updates := [];
    for i := 0 to |uuids|
      invariant |updates| == i && forall k | 0 <= k < i :: updates[k] == (byUuid[uuids[k]].id, k)
    {
      updates := updates + [(byUuid[uuids[i]].id, i)];
    }
    assert uuids[|uuids|..] == [];
    assert updates == PlanOrder(existing, uuids).value;
    plan := Success(updates);
  }

  /** The object returned holds the data that the outcome names, or the errors are the same. */
  ghost predicate Returns(result: Result<Bill, Error>, data: Result<BillData, Error>)
    reads if result.Success? then {result.value} else {}
  {
    match result
    case Success(bill) => data == Success(bill.Data())
    case Failure(e) => data == Failure(e)
  }

  class BillService {
    const billRepo: BillRepository
    const storage: Storage
    const receiptRepo: ReceiptRepository?
    const cfg: Config

    constructor (cfg: Config, billRepo: BillRepository, storage: Storage, receiptRepo: ReceiptRepository?)
      requires storage.resolve == cfg.resolve
      ensures Valid() && this.cfg == cfg && this.billRepo == billRepo && this.storage == storage
      ensures this.receiptRepo == receiptRepo
    {
      this.cfg, this.billRepo, this.storage, this.receiptRepo := cfg, billRepo, storage, receiptRepo;
    }

    ghost predicate Valid() {
      storage.resolve == cfg.resolve
    }

    /** Everything that the service can reach. */
    function View(): World
      reads billRepo, storage, receiptRepo
    {
      if receiptRepo == null then billRepo.Tables([], 0, storage.objects)
      else billRepo.Tables(receiptRepo.rows, receiptRepo.nextId, storage.objects)
    }

    function HasReceipts(): bool {
      receiptRepo != null
    }

    method PixDataOf(g: Billing, total: int) returns (pix: Result<Option<PixData>, Error>)
      ensures pix == GetPixData(cfg, g.pixKey, total)
    {
      var key := ChosenKey(cfg, g.pixKey);
      if key == "" || cfg.merchantName == "" || cfg.merchantCity == "" {
        return Success(None);
      }
      var payload := Pix.GeneratePixPayload(PixRequest(cfg, key, total), cfg.strip);
      match payload {
        case Success(text) => pix := Success(Some(PixData(key, text)));
        case Failure(_) => pix := Failure(NotAscii);
      }
    }

    method ReceiptFiles(bill: Bill) returns (files: seq<File>)
      ensures files == FetchReceiptData(View(), HasReceipts(), bill.id)
    {
      if receiptRepo == null || bill.id.None? {
        return [];
      }
      var receipts := ListByBill(receiptRepo.rows, bill.id.value);
      files := [];
      for i := 0 to |receipts|
        invariant files == Fetch(storage.objects, receipts[..i])
      {
        assert receipts[..i + 1][..i] == receipts[..i];
        var data := storage.Get(receipts[i].storageKey);
        if data.Some? {
          files := files + [(data.value, receipts[i].contentType)];
        }
      }
      assert receipts[..|receipts|] == receipts;
    }

    /** Draws the PDF of a bill, merges its receipts into it and stores it. */
    method GenerateAndStorePdf(bill: Bill, g: Billing, theme: string) returns (path: Result<string, Error>)
      requires Valid()
      modifies bill`pdfPath, billRepo`bills, storage
      ensures Outcome(View(), path) == GenerateAndStore(cfg, old(View()), HasReceipts(), old(bill.Data()), g, theme)
      ensures bill.Data() == if path.Success? then old(bill.Data()).(pdfPath := Some(path.value)) else old(bill.Data())
    {
      var pix := PixDataOf(g, bill.total);
      if pix.Failure? {
        return Failure(pix.error);
      }
      var pdf := cfg.draw(Content(bill.Data()), Surroundings(g.name, pix.value, theme));
      var files := ReceiptFiles(bill);
      if files != [] {
        pdf := MergeReceipts(cfg.tools, pdf, files);
      }
      var saved := storage.Save(Keys.StorageKey(cfg.prefix, g.uuid, bill.uuid), pdf);
      if bill.id.None? {
        return Failure(MissingId);
      }
      billRepo.UpdatePdfPath(bill.id.value, saved);
      bill.pdfPath := Some(saved);
      path := Success(saved);
    }

    /** Stores the PDF of a loaded bill and returns the bill. */
    method FinishBill(bill: Bill, g: Billing, theme: string) returns (result: Result<Bill, Error>)
      requires Valid()
      modifies bill`pdfPath, billRepo`bills, storage
      ensures var o := Finish(GenerateAndStore(cfg, old(View()), HasReceipts(), old(bill.Data()), g, theme), old(bill.Data()));
              View() == o.world && Returns(result, o.result)
      ensures result.Success? ==> result.value == bill
    {
      var path := GenerateAndStorePdf(bill, g, theme);
      match path {
        case Success(_) => result := Success(bill);
        case Failure(e) => result := Failure(e);
      }
    }

    /** Inserts a bill that has no id yet and loads it. */
    method CreateBill(draft: BillData, uuid: string) returns (created: Bill?)
      modifies billRepo
      ensures View() == InsertBill(old(View()), draft, uuid)
      ensures created == null <==> LoadBill(View(), old(View()).nextBill).None?
      ensures created != null ==> fresh(created) && LoadBill(View(), old(View()).nextBill) == Some(created.Data())
    {
      var bill := new Bill(draft);
      created := billRepo.Create(bill, uuid);
    }

    method GenerateBillPdf(g: Billing, month: string, variable: map<int, int>, extras: seq<(string, int)>, notes: string,
                           due: string, theme: string, uuid: string) returns (bill: Result<Bill, Error>)
      requires Valid()
      modifies billRepo, storage
      ensures var o := GenerateBill(cfg, old(View()), HasReceipts(), g, month, variable, extras, notes, due, theme, uuid);
              View() == o.world && Returns(bill, o.result)
      ensures bill.Success? ==> fresh(bill.value)
    {
      var lines := DraftLines(g.items, variable, extras);
      if lines.Failure? {
        return Failure(lines.error);
      }
      var total := Total(lines.value);
      if g.id.None? {
        return Failure(MissingId);
      }
      var draft := BillData(None, "", g.id.value, month, total, lines.value, None, notes, OrNone(due), "draft");
      var created := CreateBill(draft, uuid);
      if created == null {
        return Failure(NotFound);
      }
      bill := FinishBill(created, g, theme);
    }

    /** Writes a bill over its row and loads it. */
    method RewriteAndLoad(id: int, bill: Bill) returns (loaded: Bill?)
      modifies billRepo
      ensures View() == RewriteBill(old(View()), id, bill.Data())
      ensures loaded == null <==> LoadBill(View(), id).None?
      ensures loaded != null ==> fresh(loaded) && LoadBill(View(), id) == Some(loaded.Data())
    {
      loaded := billRepo.Update(id, bill);
    }

    /** The caller's object takes the new values at once; the one that gets the path of the PDF is
        loaded anew. */
    method UpdateBillPdf(bill: Bill, g: Billing, lines: seq<Item>, notes: string, due: string, theme: string)
      returns (updated: Result<Bill, Error>)
      requires Valid()
      modifies bill, billRepo, storage
      ensures var o := UpdateBill(cfg, old(View()), HasReceipts(), old(bill.Data()), g, lines, notes, due, theme);
              View() == o.world && Returns(updated, o.result)
      ensures updated.Success? ==> fresh(updated.value)
      ensures bill.Data() == old(bill.Data()).(lines := lines, total := Sum(lines), notes := notes, dueDate := OrNone(due))
    {
      bill.lines := lines;
      bill.total := Total(lines);
      bill.notes := notes;
      bill.dueDate := OrNone(due);
      if bill.id.None? {
        return Failure(MissingId);
      }
      var loaded := RewriteAndLoad(bill.id.value, bill);
      if loaded == null {
        return Failure(NotFound);
      }
      updated := FinishBill(loaded, g, theme);
    }

    method SetBillStatus(bill: Bill, status: string) returns (error: Option<Error>)
      modifies bill`status, billRepo`bills
      ensures var o := ChangeStatus(old(View()), old(bill.Data()), status);
              && View() == o.world
              && (error.None? ==> o.result == Success(bill.Data()))
              && (error.Some? ==> o.result == Failure(error.value) && bill.Data() == old(bill.Data()))
    {
      if !IsStatus(status) {
        return Some(BadStatus);
      }
      if bill.id.None? {
        return Some(MissingId);
      }
      billRepo.UpdateStatus(bill.id.value, status);
      bill.status := status;
      error := None;
    }

    method DeleteBill(id: int)
      modifies billRepo`bills
      ensures View() == MarkDeleted(old(View()), id)
    {
      billRepo.Delete(id);
    }

    /** Saves an accepted upload under a new key and inserts its row after the bill's others. */
    method StoreUpload(repo: ReceiptRepository, billId: int, billUuid: string, g: Billing, filename: string, bytes: Blob,
                       contentType: string, keyId: string, uuid: string) returns (receipt: Receipt)
      requires Valid() && repo == receiptRepo
      modifies storage, repo
      ensures receipt == NewReceipt(cfg, old(View()), billId, billUuid, g, filename, bytes, contentType, keyId, uuid)
      ensures View() == InsertReceipt(old(View()), receipt, bytes)
    {
      var key := Keys.ReceiptKey(cfg.prefix, g.uuid, billUuid, keyId, contentType);
      var sort := MaxSort(ListByBill(repo.rows, billId)) + 1;
      var _ := storage.Save(key, bytes);
      receipt := repo.Create(Receipt(0, "", billId, filename, key, contentType, |bytes|, sort), uuid);
    }

    method AddReceiptFile(bill: Bill, g: Billing, filename: string, bytes: Blob, contentType: string, theme: string,
                          keyId: string, uuid: string) returns (added: Result<Receipt, Error>)
      requires Valid()
      modifies bill`pdfPath, billRepo`bills, storage, receiptRepo
      ensures Outcome(View(), added) == AddReceipt(cfg, old(View()), HasReceipts(), old(bill.Data()), g, filename, bytes,
                                                   contentType, theme, keyId, uuid)
    {
      if receiptRepo == null {
        return Failure(NotConfigured);
      }
      if bill.id.None? {
        return Failure(MissingId);
      }
      if !Keys.IsAllowedType(contentType) {
        return Failure(BadType);
      }
      if |bytes| > MAX_RECEIPT_SIZE {
        return Failure(TooLarge);
      }
      if bytes == [] {
        return Failure(EmptyFile);
      }
      var receipt := StoreUpload(receiptRepo, bill.id.value, bill.uuid, g, filename, bytes, contentType, keyId, uuid);
      var path := GenerateAndStorePdf(bill, g, theme);
      match path {
        case Success(_) => added := Success(receipt);
        case Failure(e) => added := Failure(e);
      }
    }

    method RemoveReceipt(receiptId: Option<int>, bill: Bill, g: Billing, theme: string)
      returns (path: Result<string, Error>)
      requires Valid()
      modifies bill`pdfPath, billRepo`bills, storage, receiptRepo
      ensures Outcome(View(), path) == DeleteReceipt(cfg, old(View()), HasReceipts(), receiptId, old(bill.Data()), g, theme)
    {
      if receiptRepo == null {
        return Failure(NotConfigured);
      }
      if receiptId.None? {
        return Failure(MissingId);
      }
      receiptRepo.Delete(receiptId.value);
      path := GenerateAndStorePdf(bill, g, theme);
    }

    method ReorderBillReceipts(bill: Bill, g: Billing, uuids: seq<string>, theme: string)
      returns (path: Result<string, Error>)
      requires Valid()
      modifies bill`pdfPath, billRepo`bills, storage, receiptRepo
      ensures Outcome(View(), path) == ReorderReceipts(cfg, old(View()), HasReceipts(), old(bill.Data()), g, uuids, theme)
    {
      if receiptRepo == null {
        return Failure(NotConfigured);
      }
      if bill.id.None? {
        return Failure(MissingId);
      }
      var plan := OrderUpdates(ListByBill(receiptRepo.rows, bill.id.value), uuids);
      if plan.Failure? {
        return Failure(BadOrder(plan.error));
      }
      receiptRepo.UpdateSortOrders(plan.value);
      path := GenerateAndStorePdf(bill, g, theme);
    }
  }
}
