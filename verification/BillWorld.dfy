/** What the operations of rentivo/services/bill_service.py do to the tables and the storage,
    as functions on their contents. */
module BillWorld {
  import opened ItemTable
  import opened PdfMerge
  import opened Receipts
  import opened Wrappers
  import Keys
  import Pix

  // ---- Data ----

  datatype BillRow = BillRow(
    uuid: string, billingId: int, month: string, total: int, pdfPath: Option<string>, notes: string,
    dueDate: Option<string>, status: string, deleted: bool)

  /** The fields of a Bill object. */
  datatype BillData = BillData(
    id: Option<int>, uuid: string, billingId: int, month: string, total: int, lines: seq<Item>,
    pdfPath: Option<string>, notes: string, dueDate: Option<string>, status: string)

  datatype BillingItem = BillingItem(id: Option<int>, item: Item)

  datatype Billing = Billing(id: Option<int>, uuid: string, name: string, pixKey: string, items: seq<BillingItem>)

  /** The tables and the storage behind the service. */
  datatype World = World(
    bills: map<int, BillRow>, nextBill: int, lines: seq<Row>, nextLine: int,
    receipts: seq<Receipt>, nextReceipt: int, objects: map<string, Blob>)

  /** What the invoice shows of the bill itself. */
  datatype BillContent = BillContent(
    month: string, dueDate: Option<string>, lines: seq<Item>, total: int, notes: string)

  datatype PixData = PixData(key: string, payload: string)

  /** What it shows besides: the billing's name, the PIX data and the theme. */
  datatype Surroundings = Surroundings(billingName: string, pix: Option<PixData>, theme: string)

  /** Settings, float rounding and the libraries. */
  datatype Config = Config(
    prefix: string, pixKey: string, merchantName: string, merchantCity: string,
    strip: string -> string, fl: real -> real,
    tools: Tools, draw: (BillContent, Surroundings) -> Blob, resolve: string -> string)

  datatype Error =
    | MissingId | NotConfigured | NotAscii | BadStatus | NotFound
    | BadType | TooLarge | EmptyFile | BadOrder(reason: OrderError)

  datatype Outcome<+T> = Outcome(world: World, result: Result<T, Error>)

  function Content(b: BillData): BillContent {
    BillContent(b.month, b.dueDate, b.lines, b.total, b.notes)
  }

  function Sum(items: seq<Item>): int {
    if items == [] then 0 else Sum(items[..|items| - 1]) + items[|items| - 1].amount
  }

  /** due_date or None. */
  function OrNone(s: string): Option<string> {
    if s == "" then None else Some(s)
  }

  // ---- The bill tables ----

  function LinesOf(w: World, id: int): seq<Item> {
    Items(OfParent(w.lines, id))
  }

  function LoadBill(w: World, id: int): Option<BillData> {
    if id in w.bills && !w.bills[id].deleted then
      var r := w.bills[id];
      Some(BillData(Some(id), r.uuid, r.billingId, r.month, r.total, LinesOf(w, id), r.pdfPath, r.notes,
                    r.dueDate, r.status))
    else None
  }

  function InsertBill(w: World, b: BillData, uuid: string): World {
    var row := BillRow(uuid, b.billingId, b.month, b.total, b.pdfPath, b.notes, b.dueDate, b.status, false);
    w.(bills := w.bills[w.nextBill := row], nextBill := w.nextBill + 1,
       lines := w.lines + NewRows(w.nextBill, w.nextLine, b.lines), nextLine := w.nextLine + |b.lines|)
  }

  function RewriteBill(w: World, id: int, b: BillData): World {
    if id in w.bills then
      w.(bills := w.bills[id := w.bills[id].(month := b.month, total := b.total, notes := b.notes, dueDate := b.dueDate)],
         lines := Rewrite(w.lines, id, w.nextLine, b.lines), nextLine := w.nextLine + |b.lines|)
    else w
  }

  function SetPath(w: World, id: int, path: string): World {
    if id in w.bills then w.(bills := w.bills[id := w.bills[id].(pdfPath := Some(path))]) else w
  }

  function SetStatus(w: World, id: int, status: string): World {
    if id in w.bills then w.(bills := w.bills[id := w.bills[id].(status := status)]) else w
  }

  function MarkDeleted(w: World, id: int): World {
    if id in w.bills then w.(bills := w.bills[id := w.bills[id].(deleted := true)]) else w
  }

  // ---- PIX data and the stored PDF ----

  function PixRequest(cfg: Config, key: string, total: int): Pix.Request {
    Pix.Request(key, cfg.merchantName, cfg.merchantCity, Some(cfg.fl(total as real / 100.0)), "***")
  }

  function ChosenKey(cfg: Config, billingKey: string): string {
    if billingKey != "" then billingKey else cfg.pixKey
  }

  function GetPixData(cfg: Config, billingKey: string, total: int): Result<Option<PixData>, Error> {
    var key := ChosenKey(cfg, billingKey);
    if key == "" || cfg.merchantName == "" || cfg.merchantCity == "" then Success(None)
    else
      match Pix.Payload(PixRequest(cfg, key, total), cfg.strip)
      case Success(payload) => Success(Some(PixData(key, payload)))
      case Failure(_) => Failure(NotAscii)
  }

  /** The stored files of the receipts, without those whose file is missing. */
  function Fetch(objects: map<string, Blob>, rs: seq<Receipt>): seq<File> {
    if rs == [] then []
    else
      var last := rs[|rs| - 1];
      if last.storageKey in objects then
        Fetch(objects, rs[..|rs| - 1]) + [(objects[last.storageKey], last.contentType)]
      else Fetch(objects, rs[..|rs| - 1])
  }

  function FetchReceiptData(w: World, hasReceipts: bool, id: Option<int>): seq<File> {
    if !hasReceipts || id.None? then [] else Fetch(w.objects, ListByBill(w.receipts, id.value))
  }

  function StoredPdf(cfg: Config, content: BillContent, around: Surroundings, files: seq<File>): Blob {
    Merged(cfg.tools, cfg.draw(content, around), files)
  }

  function GenerateAndStore(cfg: Config, w: World, hasReceipts: bool, b: BillData, g: Billing, theme: string)
    : Outcome<string>
  {
    match GetPixData(cfg, g.pixKey, b.total)
    case Failure(e) => Outcome(w, Failure(e))
    case Success(pix) =>
      var key := Keys.StorageKey(cfg.prefix, g.uuid, b.uuid);
      var pdf := StoredPdf(cfg, Content(b), Surroundings(g.name, pix, theme), FetchReceiptData(w, hasReceipts, b.id));
      var stored := w.(objects := w.objects[key := pdf]);
      if b.id.None? then Outcome(stored, Failure(MissingId))
      else Outcome(SetPath(stored, b.id.value, cfg.resolve(key)), Success(cfg.resolve(key)))
  }

  /** The outcome of an operation that ends by storing the PDF of b. */
  function Finish(o: Outcome<string>, b: BillData): Outcome<BillData> {
    Outcome(o.world,
            match o.result
            case Success(path) => Success(b.(pdfPath := Some(path)))
            case Failure(e) => Failure(e))
  }

  // ---- Operations on bills ----

  /** The amount of a line: fixed, or looked up with default 0. */
  function LineAmount(i: BillingItem, variable: map<int, int>): int {
    if i.item.kind == Fixed then i.item.amount
    else if i.id.Some? && i.id.value in variable then variable[i.id.value] else 0
  }

  function BillingLines(items: seq<BillingItem>, variable: map<int, int>): seq<Item> {
    seq(|items|, k requires 0 <= k < |items| => items[k].item.(amount := LineAmount(items[k], variable)))
  }

  function ExtraLines(extras: seq<(string, int)>): seq<Item> {
    seq(|extras|, k requires 0 <= k < |extras| => Item(extras[k].0, extras[k].1, Extra))
  }

  predicate AllIdentified(items: seq<BillingItem>) {
    forall i <- items :: i.item.kind == Fixed || i.id.Some?
  }

  function GenerateBill(cfg: Config, w: World, hasReceipts: bool, g: Billing, month: string,
                        variable: map<int, int>, extras: seq<(string, int)>, notes: string, due: string,
                        theme: string, uuid: string): Outcome<BillData>
  {
    if !AllIdentified(g.items) || g.id.None? then Outcome(w, Failure(MissingId))
    else
      var lines := BillingLines(g.items, variable) + ExtraLines(extras);
      var draft := BillData(None, "", g.id.value, month, Sum(lines), lines, None, notes, OrNone(due), "draft");
      var w1 := InsertBill(w, draft, uuid);
      match LoadBill(w1, w.nextBill)
      case None => Outcome(w1, Failure(NotFound))
      case Some(b) => Finish(GenerateAndStore(cfg, w1, hasReceipts, b, g, theme), b)
  }

  function UpdateBill(cfg: Config, w: World, hasReceipts: bool, b: BillData, g: Billing, lines: seq<Item>,
                      notes: string, due: string, theme: string): Outcome<BillData>
  {
    var edited := b.(lines := lines, total := Sum(lines), notes := notes, dueDate := OrNone(due));
    if b.id.None? then Outcome(w, Failure(MissingId))
    else
      var w1 := RewriteBill(w, b.id.value, edited);
      match LoadBill(w1, b.id.value)
      case None => Outcome(w1, Failure(NotFound))
      case Some(loaded) => Finish(GenerateAndStore(cfg, w1, hasReceipts, loaded, g, theme), loaded)
  }

  function RegeneratePdf(cfg: Config, w: World, hasReceipts: bool, b: BillData, g: Billing, theme: string)
    : Outcome<BillData>
  {
    Finish(GenerateAndStore(cfg, w, hasReceipts, b, g, theme), b)
  }

  predicate IsStatus(s: string) {
    s in {"draft", "published", "sent", "paid", "cancelled", "delayed_payment"}
  }

  function ChangeStatus(w: World, b: BillData, status: string): Outcome<BillData> {
    if !IsStatus(status) then Outcome(w, Failure(BadStatus))
    else if b.id.None? then Outcome(w, Failure(MissingId))
    else Outcome(SetStatus(w, b.id.value, status), Success(b.(status := status)))
  }

  // ---- Operations on receipts ----

  const MAX_RECEIPT_SIZE := 10 * 1024 * 1024

  /** Why an upload is refused. */
  function UploadError(bytes: Blob, contentType: string): Option<Error> {
    if !Keys.IsAllowedType(contentType) then Some(BadType)
    else if |bytes| > MAX_RECEIPT_SIZE then Some(TooLarge)
    else if bytes == [] then Some(EmptyFile)
    else None
  }

  /** The row that an accepted upload inserts. */
  function NewReceipt(cfg: Config, w: World, billId: int, billUuid: string, g: Billing, filename: string, bytes: Blob,
                      contentType: string, keyId: string, uuid: string): Receipt
  {
    Receipt(w.nextReceipt, uuid, billId, filename,
            Keys.ReceiptKey(cfg.prefix, g.uuid, billUuid, keyId, contentType), contentType, |bytes|,
            MaxSort(ListByBill(w.receipts, billId)) + 1)
  }

  function InsertReceipt(w: World, r: Receipt, bytes: Blob): World {
    w.(objects := w.objects[r.storageKey := bytes], receipts := w.receipts + [r], nextReceipt := w.nextReceipt + 1)
  }

  function AddReceipt(cfg: Config, w: World, hasReceipts: bool, b: BillData, g: Billing, filename: string,
                      bytes: Blob, contentType: string, theme: string, keyId: string, uuid: string)
    : Outcome<Receipt>
  {
    if !hasReceipts then Outcome(w, Failure(NotConfigured))
    else if b.id.None? then Outcome(w, Failure(MissingId))
    else
      match UploadError(bytes, contentType)
      case Some(e) => Outcome(w, Failure(e))
      case None =>
        var r := NewReceipt(cfg, w, b.id.value, b.uuid, g, filename, bytes, contentType, keyId, uuid);
        var o := GenerateAndStore(cfg, InsertReceipt(w, r, bytes), hasReceipts, b, g, theme);
        Outcome(o.world, match o.result case Success(_) => Success(r) case Failure(e) => Failure(e))
  }

  function DeleteReceipt(cfg: Config, w: World, hasReceipts: bool, receiptId: Option<int>, b: BillData, g: Billing,
                         theme: string): Outcome<string>
  {
    if !hasReceipts then Outcome(w, Failure(NotConfigured))
    else if receiptId.None? then Outcome(w, Failure(MissingId))
    else GenerateAndStore(cfg, w.(receipts := Without(w.receipts, receiptId.value)), hasReceipts, b, g, theme)
  }

  function ReorderReceipts(cfg: Config, w: World, hasReceipts: bool, b: BillData, g: Billing, uuids: seq<string>,
                           theme: string): Outcome<string>
  {
    if !hasReceipts then Outcome(w, Failure(NotConfigured))
    else if b.id.None? then Outcome(w, Failure(MissingId))
    else
      match PlanOrder(ListByBill(w.receipts, b.id.value), uuids)
      case Failure(reason) => Outcome(w, Failure(BadOrder(reason)))
      case Success(updates) =>
        GenerateAndStore(cfg, w.(receipts := ApplySorts(w.receipts, updates)), hasReceipts, b, g, theme)
  }
}
