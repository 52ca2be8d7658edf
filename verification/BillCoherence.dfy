/** The stored PDF as a cache: in every reachable state the PDF of each bill that is not deleted
    is the rendering of the bill's persisted content followed by exactly its receipts in order. */
module BillCoherence {
  import opened BillWorld
  import opened ItemTable
  import opened PdfMerge
  import opened Receipts
  import opened Wrappers
  import Crc
  import Keys
  import Pix

  // ---- States ----

  datatype BillingRow = BillingRow(uuid: string, name: string, pixKey: string, items: seq<BillingItem>, deleted: bool)

  /** The billing's data and the theme at the time a PDF is drawn. */
  datatype Occasion = Occasion(name: string, pixKey: string, theme: string)

  /** Besides the tables and the storage, the occasion on which each bill's PDF was last drawn. */
  datatype Site = Site(world: World, billings: map<int, BillingRow>, drawn: map<int, Occasion>)

  /** The site after a request that ends by storing the PDF of a bill, which it does on success. */
  function After<T>(s: Site, id: int, o: Outcome<T>, g: Billing, theme: string): Site {
    Site(o.world, s.billings, if o.result.Success? then s.drawn[id := Occasion(g.name, g.pixKey, theme)] else s.drawn)
  }

  function LoadBilling(s: Site, id: int): Option<Billing> {
    if id in s.billings && !s.billings[id].deleted then
      var g := s.billings[id];
      Some(Billing(Some(id), g.uuid, g.name, g.pixKey, g.items))
    else None
  }

  /** The texts that would enter a PIX payload are ASCII, or there is no payload. */
  predicate PixReady(cfg: Config, billingKey: string) {
    var key := ChosenKey(cfg, billingKey);
    || key == "" || cfg.merchantName == "" || cfg.merchantCity == ""
    || (Crc.IsAscii(key) && Crc.IsAscii(Pix.Clip(cfg.strip(cfg.merchantName), 25))
        && Crc.IsAscii(Pix.Clip(cfg.strip(cfg.merchantCity), 15)))
  }

  /** PIX data can be made for a bill exactly when the texts are ready, whatever its total. */
  lemma PixReadyIff(cfg: Config, billingKey: string, total: int)
    ensures PixReady(cfg, billingKey) <==> GetPixData(cfg, billingKey, total).Success?
  {
    var q := PixRequest(cfg, ChosenKey(cfg, billingKey), total);
    Pix.PayloadSucceedsIff(q, cfg.strip);
    assert Crc.IsAscii("***");
  }

  function KeyOf(cfg: Config, s: Site, id: int): string {
    if id in s.world.bills && s.world.bills[id].billingId in s.billings then
      Keys.StorageKey(cfg.prefix, s.billings[s.world.bills[id].billingId].uuid, s.world.bills[id].uuid)
    else ""
  }

  ghost predicate BillsWellFormed(s: Site) {
    && (forall id <- s.world.bills ::
          && id < s.world.nextBill
          && s.world.bills[id].billingId in s.billings
          && Keys.IsId(s.world.bills[id].uuid))
    && (forall i, j | i in s.world.bills && j in s.world.bills && i != j ::
          s.world.bills[i].uuid != s.world.bills[j].uuid)
    && (forall id <- s.world.bills :: s.world.bills[id].total == Sum(LinesOf(s.world, id)))
  }

  ghost predicate LinesWellFormed(w: World) {
    WellNumbered(w.lines) && forall r <- w.lines :: r.parent in w.bills
  }

  /** The file of a receipt is where its row says, at a key made for its bill. */
  ghost predicate ReceiptStored(cfg: Config, s: Site, r: Receipt) {
    && r.billId in s.world.bills && s.world.bills[r.billId].billingId in s.billings
    && r.storageKey in s.world.objects && Keys.IsAllowedType(r.contentType)
    && exists keyId: string :: r.storageKey ==
         Keys.ReceiptKey(cfg.prefix, s.billings[s.world.bills[r.billId].billingId].uuid,
                         s.world.bills[r.billId].uuid, keyId, r.contentType)
  }

  ghost predicate ReceiptsWellFormed(cfg: Config, s: Site) {
    && DistinctIds(s.world.receipts) && DistinctUuids(s.world.receipts)
    && forall r <- s.world.receipts :: r.id < s.world.nextReceipt && ReceiptStored(cfg, s, r)
  }

  ghost predicate BillingsWellFormed(cfg: Config, s: Site) {
    forall g <- s.billings :: Keys.IsId(s.billings[g].uuid) && PixReady(cfg, s.billings[g].pixKey)
  }

  ghost predicate WellFormed(cfg: Config, s: Site) {
    && BillsWellFormed(s) && LinesWellFormed(s.world)
    && ReceiptsWellFormed(cfg, s) && BillingsWellFormed(cfg, s)
  }

  // ---- Coherence ----

  /** What a PDF drawn on an occasion shows around a bill of the given total. */
  function Around(cfg: Config, o: Occasion, total: int): Surroundings {
    match GetPixData(cfg, o.pixKey, total)
    case Success(pix) => Surroundings(o.name, pix, o.theme)
    case Failure(_) => Surroundings(o.name, None, o.theme)
  }

  function RowContent(w: World, id: int): BillContent
    requires id in w.bills
  {
    var r := w.bills[id];
    BillContent(r.month, r.dueDate, LinesOf(w, id), r.total, r.notes)
  }

  ghost predicate Shows(cfg: Config, s: Site, id: int, o: Occasion) {
    var w, key := s.world, KeyOf(cfg, s, id);
    && id in w.bills && key in w.objects
    && w.objects[key] == StoredPdf(cfg, RowContent(w, id), Around(cfg, o, w.bills[id].total),
                                   Fetch(w.objects, ListByBill(w.receipts, id)))
    && w.bills[id].pdfPath == Some(cfg.resolve(key))
  }

  /** The stored PDF shows the bill's persisted content and its receipts in order, with the
      billing's data and the theme as they were when it was last drawn. */
  ghost predicate Coherent(cfg: Config, s: Site, id: int) {
    id in s.drawn && PixReady(cfg, s.drawn[id].pixKey) && Shows(cfg, s, id, s.drawn[id])
  }

  /** Well formed, and coherent but for the bills that an operation is still working on. */
  ghost predicate InvBut(cfg: Config, s: Site, pending: set<int>) {
    && WellFormed(cfg, s)
    && forall id <- s.world.bills | !s.world.bills[id].deleted && id !in pending :: Coherent(cfg, s, id)
  }

  ghost predicate Inv(cfg: Config, s: Site) {
    InvBut(cfg, s, {})
  }

  // ---- Frames ----

  lemma {:induction false} FetchFrame(o1: map<string, Blob>, o2: map<string, Blob>, rs: seq<Receipt>)
    requires forall r <- rs :: r.storageKey in o1 && r.storageKey in o2 && o1[r.storageKey] == o2[r.storageKey]
    ensures Fetch(o1, rs) == Fetch(o2, rs)
  {
    if rs != [] {
      assert rs == rs[..|rs| - 1] + [rs[|rs| - 1]];
      FetchFrame(o1, o2, rs[..|rs| - 1]);
    }
  }

  /** Every receipt of a well-formed state is in the merged PDF: none is skipped as missing. */
  lemma {:induction false} FetchComplete(objects: map<string, Blob>, rs: seq<Receipt>)
    requires forall r <- rs :: r.storageKey in objects
    ensures |Fetch(objects, rs)| == |rs|
    ensures forall i | 0 <= i < |rs| :: rs[i] in rs && Fetch(objects, rs)[i] == (objects[rs[i].storageKey], rs[i].contentType)
  {
    if rs != [] {
      assert rs == rs[..|rs| - 1] + [rs[|rs| - 1]];
      FetchComplete(objects, rs[..|rs| - 1]);
    }
  }

  /** Two states agree on everything that the PDF of a bill is made of. */
  ghost predicate SameBill(cfg: Config, s: Site, t: Site, id: int) {
    && id in s.world.bills && id in t.world.bills && s.world.bills[id] == t.world.bills[id]
    && (id in s.drawn ==> id in t.drawn && t.drawn[id] == s.drawn[id])
    && KeyOf(cfg, s, id) == KeyOf(cfg, t, id)
    && OfParent(s.world.lines, id) == OfParent(t.world.lines, id)
    && ListByBill(s.world.receipts, id) == ListByBill(t.world.receipts, id)
  }

  lemma CoherentFrame(cfg: Config, s: Site, t: Site, id: int)
    requires SameBill(cfg, s, t, id) && Coherent(cfg, s, id)
    requires KeyOf(cfg, s, id) in t.world.objects
          && t.world.objects[KeyOf(cfg, s, id)] == s.world.objects[KeyOf(cfg, s, id)]
    requires forall r <- ListByBill(s.world.receipts, id) ::
               && r.storageKey in s.world.objects && r.storageKey in t.world.objects
               && s.world.objects[r.storageKey] == t.world.objects[r.storageKey]
    ensures Coherent(cfg, t, id)
  {
    FetchFrame(s.world.objects, t.world.objects, ListByBill(s.world.receipts, id));
    assert RowContent(s.world, id) == RowContent(t.world, id);
  }

  // ---- No save overwrites another object ----

  lemma BillKeysDiffer(cfg: Config, s: Site, i: int, j: int)
    requires WellFormed(cfg, s) && i in s.world.bills && j in s.world.bills && i != j
    ensures KeyOf(cfg, s, i) != KeyOf(cfg, s, j)
  {
    var bi, bj := s.world.bills[i], s.world.bills[j];
    if KeyOf(cfg, s, i) == KeyOf(cfg, s, j) {
      Keys.StorageKeyInjective(cfg.prefix, s.billings[bi.billingId].uuid, bi.uuid, s.billings[bj.billingId].uuid, bj.uuid);
    }
  }

  lemma ReceiptKeyDiffers(cfg: Config, s: Site, i: int, r: Receipt)
    requires WellFormed(cfg, s) && i in s.world.bills && r in s.world.receipts
    ensures KeyOf(cfg, s, i) != r.storageKey
  {
    var bi, br := s.world.bills[i], s.world.bills[r.billId];
    var gr := s.billings[br.billingId].uuid;
    var keyId: string :| r.storageKey == Keys.ReceiptKey(cfg.prefix, gr, br.uuid, keyId, r.contentType);
    Keys.KeysDisjoint(cfg.prefix, s.billings[bi.billingId].uuid, bi.uuid, gr, br.uuid, keyId, r.contentType);
  }

  // ---- Storing the PDF of a bill ----

  /** The state after a PDF is saved under the key of a bill and the path noted in its row. */
  function Stored(cfg: Config, s: Site, id: int, o: Occasion, pdf: Blob): Site {
    var key := KeyOf(cfg, s, id);
    Site(SetPath(s.world.(objects := s.world.objects[key := pdf]), id, cfg.resolve(key)), s.billings, s.drawn[id := o])
  }

  lemma StoredWellFormed(cfg: Config, s: Site, id: int, o: Occasion, pdf: Blob)
    requires WellFormed(cfg, s) && id in s.world.bills
    ensures WellFormed(cfg, Stored(cfg, s, id, o, pdf))
  {
    var t := Stored(cfg, s, id, o, pdf);
    forall r | r in t.world.receipts ensures ReceiptStored(cfg, t, r) {
      assert ReceiptStored(cfg, s, r);
    }
  }

  lemma StoredKeepsFiles(cfg: Config, s: Site, id: int, o: Occasion, pdf: Blob, j: int)
    requires WellFormed(cfg, s) && id in s.world.bills
    ensures forall r <- ListByBill(s.world.receipts, j) ::
              && r.storageKey in s.world.objects && r.storageKey in Stored(cfg, s, id, o, pdf).world.objects
              && s.world.objects[r.storageKey] == Stored(cfg, s, id, o, pdf).world.objects[r.storageKey]
  {
    ListByBillIsListing(s.world.receipts, j);
    forall r | r in ListByBill(s.world.receipts, j) ensures KeyOf(cfg, s, id) != r.storageKey {
      ReceiptKeyDiffers(cfg, s, id, r);
    }
  }

  lemma StoredKeepsOthers(cfg: Config, s: Site, id: int, o: Occasion, pdf: Blob, j: int)
    requires WellFormed(cfg, s) && id in s.world.bills && j in s.world.bills && j != id && Coherent(cfg, s, j)
    ensures Coherent(cfg, Stored(cfg, s, id, o, pdf), j)
  {
    BillKeysDiffer(cfg, s, id, j);
    StoredKeepsFiles(cfg, s, id, o, pdf, j);
    CoherentFrame(cfg, s, Stored(cfg, s, id, o, pdf), j);
  }

  lemma StoredShows(cfg: Config, s: Site, id: int, o: Occasion, pdf: Blob)
    requires WellFormed(cfg, s) && id in s.world.bills
    requires pdf == StoredPdf(cfg, RowContent(s.world, id), Around(cfg, o, s.world.bills[id].total),
                              Fetch(s.world.objects, ListByBill(s.world.receipts, id)))
    ensures Shows(cfg, Stored(cfg, s, id, o, pdf), id, o)
  {
    var t := Stored(cfg, s, id, o, pdf);
    StoredKeepsFiles(cfg, s, id, o, pdf, id);
    FetchFrame(s.world.objects, t.world.objects, ListByBill(s.world.receipts, id));
    assert RowContent(t.world, id) == RowContent(s.world, id);
  }

  /** Drawing and storing the PDF of a loaded bill makes the last incoherent bill coherent. */
  lemma GenerateRestores(cfg: Config, s: Site, id: int, b: BillData, g: Billing, theme: string)
    requires InvBut(cfg, s, {id})
    requires LoadBill(s.world, id) == Some(b) && LoadBilling(s, b.billingId) == Some(g)
    ensures var r := GenerateAndStore(cfg, s.world, true, b, g, theme);
            r.result.Success? && Inv(cfg, After(s, id, r, g, theme))
  {
    var r := GenerateAndStore(cfg, s.world, true, b, g, theme);
    PixReadyIff(cfg, g.pixKey, b.total);
    var o := Occasion(g.name, g.pixKey, theme);
    var pdf := StoredPdf(cfg, Content(b), Around(cfg, o, b.total), Fetch(s.world.objects, ListByBill(s.world.receipts, id)));
    var t := Stored(cfg, s, id, o, pdf);
    assert After(s, id, r, g, theme) == t;
    StoredWellFormed(cfg, s, id, o, pdf);
    StoredShows(cfg, s, id, o, pdf);
    assert Coherent(cfg, t, id);
    forall j | j in t.world.bills && !t.world.bills[j].deleted ensures Coherent(cfg, t, j) {
      if j != id {
        StoredKeepsOthers(cfg, s, id, o, pdf, j);
      }
    }
  }

  // ---- Changes of the tables leave one bill to redraw ----

  ghost predicate KeepsObjects(before: map<string, Blob>, after: map<string, Blob>) {
    forall k <- before :: k in after && after[k] == before[k]
  }

  /** A change that touches only one bill, its lines or its receipts, and adds objects at most. */
  lemma OnlyOnePending(cfg: Config, s: Site, t: Site, id: int)
    requires Inv(cfg, s) && WellFormed(cfg, t)
    requires KeepsObjects(s.world.objects, t.world.objects)
    requires forall j <- t.world.bills | j != id && !t.world.bills[j].deleted :: SameBill(cfg, s, t, j)
    ensures InvBut(cfg, t, {id})
  {
    forall j | j in t.world.bills && !t.world.bills[j].deleted && j != id ensures Coherent(cfg, t, j) {
      ListByBillIsListing(s.world.receipts, j);
      forall r | r in ListByBill(s.world.receipts, j) ensures r.storageKey in s.world.objects {
        assert ReceiptStored(cfg, s, r);
      }
      CoherentFrame(cfg, s, t, j);
    }
  }

  lemma {:induction false} SumConcat(a: seq<Item>, b: seq<Item>)
    ensures Sum(a + b) == Sum(a) + Sum(b)
  {
    if b == [] {
      assert a + b == a;
    } else {
      assert (a + b)[..|a + b| - 1] == a + b[..|b| - 1];
      SumConcat(a, b[..|b| - 1]);
    }
  }

  lemma {:induction false} NoLines(rows: seq<Row>, id: int)
    requires forall r <- rows :: r.parent != id
    ensures OfParent(rows, id) == [] && WithoutParent(rows, id) == rows
  {
    if rows != [] {
      assert rows == rows[..|rows| - 1] + [rows[|rows| - 1]];
      NoLines(rows[..|rows| - 1], id);
    }
  }

  lemma {:induction false} WithoutParentMembers(rows: seq<Row>, id: int)
    ensures forall r <- WithoutParent(rows, id) :: r in rows
  {
    if rows != [] {
      assert rows == rows[..|rows| - 1] + [rows[|rows| - 1]];
      WithoutParentMembers(rows[..|rows| - 1], id);
    }
  }

  lemma RewriteLines(w: World, id: int, items: seq<Item>, bills: map<int, BillRow>)
    requires LinesWellFormed(w) && id in bills && forall j <- w.bills :: j in bills
    ensures var rows := Rewrite(w.lines, id, w.nextLine, items);
            && WellNumbered(rows) && (forall r <- rows :: r.parent in bills)
            && Items(OfParent(rows, id)) == items
            && forall j: int | j != id :: OfParent(rows, j) == OfParent(w.lines, j)
  {
    RewriteKeepsOrder(w.lines, id, w.nextLine, items);
    WithoutParentMembers(w.lines, id);
  }

  lemma InsertLines(w: World, items: seq<Item>, bills: map<int, BillRow>)
    requires LinesWellFormed(w) && w.nextBill in bills
    requires forall j <- w.bills :: j in bills && j < w.nextBill
    ensures var rows := w.lines + NewRows(w.nextBill, w.nextLine, items);
            && WellNumbered(rows) && (forall r <- rows :: r.parent in bills)
            && Items(OfParent(rows, w.nextBill)) == items
            && forall j: int | j != w.nextBill :: OfParent(rows, j) == OfParent(w.lines, j)
  {
    NoLines(w.lines, w.nextBill);
    RewriteLines(w, w.nextBill, items, bills);
  }

  lemma InsertWellFormed(cfg: Config, s: Site, draft: BillData, uuid: string)
    requires WellFormed(cfg, s) && draft.billingId in s.billings && draft.total == Sum(draft.lines)
    requires Keys.IsId(uuid) && forall j <- s.world.bills :: s.world.bills[j].uuid != uuid
    ensures WellFormed(cfg, s.(world := InsertBill(s.world, draft, uuid)))
  {
    var t := s.(world := InsertBill(s.world, draft, uuid));
    InsertedLines(s, draft, uuid);
    forall r | r in t.world.receipts ensures ReceiptStored(cfg, t, r) {
      assert ReceiptStored(cfg, s, r);
    }
  }

  lemma InsertedLines(s: Site, draft: BillData, uuid: string)
    requires BillsWellFormed(s) && LinesWellFormed(s.world)
    requires draft.billingId in s.billings && draft.total == Sum(draft.lines)
    requires Keys.IsId(uuid) && forall j <- s.world.bills :: s.world.bills[j].uuid != uuid
    ensures BillsWellFormed(s.(world := InsertBill(s.world, draft, uuid)))
    ensures LinesWellFormed(InsertBill(s.world, draft, uuid))
  {
    InsertLines(s.world, draft.lines, InsertBill(s.world, draft, uuid).bills);
  }

  lemma InsertKeeps(cfg: Config, s: Site, draft: BillData, uuid: string)
    requires Inv(cfg, s) && draft.billingId in s.billings && draft.total == Sum(draft.lines)
    requires Keys.IsId(uuid) && forall j <- s.world.bills :: s.world.bills[j].uuid != uuid
    ensures var t := s.(world := InsertBill(s.world, draft, uuid));
            && InvBut(cfg, t, {s.world.nextBill})
            && LoadBill(t.world, s.world.nextBill) == Some(draft.(id := Some(s.world.nextBill), uuid := uuid))
  {
    var t := s.(world := InsertBill(s.world, draft, uuid));
    InsertWellFormed(cfg, s, draft, uuid);
    InsertLines(s.world, draft.lines, t.world.bills);
    OnlyOnePending(cfg, s, t, s.world.nextBill);
  }

  lemma RewriteWellFormed(cfg: Config, s: Site, id: int, b: BillData)
    requires WellFormed(cfg, s) && id in s.world.bills && b.total == Sum(b.lines)
    ensures WellFormed(cfg, s.(world := RewriteBill(s.world, id, b)))
  {
    var t := s.(world := RewriteBill(s.world, id, b));
    RewrittenLines(s, id, b);
    forall r | r in t.world.receipts ensures ReceiptStored(cfg, t, r) {
      assert ReceiptStored(cfg, s, r);
    }
  }

  lemma RewrittenLines(s: Site, id: int, b: BillData)
    requires BillsWellFormed(s) && LinesWellFormed(s.world) && id in s.world.bills && b.total == Sum(b.lines)
    ensures BillsWellFormed(s.(world := RewriteBill(s.world, id, b)))
    ensures LinesWellFormed(RewriteBill(s.world, id, b))
  {
    RewriteLines(s.world, id, b.lines, RewriteBill(s.world, id, b).bills);
  }

  lemma RewriteKeeps(cfg: Config, s: Site, id: int, b: BillData)
    requires Inv(cfg, s) && id in s.world.bills && b.total == Sum(b.lines)
    ensures var t := s.(world := RewriteBill(s.world, id, b));
            InvBut(cfg, t, {id}) && LinesOf(t.world, id) == b.lines
  {
    var t := s.(world := RewriteBill(s.world, id, b));
    RewriteWellFormed(cfg, s, id, b);
    RewriteLines(s.world, id, b.lines, t.world.bills);
    OnlyOnePending(cfg, s, t, id);
  }

  /** The state after a receipt's file is saved and its row inserted. */
  function Attached(s: Site, r: Receipt, bytes: Blob): Site {
    s.(world := InsertReceipt(s.world, r, bytes))
  }

  /** A new row for a bill of the site: a fresh uuid, a fresh key made for the bill, and the next
      sort order. */
  ghost predicate Attachable(cfg: Config, s: Site, r: Receipt, keyId: string) {
    && r.id == s.world.nextReceipt && r.billId in s.world.bills
    && s.world.bills[r.billId].billingId in s.billings
    && r.sort == MaxSort(ListByBill(s.world.receipts, r.billId)) + 1
    && (forall x <- s.world.receipts :: x.uuid != r.uuid)
    && Keys.IsAllowedType(r.contentType) && r.storageKey !in s.world.objects
    && r.storageKey == Keys.ReceiptKey(cfg.prefix, s.billings[s.world.bills[r.billId].billingId].uuid,
                                       s.world.bills[r.billId].uuid, keyId, r.contentType)
  }

  lemma AttachDistinct(rows: seq<Receipt>, r: Receipt)
    requires DistinctIds(rows) && DistinctUuids(rows)
    requires forall x <- rows :: x.id != r.id && x.uuid != r.uuid
    ensures DistinctIds(rows + [r]) && DistinctUuids(rows + [r])
  {
    assert forall i | 0 <= i < |rows| :: rows[i] in rows;
  }

  lemma AttachWellFormed(cfg: Config, s: Site, r: Receipt, bytes: Blob, keyId: string)
    requires WellFormed(cfg, s) && Attachable(cfg, s, r, keyId)
    ensures WellFormed(cfg, Attached(s, r, bytes))
  {
    var t := Attached(s, r, bytes);
    AttachDistinct(s.world.receipts, r);
    forall x | x in s.world.receipts ensures ReceiptStored(cfg, t, x) {
      assert ReceiptStored(cfg, s, x);
    }
    assert ReceiptStored(cfg, t, r);
    assert t.world.receipts == s.world.receipts + [r];
    assert ReceiptsWellFormed(cfg, t);
    assert BillsWellFormed(t) && LinesWellFormed(t.world) && BillingsWellFormed(cfg, t);
  }

  lemma AttachListing(s: Site, r: Receipt, j: int)
    requires DistinctIds(s.world.receipts) && forall x <- s.world.receipts :: x.id != r.id
    requires r.sort == MaxSort(ListByBill(s.world.receipts, r.billId)) + 1
    ensures ListByBill(s.world.receipts + [r], j) ==
            if j == r.billId then ListByBill(s.world.receipts, j) + [r] else ListByBill(s.world.receipts, j)
  {
    assert forall i | 0 <= i < |s.world.receipts| :: s.world.receipts[i] in s.world.receipts;
    AddAppends(s.world.receipts, r, j);
  }

  lemma AttachKeeps(cfg: Config, s: Site, r: Receipt, bytes: Blob, keyId: string)
    requires Inv(cfg, s) && Attachable(cfg, s, r, keyId)
    ensures InvBut(cfg, Attached(s, r, bytes), {r.billId})
    ensures ListByBill(Attached(s, r, bytes).world.receipts, r.billId) == ListByBill(s.world.receipts, r.billId) + [r]
  {
    var t := Attached(s, r, bytes);
    AttachWellFormed(cfg, s, r, bytes, keyId);
    AttachListing(s, r, r.billId);
    forall j | j in t.world.bills && j != r.billId ensures SameBill(cfg, s, t, j) {
      AttachSame(cfg, s, r, bytes, j);
    }
    assert KeepsObjects(s.world.objects, t.world.objects);
    OnlyOnePending(cfg, s, t, r.billId);
  }

  lemma AttachSame(cfg: Config, s: Site, r: Receipt, bytes: Blob, j: int)
    requires DistinctIds(s.world.receipts) && forall x <- s.world.receipts :: x.id != r.id
    requires r.sort == MaxSort(ListByBill(s.world.receipts, r.billId)) + 1
    requires j in s.world.bills && j != r.billId
    ensures SameBill(cfg, s, Attached(s, r, bytes), j)
  {
    AttachListing(s, r, j);
  }

  function Detached(s: Site, id: int): Site {
    s.(world := s.world.(receipts := Without(s.world.receipts, id)))
  }

  lemma DetachWellFormed(cfg: Config, s: Site, id: int)
    requires WellFormed(cfg, s)
    ensures WellFormed(cfg, Detached(s, id))
  {
    var t := Detached(s, id);
    WithoutDistinctIds(s.world.receipts, id);
    WithoutDistinctUuids(s.world.receipts, id);
    forall x | x in t.world.receipts ensures ReceiptStored(cfg, t, x) {
      assert ReceiptStored(cfg, s, x);
    }
    assert ReceiptsWellFormed(cfg, t);
    assert BillsWellFormed(t) && LinesWellFormed(t.world) && BillingsWellFormed(cfg, t);
  }

  lemma DetachListing(s: Site, r: Receipt, j: int)
    requires DistinctIds(s.world.receipts) && r in s.world.receipts && j != r.billId
    ensures ListByBill(Detached(s, r.id).world.receipts, j) == ListByBill(s.world.receipts, j)
  {
    DeleteKeepsOrder(s.world.receipts, r.id, j);
    ListByBillIsListing(s.world.receipts, j);
    NotListed(s.world.receipts, r, ListByBill(s.world.receipts, j));
  }

  lemma DetachKeeps(cfg: Config, s: Site, r: Receipt)
    requires Inv(cfg, s) && r in s.world.receipts
    ensures InvBut(cfg, Detached(s, r.id), {r.billId})
    ensures ListByBill(Detached(s, r.id).world.receipts, r.billId) == Without(ListByBill(s.world.receipts, r.billId), r.id)
  {
    var t := Detached(s, r.id);
    DetachWellFormed(cfg, s, r.id);
    DeleteKeepsOrder(s.world.receipts, r.id, r.billId);
    forall j | j in t.world.bills && j != r.billId ensures SameBill(cfg, s, t, j) {
      DetachListing(s, r, j);
    }
    assert KeepsObjects(s.world.objects, t.world.objects);
    OnlyOnePending(cfg, s, t, r.billId);
  }

  lemma {:induction false} NotListed(rows: seq<Receipt>, r: Receipt, rs: seq<Receipt>)
    requires DistinctIds(rows) && r in rows && forall x <- rs :: x in rows && x.billId != r.billId
    ensures Without(rs, r.id) == rs
  {
    if rs != [] {
      var front, last := rs[..|rs| - 1], rs[|rs| - 1];
      assert rs == front + [last];
      NotListed(rows, r, front);
      assert last in rs;
      DifferentIds(rows, last, r);
    }
  }

  lemma ReorderKeeps(cfg: Config, s: Site, id: int, uuids: seq<string>, updates: seq<(int, int)>)
    requires Inv(cfg, s) && PlanOrder(ListByBill(s.world.receipts, id), uuids) == Success(updates)
    ensures InvBut(cfg, s.(world := s.world.(receipts := ApplySorts(s.world.receipts, updates))), {id})
  {
    var rows, after := s.world.receipts, ApplySorts(s.world.receipts, updates);
    var t := s.(world := s.world.(receipts := after));
    ApplySortsAt(rows, updates);
    forall i | 0 <= i < |after| ensures after[i].id < t.world.nextReceipt && ReceiptStored(cfg, t, after[i]) {
      assert rows[i] in rows && ReceiptStored(cfg, s, rows[i]);
    }
    forall j: int ensures j != id ==> ListByBill(after, j) == ListByBill(rows, j) {
      if j != id {
        ReorderKeepsOthers(rows, id, uuids, updates, j);
      }
    }
    OnlyOnePending(cfg, s, t, id);
  }

  // ---- Runs ----

  /** One request: the bill is loaded, then its billing, then the service is called. */
  datatype Op =
    | CreateBilling(id: int, row: BillingRow)
    | EditBilling(id: int, name: string, pixKey: string, items: seq<BillingItem>)
    | DropBilling(id: int)
    | Generate(billing: int, month: string, variable: map<int, int>, extras: seq<(string, int)>, notes: string,
               due: string, theme: string, uuid: string)
    | Update(bill: int, lines: seq<Item>, notes: string, due: string, theme: string)
    | Regenerate(bill: int, theme: string)
    | Status(bill: int, status: string)
    | Drop(bill: int)
    | Attach(bill: int, filename: string, bytes: Blob, contentType: string, theme: string, keyId: string, uuid: string)
    | Detach(receipt: Receipt, bill: int, theme: string)
    | Reorder(bill: int, uuids: seq<string>, theme: string)

  /** The bill of a request with its billing, when both can be loaded. */
  function Loaded(s: Site, bill: int): Option<(BillData, Billing)> {
    match LoadBill(s.world, bill)
    case None => None
    case Some(b) =>
      match LoadBilling(s, b.billingId)
      case None => None
      case Some(g) => Some((b, g))
  }

  function StepBill(cfg: Config, s: Site, op: Op, b: BillData, g: Billing): Site {
    match op
    case Update(id, lines, notes, due, theme) =>
      After(s, id, UpdateBill(cfg, s.world, true, b, g, lines, notes, due, theme), g, theme)
    case Regenerate(id, theme) => After(s, id, RegeneratePdf(cfg, s.world, true, b, g, theme), g, theme)
    case Status(_, status) => s.(world := ChangeStatus(s.world, b, status).world)
    case Attach(id, filename, bytes, contentType, theme, keyId, uuid) =>
      After(s, id, AddReceipt(cfg, s.world, true, b, g, filename, bytes, contentType, theme, keyId, uuid), g, theme)
    case Detach(r, id, theme) => After(s, id, DeleteReceipt(cfg, s.world, true, Some(r.id), b, g, theme), g, theme)
    case Reorder(id, uuids, theme) => After(s, id, ReorderReceipts(cfg, s.world, true, b, g, uuids, theme), g, theme)
    case _ => s
  }

  function Step(cfg: Config, s: Site, op: Op): Site {
    match op
    case CreateBilling(id, row) => s.(billings := s.billings[id := row])
    case EditBilling(id, name, pixKey, items) =>
      if id in s.billings then s.(billings := s.billings[id := s.billings[id].(name := name, pixKey := pixKey, items := items)])
      else s
    case DropBilling(id) =>
      if id in s.billings then s.(billings := s.billings[id := s.billings[id].(deleted := true)]) else s
    case Generate(billing, month, variable, extras, notes, due, theme, uuid) =>
      (match LoadBilling(s, billing)
       case None => s
       case Some(g) =>
         After(s, s.world.nextBill,
               GenerateBill(cfg, s.world, true, g, month, variable, extras, notes, due, theme, uuid), g, theme))
    case Drop(id) =>
      if LoadBill(s.world, id).Some? then s.(world := MarkDeleted(s.world, id)) else s
    case _ =>
      (match Loaded(s, op.bill)
       case None => s
       case Some(pair) => StepBill(cfg, s, op, pair.0, pair.1))
  }

  /** What the environment grants a request: identifiers never used before and free of slashes,
      billings whose PIX texts are ASCII, and a receipt to delete that is one of the bill's. */
  ghost predicate Granted(cfg: Config, s: Site, op: Op) {
    match op
    case CreateBilling(id, row) => id !in s.billings && Keys.IsId(row.uuid) && PixReady(cfg, row.pixKey)
    case EditBilling(_, _, pixKey, _) => PixReady(cfg, pixKey)
    case Generate(_, _, _, _, _, _, _, uuid) => Keys.IsId(uuid) && forall j <- s.world.bills :: s.world.bills[j].uuid != uuid
    case Attach(bill, _, _, contentType, _, keyId, uuid) =>
      && (forall x <- s.world.receipts :: x.uuid != uuid)
      && (forall b <- s.world.bills, g <- s.billings ::
            Keys.ReceiptKey(cfg.prefix, s.billings[g].uuid, s.world.bills[b].uuid, keyId, contentType) !in s.world.objects)
    case Detach(r, bill, _) => r in s.world.receipts && r.billId == bill
    case _ => true
  }

  const EMPTY := Site(World(map[], 0, [], 0, [], 0, map[]), map[], map[])

  function Run(cfg: Config, ops: seq<Op>): Site {
    if ops == [] then EMPTY else Step(cfg, Run(cfg, ops[..|ops| - 1]), ops[|ops| - 1])
  }

  ghost predicate RunGranted(cfg: Config, ops: seq<Op>) {
    ops == [] || (RunGranted(cfg, ops[..|ops| - 1]) && Granted(cfg, Run(cfg, ops[..|ops| - 1]), ops[|ops| - 1]))
  }

  // ---- Each operation keeps the invariant ----

  lemma BillingKeeps(cfg: Config, s: Site, billings: map<int, BillingRow>)
    requires Inv(cfg, s) && BillingsWellFormed(cfg, s.(billings := billings))
    requires forall g <- s.billings :: g in billings && billings[g].uuid == s.billings[g].uuid
    ensures Inv(cfg, s.(billings := billings))
  {
    var t := s.(billings := billings);
    forall r | r in t.world.receipts ensures ReceiptStored(cfg, t, r) {
      assert ReceiptStored(cfg, s, r);
    }
    forall j | j in t.world.bills && !t.world.bills[j].deleted ensures Coherent(cfg, t, j) {
      assert RowContent(t.world, j) == RowContent(s.world, j);
      assert Coherent(cfg, s, j);
    }
  }

  lemma StatusKeeps(cfg: Config, s: Site, id: int, status: string)
    requires Inv(cfg, s) && id in s.world.bills
    ensures Inv(cfg, s.(world := SetStatus(s.world, id, status)))
  {
    RowChangeKeeps(cfg, s, s.(world := SetStatus(s.world, id, status)), id);
  }

  lemma DropKeeps(cfg: Config, s: Site, id: int)
    requires Inv(cfg, s) && id in s.world.bills
    ensures Inv(cfg, s.(world := MarkDeleted(s.world, id)))
  {
    RowChangeKeeps(cfg, s, s.(world := MarkDeleted(s.world, id)), id);
  }

  /** A change of the status or of the deletion mark of one row. */
  lemma RowChangeKeeps(cfg: Config, s: Site, t: Site, id: int)
    requires Inv(cfg, s) && id in s.world.bills
    requires t.world.bills.Keys == s.world.bills.Keys && t == s.(world := s.world.(bills := t.world.bills))
    requires forall j <- s.world.bills :: var (a, b) := (s.world.bills[j], t.world.bills[j]);
               b == a.(status := b.status, deleted := b.deleted) && (a.deleted ==> b.deleted)
    ensures Inv(cfg, t)
  {
    forall r | r in t.world.receipts ensures ReceiptStored(cfg, t, r) {
      assert ReceiptStored(cfg, s, r);
    }
    forall j | j in t.world.bills && !t.world.bills[j].deleted ensures Coherent(cfg, t, j) {
      assert RowContent(t.world, j) == RowContent(s.world, j);
      assert Coherent(cfg, s, j);
    }
  }

  lemma GenerateKeeps(cfg: Config, s: Site, op: Op)
    requires Inv(cfg, s) && op.Generate? && Granted(cfg, s, op)
    ensures Inv(cfg, Step(cfg, s, op))
  {
    var loaded := LoadBilling(s, op.billing);
    if loaded.Some? && AllIdentified(loaded.value.items) {
      var g := loaded.value;
      var lines := BillingLines(g.items, op.variable) + ExtraLines(op.extras);
      var draft := BillData(None, "", op.billing, op.month, Sum(lines), lines, None, op.notes, OrNone(op.due), "draft");
      InsertKeeps(cfg, s, draft, op.uuid);
      var t := s.(world := InsertBill(s.world, draft, op.uuid));
      GenerateRestores(cfg, t, s.world.nextBill, LoadBill(t.world, s.world.nextBill).value, g, op.theme);
    }
  }

  lemma UpdateKeeps(cfg: Config, s: Site, b: BillData, g: Billing, lines: seq<Item>, notes: string, due: string, theme: string)
    requires Inv(cfg, s) && b.id.Some? && Loaded(s, b.id.value) == Some((b, g))
    ensures Inv(cfg, After(s, b.id.value, UpdateBill(cfg, s.world, true, b, g, lines, notes, due, theme), g, theme))
  {
    var id := b.id.value;
    var edited := b.(lines := lines, total := Sum(lines), notes := notes, dueDate := OrNone(due));
    RewriteKeeps(cfg, s, id, edited);
    var t := s.(world := RewriteBill(s.world, id, edited));
    GenerateRestores(cfg, t, id, LoadBill(t.world, id).value, g, theme);
  }

  lemma RegenerateKeeps(cfg: Config, s: Site, b: BillData, g: Billing, theme: string)
    requires Inv(cfg, s) && b.id.Some? && Loaded(s, b.id.value) == Some((b, g))
    ensures Inv(cfg, After(s, b.id.value, RegeneratePdf(cfg, s.world, true, b, g, theme), g, theme))
  {
    assert InvBut(cfg, s, {b.id.value});
    GenerateRestores(cfg, s, b.id.value, b, g, theme);
  }

  lemma AddReceiptKeeps(cfg: Config, s: Site, op: Op, b: BillData, g: Billing)
    requires Inv(cfg, s) && op.Attach? && Granted(cfg, s, op) && Loaded(s, op.bill) == Some((b, g))
    ensures Inv(cfg, StepBill(cfg, s, op, b, g))
  {
    if UploadError(op.bytes, op.contentType).None? {
      var r := NewReceipt(cfg, s.world, op.bill, b.uuid, g, op.filename, op.bytes, op.contentType, op.keyId, op.uuid);
      UploadAttachable(cfg, s, op, b, g);
      AttachKeeps(cfg, s, r, op.bytes, op.keyId);
      GenerateRestores(cfg, Attached(s, r, op.bytes), op.bill, b, g, op.theme);
    }
  }

  lemma UploadAttachable(cfg: Config, s: Site, op: Op, b: BillData, g: Billing)
    requires Inv(cfg, s) && op.Attach? && Granted(cfg, s, op) && Loaded(s, op.bill) == Some((b, g))
    requires UploadError(op.bytes, op.contentType).None?
    ensures Attachable(cfg, s, NewReceipt(cfg, s.world, op.bill, b.uuid, g, op.filename, op.bytes, op.contentType,
                                          op.keyId, op.uuid), op.keyId)
  {
    assert op.bill in s.world.bills && b.billingId in s.billings;
  }

  lemma DeleteReceiptKeeps(cfg: Config, s: Site, r: Receipt, b: BillData, g: Billing, theme: string)
    requires Inv(cfg, s) && r in s.world.receipts && Loaded(s, r.billId) == Some((b, g))
    ensures Inv(cfg, After(s, r.billId, DeleteReceipt(cfg, s.world, true, Some(r.id), b, g, theme), g, theme))
  {
    DetachKeeps(cfg, s, r);
    GenerateRestores(cfg, Detached(s, r.id), r.billId, b, g, theme);
  }

  lemma ReorderReceiptsKeeps(cfg: Config, s: Site, b: BillData, g: Billing, uuids: seq<string>, theme: string)
    requires Inv(cfg, s) && b.id.Some? && Loaded(s, b.id.value) == Some((b, g))
    ensures Inv(cfg, After(s, b.id.value, ReorderReceipts(cfg, s.world, true, b, g, uuids, theme), g, theme))
  {
    var plan := PlanOrder(ListByBill(s.world.receipts, b.id.value), uuids);
    if plan.Success? {
      ReorderKeeps(cfg, s, b.id.value, uuids, plan.value);
      var t := s.(world := s.world.(receipts := ApplySorts(s.world.receipts, plan.value)));
      GenerateRestores(cfg, t, b.id.value, b, g, theme);
    }
  }

  lemma StepKeeps(cfg: Config, s: Site, op: Op)
    requires Inv(cfg, s) && Granted(cfg, s, op)
    ensures Inv(cfg, Step(cfg, s, op))
  {
    match op {
      case CreateBilling(id, row) => BillingKeeps(cfg, s, s.billings[id := row]);
      case EditBilling(id, name, pixKey, items) => if id in s.billings { BillingKeeps(cfg, s, Step(cfg, s, op).billings); }
      case DropBilling(id) => if id in s.billings { BillingKeeps(cfg, s, Step(cfg, s, op).billings); }
      case Generate(_, _, _, _, _, _, _, _) => GenerateKeeps(cfg, s, op);
      case Drop(id) => if LoadBill(s.world, id).Some? { DropKeeps(cfg, s, id); }
      case _ => BillStepKeeps(cfg, s, op);
    }
  }

  lemma BillStepKeeps(cfg: Config, s: Site, op: Op)
    requires Inv(cfg, s) && Granted(cfg, s, op)
    requires op.Update? || op.Regenerate? || op.Status? || op.Attach? || op.Detach? || op.Reorder?
    ensures Inv(cfg, Step(cfg, s, op))
  {
    match Loaded(s, op.bill) {
      case None =>
      case Some(pair) => LoadedStepKeeps(cfg, s, op, pair.0, pair.1);
    }
  }

  lemma LoadedStepKeeps(cfg: Config, s: Site, op: Op, b: BillData, g: Billing)
    requires Inv(cfg, s) && Granted(cfg, s, op)
    requires op.Update? || op.Regenerate? || op.Status? || op.Attach? || op.Detach? || op.Reorder?
    requires Loaded(s, op.bill) == Some((b, g))
    ensures Inv(cfg, StepBill(cfg, s, op, b, g))
  {
    match op {
      case Update(_, lines, notes, due, theme) => UpdateKeeps(cfg, s, b, g, lines, notes, due, theme);
      case Regenerate(_, theme) => RegenerateKeeps(cfg, s, b, g, theme);
      case Status(_, status) => if IsStatus(status) { StatusKeeps(cfg, s, op.bill, status); }
      case Attach(_, _, _, _, _, _, _) => AddReceiptKeeps(cfg, s, op, b, g);
      case Detach(r, _, theme) => DeleteReceiptKeeps(cfg, s, r, b, g, theme);
      case Reorder(_, uuids, theme) => ReorderReceiptsKeeps(cfg, s, b, g, uuids, theme);
    }
  }

  /** In every state that requests can lead to, every bill that is not deleted has a stored PDF
      that shows its persisted content and exactly its receipts, in order. */
  lemma {:induction false} CoherentAlways(cfg: Config, ops: seq<Op>)
    requires RunGranted(cfg, ops)
    ensures Inv(cfg, Run(cfg, ops))
  {
    if ops != [] {
      CoherentAlways(cfg, ops[..|ops| - 1]);
      StepKeeps(cfg, Run(cfg, ops[..|ops| - 1]), ops[|ops| - 1]);
    }
  }

  /** None of a bill's receipts is skipped: the files merged into its PDF are the stored files of
      all its receipts, in order. */
  lemma AllReceiptsMerged(cfg: Config, s: Site, id: int)
    requires Inv(cfg, s)
    ensures var rs, files := ListByBill(s.world.receipts, id), Fetch(s.world.objects, ListByBill(s.world.receipts, id));
            |files| == |rs| && forall i | 0 <= i < |rs| ::
              && rs[i].storageKey in s.world.objects
              && files[i] == (s.world.objects[rs[i].storageKey], rs[i].contentType)
  {
    var rs := ListByBill(s.world.receipts, id);
    ListByBillIsListing(s.world.receipts, id);
    forall r | r in rs ensures r.storageKey in s.world.objects {
      assert ReceiptStored(cfg, s, r);
    }
    FetchComplete(s.world.objects, rs);
    assert forall i | 0 <= i < |rs| :: rs[i] in rs;
  }

  // ---- What the requests must be granted ----

  /** An update draws the new PDF exactly when the bill is live and the PIX texts are ASCII. */
  lemma UpdateSucceedsIff(cfg: Config, s: Site, b: BillData, g: Billing, lines: seq<Item>, notes: string, due: string,
                          theme: string)
    requires b.id.Some? && LinesWellFormed(s.world)
    ensures UpdateBill(cfg, s.world, true, b, g, lines, notes, due, theme).result.Success?
       <==> LoadBill(s.world, b.id.value).Some? && PixReady(cfg, g.pixKey)
  {
    PixReadyIff(cfg, g.pixKey, Sum(lines));
  }

  /** Otherwise the lines of the bill are replaced and its old PDF stays. */
  lemma RefusedUpdateLeavesOldPdf(cfg: Config, s: Site, b: BillData, g: Billing, lines: seq<Item>, notes: string,
                                  due: string, theme: string)
    requires LinesWellFormed(s.world) && b.id.Some? && LoadBill(s.world, b.id.value).Some?
    requires !PixReady(cfg, g.pixKey)
    ensures var w := UpdateBill(cfg, s.world, true, b, g, lines, notes, due, theme).world;
            LinesOf(w, b.id.value) == lines && w.objects == s.world.objects
  {
    PixReadyIff(cfg, g.pixKey, Sum(lines));
    RewriteLines(s.world, b.id.value, lines, s.world.bills);
  }

  /** A new bill gets its PDF exactly when every item that is not fixed has an id, the billing has
      one, and the PIX texts are ASCII. */
  lemma GenerateSucceedsIff(cfg: Config, w: World, g: Billing, month: string, variable: map<int, int>,
                            extras: seq<(string, int)>, notes: string, due: string, theme: string, uuid: string)
    ensures GenerateBill(cfg, w, true, g, month, variable, extras, notes, due, theme, uuid).result.Success?
       <==> (forall i <- g.items :: i.item.kind == Fixed || i.id.Some?) && g.id.Some? && PixReady(cfg, g.pixKey)
  {
    PixReadyIff(cfg, g.pixKey, Sum(BillingLines(g.items, variable) + ExtraLines(extras)));
  }

  /** When only the texts are at fault the bill is there, with its lines and without a PDF. */
  lemma RefusedGenerateLeavesBill(cfg: Config, w: World, g: Billing, month: string, variable: map<int, int>,
                                  extras: seq<(string, int)>, notes: string, due: string, theme: string, uuid: string)
    requires LinesWellFormed(w) && forall j <- w.bills :: j < w.nextBill
    requires AllIdentified(g.items) && g.id.Some? && !PixReady(cfg, g.pixKey)
    ensures var o := GenerateBill(cfg, w, true, g, month, variable, extras, notes, due, theme, uuid);
            && o.result == Failure(NotAscii) && o.world.objects == w.objects
            && LoadBill(o.world, w.nextBill).Some? && LoadBill(o.world, w.nextBill).value.pdfPath == None
            && LinesOf(o.world, w.nextBill) == BillingLines(g.items, variable) + ExtraLines(extras)
  {
    var lines := BillingLines(g.items, variable) + ExtraLines(extras);
    PixReadyIff(cfg, g.pixKey, Sum(lines));
    var draft := BillData(None, "", g.id.value, month, Sum(lines), lines, None, notes, OrNone(due), "draft");
    InsertLines(w, lines, InsertBill(w, draft, uuid).bills);
  }
}
