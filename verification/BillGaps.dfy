/** Two requests that the service itself accepts and that need more than its own checks: deleting
    a receipt through another bill, and serving requests without a receipt repository. */
module BillGaps {
  import opened BillCoherence
  import opened BillWorld
  import opened ItemTable
  import opened PdfMerge
  import opened Receipts
  import opened Wrappers

  /** A written PDF reads back with as many pages, and every invoice can be read. How many pages an
      invoice has is left open; it has one more with a PIX code. */
  ghost predicate Faithful(cfg: Config) {
    && (forall ps: seq<Page> :: |cfg.tools.read(cfg.tools.write(ps)).pages| == |ps|)
    && (forall c, around :: cfg.tools.read(cfg.draw(c, around)).complete)
  }

  /** The stored file of a receipt has pages to show. */
  predicate HasPages(cfg: Config, objects: map<string, Blob>, r: Receipt) {
    r.storageKey in objects && FilePages(cfg.tools, (objects[r.storageKey], r.contentType)) != []
  }

  function PageCount(cfg: Config, objects: map<string, Blob>, rs: seq<Receipt>): nat {
    |AllPages(cfg.tools, Fetch(objects, rs))|
  }

  lemma PageCountSnoc(cfg: Config, objects: map<string, Blob>, rs: seq<Receipt>, r: Receipt)
    ensures PageCount(cfg, objects, rs + [r]) >= PageCount(cfg, objects, rs)
    ensures HasPages(cfg, objects, r) ==> PageCount(cfg, objects, rs + [r]) > PageCount(cfg, objects, rs)
  {
    assert (rs + [r])[..|rs|] == rs;
    if r.storageKey in objects {
      var file := (objects[r.storageKey], r.contentType);
      assert (Fetch(objects, rs) + [file])[..|Fetch(objects, rs)|] == Fetch(objects, rs);
    }
  }

  /** A receipt taken out takes its pages with it. */
  lemma {:induction false} FewerPages(cfg: Config, objects: map<string, Blob>, rs: seq<Receipt>, id: int)
    ensures PageCount(cfg, objects, Without(rs, id)) <= PageCount(cfg, objects, rs)
    ensures (exists r <- rs :: r.id == id && HasPages(cfg, objects, r))
        ==> PageCount(cfg, objects, Without(rs, id)) < PageCount(cfg, objects, rs)
  {
    if rs != [] {
      var front, last := rs[..|rs| - 1], rs[|rs| - 1];
      assert rs == front + [last];
      FewerPages(cfg, objects, front, id);
      PageCountSnoc(cfg, objects, front, last);
      if last.id != id {
        LastKept(cfg, objects, front, last, id);
      }
    }
  }

  lemma LastKept(cfg: Config, objects: map<string, Blob>, front: seq<Receipt>, last: Receipt, id: int)
    requires last.id != id
    ensures PageCount(cfg, objects, Without(front + [last], id)) - PageCount(cfg, objects, Without(front, id))
         == PageCount(cfg, objects, front + [last]) - PageCount(cfg, objects, front)
  {
    var rest := Without(front, id);
    assert (front + [last])[..|front|] == front && (rest + [last])[..|rest|] == rest;
    if last.storageKey in objects {
      var file := (objects[last.storageKey], last.contentType);
      assert (Fetch(objects, front) + [file])[..|Fetch(objects, front)|] == Fetch(objects, front);
      assert (Fetch(objects, rest) + [file])[..|Fetch(objects, rest)|] == Fetch(objects, rest);
    }
  }

  /** Of two PDFs with the same invoice the number of pages tells how many the receipts gave. */
  lemma PagesOfStored(cfg: Config, content: BillContent, around: Surroundings, f1: seq<File>, f2: seq<File>)
    requires Faithful(cfg) && StoredPdf(cfg, content, around, f1) == StoredPdf(cfg, content, around, f2)
    ensures |AllPages(cfg.tools, f1)| == |AllPages(cfg.tools, f2)|
  {
    PagesOfMerged(cfg, content, around, f1);
    PagesOfMerged(cfg, content, around, f2);
  }

  lemma PagesOfMerged(cfg: Config, content: BillContent, around: Surroundings, files: seq<File>)
    requires Faithful(cfg)
    ensures |cfg.tools.read(StoredPdf(cfg, content, around, files)).pages|
         == |cfg.tools.read(cfg.draw(content, around)).pages| + |AllPages(cfg.tools, files)|
  {
    assert cfg.tools.read(cfg.draw(content, around)).complete;
  }

  // ---- Deleting through another bill ----

  /** The site after a receipt is deleted on the page of a bill. */
  function Deleted(cfg: Config, s: Site, r: Receipt, bill: int, b: BillData, g: Billing, theme: string): Site {
    After(s, bill, DeleteReceipt(cfg, s.world, true, Some(r.id), b, g, theme), g, theme)
  }

  /** After the request the PDF of the other bill still shows the receipt that is gone. */
  lemma ForeignDeleteLeavesStale(cfg: Config, s: Site, r: Receipt, bill: int, b: BillData, g: Billing, theme: string)
    requires Faithful(cfg) && Inv(cfg, s) && r in s.world.receipts && HasPages(cfg, s.world.objects, r)
    requires Loaded(s, bill) == Some((b, g)) && r.billId != bill && !s.world.bills[r.billId].deleted
    ensures !Coherent(cfg, Deleted(cfg, s, r, bill, b, g, theme), r.billId)
  {
    var t, j := Deleted(cfg, s, r, bill, b, g, theme), r.billId;
    var rs := ListByBill(s.world.receipts, j);
    DeletedThrough(cfg, s, r, bill, b, g, theme);
    assert RowContent(t.world, j) == RowContent(s.world, j);
    ListByBillIsListing(s.world.receipts, j);
    assert r in rs;
    FewerPages(cfg, s.world.objects, rs, r.id);
    assert Coherent(cfg, s, j);
    if Coherent(cfg, t, j) {
      PagesOfStored(cfg, RowContent(s.world, j), Around(cfg, s.drawn[j], s.world.bills[j].total),
                    Fetch(s.world.objects, rs), Fetch(t.world.objects, ListByBill(t.world.receipts, j)));
      assert false;
    }
  }

  /** What the request leaves of the other bill. */
  lemma DeletedThrough(cfg: Config, s: Site, r: Receipt, bill: int, b: BillData, g: Billing, theme: string)
    requires Inv(cfg, s) && r in s.world.receipts && Loaded(s, bill) == Some((b, g)) && r.billId != bill
    requires !s.world.bills[r.billId].deleted
    ensures var t, j := Deleted(cfg, s, r, bill, b, g, theme), r.billId;
            && j in t.world.bills && t.world.bills[j] == s.world.bills[j] && t.world.lines == s.world.lines
            && j in s.drawn && j in t.drawn && t.drawn[j] == s.drawn[j]
            && KeyOf(cfg, t, j) == KeyOf(cfg, s, j)
            && KeyOf(cfg, s, j) in s.world.objects && KeyOf(cfg, s, j) in t.world.objects
            && t.world.objects[KeyOf(cfg, s, j)] == s.world.objects[KeyOf(cfg, s, j)]
            && Fetch(t.world.objects, ListByBill(t.world.receipts, j))
               == Fetch(s.world.objects, Without(ListByBill(s.world.receipts, j), r.id))
  {
    var mid, j := Detached(s, r.id), r.billId;
    assert ReceiptStored(cfg, s, r);
    assert Coherent(cfg, s, j);
    DetachWellFormed(cfg, s, r.id);
    DeleteKeepsOrder(s.world.receipts, r.id, j);
    var pdf := DeletionStores(cfg, s, r, bill, b, g, theme);
    StoredLeaves(cfg, mid, bill, Occasion(g.name, g.pixKey, theme), pdf, j);
  }

  /** The request stores some PDF for its bill after the row is gone. */
  lemma DeletionStores(cfg: Config, s: Site, r: Receipt, bill: int, b: BillData, g: Billing, theme: string)
    returns (pdf: Blob)
    requires Inv(cfg, s) && Loaded(s, bill) == Some((b, g))
    ensures Deleted(cfg, s, r, bill, b, g, theme)
         == Stored(cfg, Detached(s, r.id), bill, Occasion(g.name, g.pixKey, theme), pdf)
  {
    PixReadyIff(cfg, g.pixKey, b.total);
    pdf := StoredPdf(cfg, Content(b), Surroundings(g.name, GetPixData(cfg, g.pixKey, b.total).value, theme),
                     FetchReceiptData(Detached(s, r.id).world, true, b.id));
  }

  lemma StoredLeaves(cfg: Config, s: Site, id: int, o: Occasion, pdf: Blob, j: int)
    requires WellFormed(cfg, s) && id in s.world.bills && j in s.world.bills && j != id
    ensures var t := Stored(cfg, s, id, o, pdf);
            && j in t.world.bills && t.world.bills[j] == s.world.bills[j] && t.world.lines == s.world.lines
            && t.world.receipts == s.world.receipts && KeyOf(cfg, t, j) == KeyOf(cfg, s, j)
            && (KeyOf(cfg, s, j) in s.world.objects ==>
                  KeyOf(cfg, s, j) in t.world.objects && t.world.objects[KeyOf(cfg, s, j)] == s.world.objects[KeyOf(cfg, s, j)])
            && Fetch(t.world.objects, ListByBill(t.world.receipts, j)) == Fetch(s.world.objects, ListByBill(s.world.receipts, j))
  {
    BillKeysDiffer(cfg, s, id, j);
    StoredKeepsFiles(cfg, s, id, o, pdf, j);
    FetchFrame(s.world.objects, Stored(cfg, s, id, o, pdf).world.objects, ListByBill(s.world.receipts, j));
  }

  /** The delete route looks the receipt up by its uuid alone. The invariant survives exactly
      when the receipt is one of the bill's own, or belongs to a deleted bill. */
  lemma DeleteKeepsIff(cfg: Config, s: Site, r: Receipt, bill: int, b: BillData, g: Billing, theme: string)
    requires Faithful(cfg) && Inv(cfg, s) && r in s.world.receipts && HasPages(cfg, s.world.objects, r)
    requires Loaded(s, bill) == Some((b, g))
    ensures Inv(cfg, Deleted(cfg, s, r, bill, b, g, theme))
       <==> r.billId == bill || (r.billId in s.world.bills && s.world.bills[r.billId].deleted)
  {
    assert ReceiptStored(cfg, s, r);
    if r.billId == bill {
      DeleteReceiptKeeps(cfg, s, r, b, g, theme);
    } else if s.world.bills[r.billId].deleted {
      DeleteOfDeletedKeeps(cfg, s, r, bill, b, g, theme);
    } else {
      ForeignDeleteLeavesStale(cfg, s, r, bill, b, g, theme);
      DeletedThrough(cfg, s, r, bill, b, g, theme);
    }
  }

  lemma DeleteOfDeletedKeeps(cfg: Config, s: Site, r: Receipt, bill: int, b: BillData, g: Billing, theme: string)
    requires Inv(cfg, s) && r in s.world.receipts && Loaded(s, bill) == Some((b, g))
    requires r.billId in s.world.bills && s.world.bills[r.billId].deleted
    ensures Inv(cfg, Deleted(cfg, s, r, bill, b, g, theme))
  {
    DetachKeeps(cfg, s, r);
    var mid := Detached(s, r.id);
    assert InvBut(cfg, mid, {bill});
    GenerateRestores(cfg, mid, bill, b, g, theme);
  }

  // ---- Without a receipt repository ----

  lemma {:induction false} SomePages(cfg: Config, objects: map<string, Blob>, rs: seq<Receipt>)
    requires forall r <- rs :: HasPages(cfg, objects, r)
    ensures PageCount(cfg, objects, rs) >= |rs|
  {
    if rs != [] {
      assert rs == rs[..|rs| - 1] + [rs[|rs| - 1]];
      SomePages(cfg, objects, rs[..|rs| - 1]);
      PageCountSnoc(cfg, objects, rs[..|rs| - 1], rs[|rs| - 1]);
    }
  }

  /** A service that was built without the repository stores the invoice alone. That makes the one
      stale bill coherent exactly when it has no receipts. */
  lemma BareRestoresIff(cfg: Config, s: Site, bill: int, b: BillData, g: Billing, theme: string)
    requires Faithful(cfg) && InvBut(cfg, s, {bill})
    requires LoadBill(s.world, bill) == Some(b) && LoadBilling(s, b.billingId) == Some(g)
    requires forall r <- ListByBill(s.world.receipts, bill) :: HasPages(cfg, s.world.objects, r)
    ensures var o := GenerateAndStore(cfg, s.world, false, b, g, theme);
            Inv(cfg, After(s, bill, o, g, theme)) <==> ListByBill(s.world.receipts, bill) == []
  {
    if ListByBill(s.world.receipts, bill) == [] {
      GenerateRestores(cfg, s, bill, b, g, theme);
      assert GenerateAndStore(cfg, s.world, false, b, g, theme) == GenerateAndStore(cfg, s.world, true, b, g, theme);
    } else {
      BareLosesReceipts(cfg, s, bill, b, g, theme);
    }
  }

  lemma BareLosesReceipts(cfg: Config, s: Site, bill: int, b: BillData, g: Billing, theme: string)
    requires Faithful(cfg) && InvBut(cfg, s, {bill})
    requires LoadBill(s.world, bill) == Some(b) && LoadBilling(s, b.billingId) == Some(g)
    requires forall r <- ListByBill(s.world.receipts, bill) :: HasPages(cfg, s.world.objects, r)
    requires ListByBill(s.world.receipts, bill) != []
    ensures var t := After(s, bill, GenerateAndStore(cfg, s.world, false, b, g, theme), g, theme);
            bill in t.world.bills && !t.world.bills[bill].deleted && !Coherent(cfg, t, bill)
  {
    var t := After(s, bill, GenerateAndStore(cfg, s.world, false, b, g, theme), g, theme);
    var rs, o := ListByBill(s.world.receipts, bill), Occasion(g.name, g.pixKey, theme);
    PixReadyIff(cfg, g.pixKey, b.total);
    var pdf := StoredPdf(cfg, Content(b), Around(cfg, o, b.total), []);
    assert t == Stored(cfg, s, bill, o, pdf);
    StoredKeepsFiles(cfg, s, bill, o, pdf, bill);
    FetchFrame(s.world.objects, t.world.objects, rs);
    SomePages(cfg, s.world.objects, rs);
    if Coherent(cfg, t, bill) {
      assert RowContent(t.world, bill) == Content(b);
      PagesOfStored(cfg, Content(b), Around(cfg, o, b.total), [], Fetch(s.world.objects, rs));
      assert false;
    }
  }

  /** Drawing the PDF again without the repository keeps the invariant exactly when the bill has
      no receipts. */
  lemma NoRepositoryKeepsIff(cfg: Config, s: Site, bill: int, b: BillData, g: Billing, theme: string)
    requires Faithful(cfg) && Inv(cfg, s) && Loaded(s, bill) == Some((b, g))
    requires forall r <- ListByBill(s.world.receipts, bill) :: HasPages(cfg, s.world.objects, r)
    ensures Inv(cfg, After(s, bill, RegeneratePdf(cfg, s.world, false, b, g, theme), g, theme))
       <==> ListByBill(s.world.receipts, bill) == []
  {
    assert InvBut(cfg, s, {bill});
    BareRestoresIff(cfg, s, bill, b, g, theme);
  }

  /** So does an edit. */
  lemma NoRepositoryUpdateIff(cfg: Config, s: Site, bill: int, b: BillData, g: Billing, lines: seq<Item>, notes: string,
                              due: string, theme: string)
    requires Faithful(cfg) && Inv(cfg, s) && Loaded(s, bill) == Some((b, g))
    requires forall r <- ListByBill(s.world.receipts, bill) :: HasPages(cfg, s.world.objects, r)
    ensures Inv(cfg, After(s, bill, UpdateBill(cfg, s.world, false, b, g, lines, notes, due, theme), g, theme))
       <==> ListByBill(s.world.receipts, bill) == []
  {
    var edited := b.(lines := lines, total := Sum(lines), notes := notes, dueDate := OrNone(due));
    RewriteKeeps(cfg, s, bill, edited);
    var t := s.(world := RewriteBill(s.world, bill, edited));
    var loaded := LoadBill(t.world, bill).value;
    BareRestoresIff(cfg, t, bill, loaded, g, theme);
    assert After(s, bill, UpdateBill(cfg, s.world, false, b, g, lines, notes, due, theme), g, theme)
        == After(t, bill, GenerateAndStore(cfg, t.world, false, loaded, g, theme), g, theme);
  }

  lemma {:induction false} NoneListed(rows: seq<Receipt>, id: int)
    requires forall i | 0 <= i < |rows| :: rows[i].billId != id
    ensures ListByBill(rows, id) == []
  {
    if rows != [] {
      NoneListed(rows[..|rows| - 1], id);
    }
  }

  /** A new bill has no receipts yet, so generating one without the repository keeps the invariant. */
  lemma NoRepositoryGenerateKeeps(cfg: Config, s: Site, op: Op, g: Billing)
    requires Inv(cfg, s) && op.Generate? && Granted(cfg, s, op) && LoadBilling(s, op.billing) == Some(g)
    ensures var o := GenerateBill(cfg, s.world, false, g, op.month, op.variable, op.extras, op.notes, op.due, op.theme, op.uuid);
            Inv(cfg, After(s, s.world.nextBill, o, g, op.theme))
  {
    var id, rows := s.world.nextBill, s.world.receipts;
    forall i | 0 <= i < |rows| ensures rows[i].billId != id {
      assert rows[i] in rows && ReceiptStored(cfg, s, rows[i]);
    }
    NoneListed(rows, id);
    GenerateKeeps(cfg, s, op);
    assert GenerateBill(cfg, s.world, false, g, op.month, op.variable, op.extras, op.notes, op.due, op.theme, op.uuid)
        == GenerateBill(cfg, s.world, true, g, op.month, op.variable, op.extras, op.notes, op.due, op.theme, op.uuid);
  }
}
