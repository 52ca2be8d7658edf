/** A concrete run of requests after which a stored PDF shows a receipt that is gone, with
    libraries that keep every page. */
module BillExample {
  import opened BillCoherence
  import opened BillEffects
  import opened BillGaps
  import opened BillWorld
  import opened PdfMerge
  import opened Receipts
  import opened Wrappers
  import Crc
  import Keys

  // ---- Libraries ----

  /** A page is written as its bytes, each after a 1, and a closing 0. */
  function WritePage(content: Blob): Blob {
    if content == [] then [0] else [1, content[0]] + WritePage(content[1..])
  }

  function Write(pages: seq<Page>): Blob {
    if pages == [] then [] else WritePage(pages[0].content) + Write(pages[1..])
  }

  function ReadFrom(b: Blob, page: Blob): Reading {
    if b == [] then Reading([], page == [])
    else if b[0] == 0 then
      var rest := ReadFrom(b[1..], []);
      Reading([Page(page)] + rest.pages, rest.complete)
    else if |b| == 1 then Reading([], false)
    else ReadFrom(b[2..], page + [b[1]])
  }

  lemma {:induction false} ReadPage(content: Blob, tail: Blob, page: Blob)
    ensures ReadFrom(WritePage(content) + tail, page)
         == Reading([Page(page + content)] + ReadFrom(tail, []).pages, ReadFrom(tail, []).complete)
    decreases |content|
  {
    var b := WritePage(content) + tail;
    if content == [] {
      assert b[1..] == tail;
      assert page + content == page;
    } else {
      assert b[2..] == WritePage(content[1..]) + tail;
      ReadPage(content[1..], tail, page + [content[0]]);
      assert page + [content[0]] + content[1..] == page + content;
    }
  }

  /** Written pages are read back exactly. */
  lemma {:induction false} ReadWritten(pages: seq<Page>)
    ensures ReadFrom(Write(pages), []) == Reading(pages, true)
  {
    if pages != [] {
      ReadWritten(pages[1..]);
      ReadPage(pages[0].content, Write(pages[1..]), []);
      assert [] + pages[0].content == pages[0].content;
      assert pages == [pages[0]] + pages[1..];
    }
  }

  /** An invoice of one page, and of a second one when there is a PIX code. */
  function Draw(around: Surroundings): Blob {
    Write(if around.pix.Some? then [Page([]), Page([])] else [Page([])])
  }

  function Sample(): Config {
    Config("", "chave", "Rentivo", "SAO PAULO", s => s, x => x,
           Tools(b => ReadFrom(b, []), b => Some(Write([Page(b)])), ps => Write(ps)),
           (content, around) => Draw(around), key => key)
  }

  lemma SampleFaithful()
    ensures Faithful(Sample()) && PixReady(Sample(), "")
    ensures FilePages(Sample().tools, (BYTES, PDF)) != []
  {
    var cfg := Sample();
    forall ps: seq<Page> ensures |cfg.tools.read(cfg.tools.write(ps)).pages| == |ps| {
      ReadWritten(ps);
    }
    forall content, around: Surroundings ensures cfg.tools.read(cfg.draw(content, around)).complete {
      ReadWritten(if around.pix.Some? then [Page([]), Page([])] else [Page([])]);
    }
    assert Crc.IsAscii("chave") && Crc.IsAscii("Rentivo") && Crc.IsAscii("SAO PAULO");
    ReadWritten([Page([])]);
    assert Write([Page([])]) == BYTES by {
      assert [Page([])][1..] == [];
    }
  }

  /** With a PIX code the invoice has a page more, whatever else it shows. */
  lemma PixAddsPage(content: BillContent, name: string, pix: PixData, theme: string)
    ensures |Sample().tools.read(Sample().draw(content, Surroundings(name, Some(pix), theme))).pages|
         == |Sample().tools.read(Sample().draw(content, Surroundings(name, None, theme))).pages| + 1
  {
    ReadWritten([Page([]), Page([])]);
    ReadWritten([Page([])]);
  }

  // ---- The run ----

  const BYTES: Blob := [0]
  const PDF := "application/pdf"

  function NewBilling(): Op {
    CreateBilling(0, Row())
  }

  function NewBill(uuid: string): Op {
    Generate(0, "2025-01", map[], [("aluguel", 100000)], "", "", "", uuid)
  }

  function Upload(): Op {
    Attach(0, "recibo.pdf", BYTES, PDF, "", "K", "R")
  }

  /** The bills are the first n ids, all of billing 0 and none deleted. */
  ghost predicate KnownBills(w: World, n: nat, uuids: seq<string>) {
    && n == |uuids| == w.nextBill && (forall id :: id in w.bills <==> 0 <= id < n)
    && forall id | 0 <= id < n :: w.bills[id].uuid == uuids[id] && w.bills[id].billingId == 0 && !w.bills[id].deleted
  }

  /** Only PDFs are stored. */
  ghost predicate KnownObjects(cfg: Config, w: World, uuids: seq<string>) {
    forall key <- w.objects :: exists id | 0 <= id < |uuids| :: key == Keys.StorageKey(cfg.prefix, "G", uuids[id])
  }

  function Row(): BillingRow {
    BillingRow("G", "Casa", "", [], false)
  }

  /** What the next request needs to know of a state with one billing. */
  ghost predicate Known(cfg: Config, s: Site, n: nat, uuids: seq<string>) {
    && s.world.receipts == [] && s.billings == map[0 := Row()]
    && KnownBills(s.world, n, uuids) && KnownObjects(cfg, s.world, uuids)
  }

  function Made(cfg: Config, w: World, g: Billing, uuid: string): Outcome<BillData> {
    GenerateBill(cfg, w, true, g, "2025-01", map[], [("aluguel", 100000)], "", "", "", uuid)
  }

  lemma MadeTables(cfg: Config, w: World, g: Billing, uuid: string)
    requires g.id == Some(0) && g.items == [] && Made(cfg, w, g, uuid).result.Success?
    ensures var o := Made(cfg, w, g, uuid).world;
            && o.nextBill == w.nextBill + 1 && o.bills.Keys == w.bills.Keys + {w.nextBill} && o.receipts == w.receipts
            && (forall id <- w.bills | id != w.nextBill :: o.bills[id] == w.bills[id])
            && o.bills[w.nextBill].uuid == uuid && o.bills[w.nextBill].billingId == 0 && !o.bills[w.nextBill].deleted
            && o.objects.Keys == w.objects.Keys + {Keys.StorageKey(cfg.prefix, g.uuid, uuid)}
  {
  }

  lemma BillsGrow(w: World, o: World, n: nat, uuids: seq<string>, uuid: string)
    requires KnownBills(w, n, uuids) && o.nextBill == n + 1 && o.bills.Keys == w.bills.Keys + {n}
    requires forall id <- w.bills | id != n :: o.bills[id] == w.bills[id]
    requires o.bills[n].uuid == uuid && o.bills[n].billingId == 0 && !o.bills[n].deleted
    ensures KnownBills(o, n + 1, uuids + [uuid])
  {
  }

  lemma ObjectsGrow(cfg: Config, w: World, o: World, uuids: seq<string>, uuid: string)
    requires KnownObjects(cfg, w, uuids)
    requires o.objects.Keys == w.objects.Keys + {Keys.StorageKey(cfg.prefix, "G", uuid)}
    ensures KnownObjects(cfg, o, uuids + [uuid])
  {
    forall key | key in o.objects
      ensures exists id | 0 <= id < |uuids| + 1 :: key == Keys.StorageKey(cfg.prefix, "G", (uuids + [uuid])[id])
    {
      if key in w.objects {
        var id :| 0 <= id < |uuids| && key == Keys.StorageKey(cfg.prefix, "G", uuids[id]);
        assert (uuids + [uuid])[id] == uuids[id];
      } else {
        assert (uuids + [uuid])[|uuids|] == uuid;
      }
    }
  }

  lemma BillGranted(cfg: Config, s: Site, n: nat, uuids: seq<string>, uuid: string)
    requires Known(cfg, s, n, uuids) && Keys.IsId(uuid) && uuid !in uuids
    ensures Granted(cfg, s, NewBill(uuid))
  {
    forall j | j in s.world.bills ensures s.world.bills[j].uuid != uuid {
      assert s.world.bills[j].uuid == uuids[j] && uuids[j] in uuids;
    }
  }

  lemma MadeSucceeds(cfg: Config, w: World, g: Billing, uuid: string)
    requires g.id.Some? && g.items == [] && g.pixKey == "" && PixReady(cfg, "")
    ensures Made(cfg, w, g, uuid).result.Success?
  {
    GenerateSucceedsIff(cfg, w, g, "2025-01", map[], [("aluguel", 100000)], "", "", "", uuid);
  }

  lemma BillMade(cfg: Config, s: Site, n: nat, uuids: seq<string>, uuid: string)
    requires WellFormed(cfg, s) && Known(cfg, s, n, uuids) && PixReady(cfg, "")
    ensures Known(cfg, Step(cfg, s, NewBill(uuid)), n + 1, uuids + [uuid])
  {
    var g := LoadBilling(s, 0).value;
    MadeSucceeds(cfg, s.world, g, uuid);
    var o := Made(cfg, s.world, g, uuid).world;
    MadeTables(cfg, s.world, g, uuid);
    BillsGrow(s.world, o, n, uuids, uuid);
    ObjectsGrow(cfg, s.world, o, uuids, uuid);
    assert Step(cfg, s, NewBill(uuid)).world == o;
  }

  /** One more bill after a run. */
  lemma OneMoreBill(cfg: Config, ops: seq<Op>, n: nat, uuids: seq<string>, uuid: string)
    requires RunGranted(cfg, ops) && Known(cfg, Run(cfg, ops), n, uuids) && PixReady(cfg, "")
    requires Keys.IsId(uuid) && uuid !in uuids
    ensures RunGranted(cfg, ops + [NewBill(uuid)]) && Known(cfg, Run(cfg, ops + [NewBill(uuid)]), n + 1, uuids + [uuid])
  {
    var s := Run(cfg, ops);
    assert WellFormed(cfg, s) by {
      CoherentAlways(cfg, ops);
    }
    BillGranted(cfg, s, n, uuids, uuid);
    BillMade(cfg, s, n, uuids, uuid);
    RunStep(cfg, ops, NewBill(uuid));
  }

  lemma UploadGranted(cfg: Config, s: Site)
    requires Known(cfg, s, 2, ["A", "B"])
    ensures Granted(cfg, s, Upload())
  {
    forall b, g | b in s.world.bills && g in s.billings
      ensures Keys.ReceiptKey(cfg.prefix, s.billings[g].uuid, s.world.bills[b].uuid, "K", PDF) !in s.world.objects
    {
      Keys.KeysDisjoint(cfg.prefix, "G", "A", "G", s.world.bills[b].uuid, "K", PDF);
      Keys.KeysDisjoint(cfg.prefix, "G", "B", "G", s.world.bills[b].uuid, "K", PDF);
    }
  }

  function Before(): seq<Op> {
    [NewBilling()] + [NewBill("A")] + [NewBill("B")] + [Upload()]
  }

  lemma RunStep(cfg: Config, ops: seq<Op>, op: Op)
    ensures Run(cfg, ops + [op]) == Step(cfg, Run(cfg, ops), op)
    ensures RunGranted(cfg, ops + [op]) <==> RunGranted(cfg, ops) && Granted(cfg, Run(cfg, ops), op)
  {
    var all := ops + [op];
    assert all[..|all| - 1] == ops && all[|all| - 1] == op && all != [];
  }

  lemma OneBilling(cfg: Config)
    requires PixReady(cfg, "")
    ensures RunGranted(cfg, [NewBilling()]) && Known(cfg, Run(cfg, [NewBilling()]), 0, [])
  {
    RunStep(cfg, [], NewBilling());
    assert [] + [NewBilling()] == [NewBilling()];
  }

  lemma TwoBills(cfg: Config) returns (ops: seq<Op>)
    requires PixReady(cfg, "")
    ensures ops == [NewBilling()] + [NewBill("A")] + [NewBill("B")] && RunGranted(cfg, ops)
    ensures Known(cfg, Run(cfg, ops), 2, ["A", "B"])
  {
    OneBilling(cfg);
    OneMoreBill(cfg, [NewBilling()], 0, [], "A");
    var one := [NewBilling()] + [NewBill("A")];
    assert [] + ["A"] == ["A"];
    OneMoreBill(cfg, one, 1, ["A"], "B");
    ops := one + [NewBill("B")];
    assert ["A"] + ["B"] == ["A", "B"];
  }

  lemma UploadKeepsRows(cfg: Config, s: Site)
    requires Known(cfg, s, 2, ["A", "B"])
    ensures var w := Step(cfg, s, Upload()).world;
            forall id | 0 <= id < 2 :: id in w.bills && !w.bills[id].deleted && w.bills[id].billingId == 0
  {
    var pair := Loaded(s, 0).value;
    assert Step(cfg, s, Upload()) == StepBill(cfg, s, Upload(), pair.0, pair.1);
  }

  /** Both bills still load after the upload. */
  lemma UploadLoads(cfg: Config, s: Site)
    requires Known(cfg, s, 2, ["A", "B"])
    ensures Loaded(Step(cfg, s, Upload()), 0).Some? && Loaded(Step(cfg, s, Upload()), 1).Some?
  {
    UploadKeepsRows(cfg, s);
    assert Step(cfg, s, Upload()).billings == s.billings;
  }

  lemma StepDetach(cfg: Config, t: Site, r: Receipt, bill: int, b: BillData, g: Billing)
    requires Loaded(t, bill) == Some((b, g))
    ensures Step(cfg, t, Detach(r, bill, "")) == Deleted(cfg, t, r, bill, b, g, "")
  {
  }

  lemma RowIsGone(cfg: Config, t: Site, r: Receipt, bill: int, b: BillData, g: Billing)
    requires Inv(cfg, t) && Loaded(t, bill) == Some((b, g))
    ensures r !in Deleted(cfg, t, r, bill, b, g, "").world.receipts
  {
    var pdf := DeletionStores(cfg, t, r, bill, b, g, "");
  }

  /** A receipt of bill 0 is deleted on the page of bill 1. */
  lemma DeletedOnOtherPage(cfg: Config, t: Site, r: Receipt)
    requires Faithful(cfg) && Inv(cfg, t) && r in t.world.receipts && r.billId == 0 && HasPages(cfg, t.world.objects, r)
    requires Loaded(t, 0).Some? && Loaded(t, 1).Some?
    ensures var after := Step(cfg, t, Detach(r, 1, ""));
            r !in after.world.receipts && !Coherent(cfg, after, 0) && !Inv(cfg, after)
  {
    var pair := Loaded(t, 1).value;
    StepDetach(cfg, t, r, 1, pair.0, pair.1);
    RowIsGone(cfg, t, r, 1, pair.0, pair.1);
    ForeignDeleteLeavesStale(cfg, t, r, 1, pair.0, pair.1, "");
    DeletedThrough(cfg, t, r, 1, pair.0, pair.1, "");
  }

  /** One billing with two bills and a receipt on the first. The receipt is deleted on the page of
      the second bill: then the PDF of the first still shows it. */
  lemma ForeignDeleteRun(cfg: Config) returns (r: Receipt)
    requires Faithful(cfg) && PixReady(cfg, "") && FilePages(cfg.tools, (BYTES, PDF)) != []
    ensures RunGranted(cfg, Before()) && r in Run(cfg, Before()).world.receipts && r.billId == 0
    ensures r !in Run(cfg, Before() + [Detach(r, 1, "")]).world.receipts
    ensures !Coherent(cfg, Run(cfg, Before() + [Detach(r, 1, "")]), 0) && !Inv(cfg, Run(cfg, Before() + [Detach(r, 1, "")]))
  {
    var ops := TwoBills(cfg);
    var s := Run(cfg, ops);
    CoherentAlways(cfg, ops);
    UploadGranted(cfg, s);
    RunStep(cfg, ops, Upload());
    UploadLoads(cfg, s);
    CoherentAlways(cfg, Before());
    r := Uploaded(cfg, s);
    DeletedOnOtherPage(cfg, Run(cfg, Before()), r);
    RunStep(cfg, Before(), Detach(r, 1, ""));
  }

  lemma Uploaded(cfg: Config, s: Site) returns (r: Receipt)
    requires Inv(cfg, s) && Known(cfg, s, 2, ["A", "B"]) && Granted(cfg, s, Upload())
    requires FilePages(cfg.tools, (BYTES, PDF)) != []
    ensures var t := Step(cfg, s, Upload()); r in t.world.receipts && r.billId == 0 && HasPages(cfg, t.world.objects, r)
  {
    assert LoadBill(s.world, 0).Some?;
    var pair := Loaded(s, 0).value;
    AddThenList(cfg, s, Upload(), pair.0, pair.1);
    var t := Step(cfg, s, Upload());
    r := AddReceipt(cfg, s.world, true, pair.0, pair.1, "recibo.pdf", BYTES, PDF, "", "K", "R").result.value;
    StepKeeps(cfg, s, Upload());
    ListByBillIsListing(t.world.receipts, 0);
    assert r in ListByBill(t.world.receipts, 0);
  }

  /** The same with the sample libraries, whose invoices have a page more with a PIX code. */
  lemma SampleRun() returns (r: Receipt)
    ensures RunGranted(Sample(), Before()) && r in Run(Sample(), Before()).world.receipts
    ensures !Inv(Sample(), Run(Sample(), Before() + [Detach(r, 1, "")]))
  {
    SampleFaithful();
    r := ForeignDeleteRun(Sample());
  }
}
