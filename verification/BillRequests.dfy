/** The requests of web/routes/bill.py that change bills: each loads the bill, then its billing,
    then calls the service. */
module BillRequests {
  import opened BillCoherence
  import opened BillService
  import opened BillWorld
  import opened Wrappers

  class Application {
    const service: BillService
    const receiptRepo: ReceiptRepository
    var billings: map<int, BillingRow>
    /** The occasion on which each bill's PDF was last drawn. */
    ghost var drawn: map<int, Occasion>

    constructor (cfg: Config)
      ensures Valid() && fresh(service.billRepo) && fresh(service.storage) && fresh(receiptRepo)
      ensures service.cfg == cfg && Site() == EMPTY
    {
      var bills := new BillRepository();
      var storage := new Storage(cfg.resolve);
      var receipts := new ReceiptRepository();
      service := new BillService(cfg, bills, storage, receipts);
      receiptRepo := receipts;
      billings, drawn := map[], map[];
    }

    ghost predicate Valid() {
      service.Valid() && service.receiptRepo == receiptRepo
    }

    ghost function Site(): Site
      reads this, service.billRepo, service.storage, service.receiptRepo
    {
      BillCoherence.Site(service.View(), billings, drawn)
    }

    /** Notes the occasion of a drawing that succeeded. */
    ghost method Note(drew: bool, id: int, g: Billing, theme: string)
      modifies this`drawn
      ensures drawn == if drew then old(drawn)[id := Occasion(g.name, g.pixKey, theme)] else old(drawn)
    {
      if drew {
        drawn := drawn[id := Occasion(g.name, g.pixKey, theme)];
      }
    }

    /** A request that names a bill. */
    method HandleBill(op: Op)
      requires Valid()
      requires op.Update? || op.Regenerate? || op.Status? || op.Attach? || op.Detach? || op.Reorder?
      modifies this`drawn, service.billRepo, service.storage, receiptRepo
      ensures Site() == Step(service.cfg, old(Site()), op)
    {
      var bill := service.billRepo.GetById(op.bill);
      if bill == null || bill.billingId !in billings || billings[bill.billingId].deleted {
        return;
      }
      var row := billings[bill.billingId];
      var g := Billing(Some(bill.billingId), row.uuid, row.name, row.pixKey, row.items);
      assert Loaded(Site(), op.bill) == Some((bill.Data(), g));
      if op.Update? || op.Regenerate? || op.Status? {
        ChangeBill(op, bill, g);
      } else {
        ChangeReceipts(op, bill, g);
      }
    }

    method ChangeBill(op: Op, bill: Bill, g: Billing)
      requires Valid() && (op.Update? || op.Regenerate? || op.Status?)
      modifies this`drawn, bill, service.billRepo, service.storage
      ensures Site() == StepBill(service.cfg, old(Site()), op, old(bill.Data()), g)
    {
      match op {
        case Update(id, lines, notes, due, theme) =>
          var updated := service.UpdateBillPdf(bill, g, lines, notes, due, theme);
          Note(updated.Success?, id, g, theme);
        case Regenerate(id, theme) =>
          var redrawn := service.FinishBill(bill, g, theme);
          Note(redrawn.Success?, id, g, theme);
        case Status(_, status) => var _ := service.SetBillStatus(bill, status);
      }
    }

    method ChangeReceipts(op: Op, bill: Bill, g: Billing)
      requires Valid() && (op.Attach? || op.Detach? || op.Reorder?)
      modifies this`drawn, bill, service.billRepo, service.storage, receiptRepo
      ensures Site() == StepBill(service.cfg, old(Site()), op, old(bill.Data()), g)
    {
      match op {
        case Attach(_, _, _, _, _, _, _) => AttachReceipt(op, bill, g);
        case Detach(_, _, _) => DetachReceipt(op, bill, g);
        case Reorder(_, _, _) => ReorderReceipts(op, bill, g);
      }
    }

    method DetachReceipt(op: Op, bill: Bill, g: Billing)
      requires Valid() && op.Detach?
      modifies this`drawn, bill, service.billRepo, service.storage, receiptRepo
      ensures Site() == StepBill(service.cfg, old(Site()), op, old(bill.Data()), g)
    {
      var path := service.RemoveReceipt(Some(op.receipt.id), bill, g, op.theme);
      Note(path.Success?, op.bill, g, op.theme);
    }

    method ReorderReceipts(op: Op, bill: Bill, g: Billing)
      requires Valid() && op.Reorder?
      modifies this`drawn, bill, service.billRepo, service.storage, receiptRepo
      ensures Site() == StepBill(service.cfg, old(Site()), op, old(bill.Data()), g)
    {
      var path := service.ReorderBillReceipts(bill, g, op.uuids, op.theme);
      Note(path.Success?, op.bill, g, op.theme);
    }

    method AttachReceipt(op: Op, bill: Bill, g: Billing)
      requires Valid() && op.Attach?
      modifies this`drawn, bill, service.billRepo, service.storage, receiptRepo
      ensures Site() == StepBill(service.cfg, old(Site()), op, old(bill.Data()), g)
    {
      var added := service.AddReceiptFile(bill, g, op.filename, op.bytes, op.contentType, op.theme, op.keyId, op.uuid);
      Note(added.Success?, op.bill, g, op.theme);
    }

    method HandleGenerate(op: Op)
      requires Valid() && op.Generate?
      modifies this`drawn, service.billRepo, service.storage
      ensures Site() == Step(service.cfg, old(Site()), op)
    {
      if op.billing !in billings || billings[op.billing].deleted {
        return;
      }
      var row := billings[op.billing];
      var g := Billing(Some(op.billing), row.uuid, row.name, row.pixKey, row.items);
      assert LoadBilling(Site(), op.billing) == Some(g);
      ghost var id := service.View().nextBill;
      var bill := service.GenerateBillPdf(g, op.month, op.variable, op.extras, op.notes, op.due, op.theme, op.uuid);
      Note(bill.Success?, id, g, op.theme);
    }

    method HandleDrop(id: int)
      requires Valid()
      modifies service.billRepo
      ensures Site() == Step(service.cfg, old(Site()), Drop(id))
    {
      var bill := service.billRepo.GetById(id);
      assert bill == null <==> LoadBill(Site().world, id).None?;
      if bill != null {
        service.DeleteBill(id);
      }
    }

    method HandleBilling(op: Op)
      requires Valid() && (op.CreateBilling? || op.EditBilling? || op.DropBilling?)
      modifies this`billings
      ensures Site() == Step(service.cfg, old(Site()), op)
    {
      if op.CreateBilling? {
        billings := billings[op.id := op.row];
      } else if op.id in billings {
        billings := billings[op.id := if op.EditBilling? then
                                        billings[op.id].(name := op.name, pixKey := op.pixKey, items := op.items)
                                      else billings[op.id].(deleted := true)];
      }
    }

    /** Every request takes the state to the next one of the run. */
    method Handle(op: Op)
      requires Valid()
      modifies this`billings, this`drawn, service.billRepo, service.storage, receiptRepo
      ensures Site() == Step(service.cfg, old(Site()), op)
    {
      match op {
        case CreateBilling(_, _) => HandleBilling(op);
        case EditBilling(_, _, _, _) => HandleBilling(op);
        case DropBilling(_) => HandleBilling(op);
        case Generate(_, _, _, _, _, _, _, _) => HandleGenerate(op);
        case Drop(id) => HandleDrop(id);
        case _ => HandleBill(op);
      }
    }

    /** A server that starts empty and handles granted requests one after the other keeps every
        stored PDF coherent. */
    method Serve(ops: seq<Op>)
      requires Valid() && Site() == EMPTY && RunGranted(service.cfg, ops)
      modifies this`billings, this`drawn, service.billRepo, service.storage, receiptRepo
      ensures Site() == Run(service.cfg, ops) && Inv(service.cfg, Site())
    {
      for i := 0 to |ops|
        invariant Site() == Run(service.cfg, ops[..i])
      {
        assert ops[..i + 1][..i] == ops[..i];
        Handle(ops[i]);
      }
      assert ops[..|ops|] == ops;
      CoherentAlways(service.cfg, ops);
    }
  }
}
