/** Who may see a billing: rentivo/services/authorization_service.py, the listing query of
    rentivo/repositories/sqlalchemy.py and the transfers of rentivo/services/billing_service.py. */
module Access {
  import opened Wrappers
  import Invites

  /** A row of the billings table; its id is its place in the table. */
  datatype BillingRow = BillingRow(id: int, ownerType: string, ownerId: int, created: int, deleted: bool)

  // ---- Roles ----

  /** hasOrgs tells whether the service was given an organization repository. */
  function RoleFor(m: Invites.Tables, hasOrgs: bool, user: int, b: BillingRow): Option<string> {
    if b.ownerType == "user" && b.ownerId == user then Some("owner")
    else if b.ownerType == "organization" && hasOrgs && (b.ownerId, user) in m.members then
      Some(m.members[(b.ownerId, user)])
    else None
  }

  predicate CanView(m: Invites.Tables, hasOrgs: bool, user: int, b: BillingRow) {
    RoleFor(m, hasOrgs, user, b).Some?
  }

  predicate CanEdit(m: Invites.Tables, hasOrgs: bool, user: int, b: BillingRow) {
    RoleFor(m, hasOrgs, user, b) in {Some("owner"), Some("admin")}
  }

  predicate CanManage(m: Invites.Tables, hasOrgs: bool, user: int, b: BillingRow) {
    RoleFor(m, hasOrgs, user, b) in {Some("owner"), Some("admin"), Some("manager")}
  }

  predicate CanTransfer(user: int, b: BillingRow) {
    b.ownerType == "user" && b.ownerId == user
  }

  /** Each permission includes the weaker ones, also without an organization repository. */
  lemma PermissionsNest(m: Invites.Tables, hasOrgs: bool, user: int, b: BillingRow)
    ensures CanTransfer(user, b) ==> CanEdit(m, hasOrgs, user, b)
    ensures CanEdit(m, hasOrgs, user, b) ==> CanManage(m, hasOrgs, user, b)
    ensures CanManage(m, hasOrgs, user, b) ==> CanView(m, hasOrgs, user, b)
  {
  }

  // ---- The listing ----

  /** SELECT organization_id FROM organization_members WHERE user_id = user. */
  function OrgsOf(m: Invites.Tables, user: int): set<int> {
    set k | k in m.members && k.1 == user :: k.0
  }

  /** The WHERE clause of the listing. */
  predicate Selects(m: Invites.Tables, user: int, b: BillingRow) {
    && !b.deleted
    && ((b.ownerType == "user" && b.ownerId == user)
        || (b.ownerType == "organization" && b.ownerId in OrgsOf(m, user)))
  }

  function Selected(m: Invites.Tables, user: int, rows: seq<BillingRow>): seq<BillingRow> {
    if rows == [] then []
    else if Selects(m, user, rows[|rows| - 1]) then Selected(m, user, rows[..|rows| - 1]) + [rows[|rows| - 1]]
    else Selected(m, user, rows[..|rows| - 1])
  }

  /** ORDER BY created_at DESC; the database chooses among rows created at once. */
  ghost predicate IsListing(m: Invites.Tables, user: int, rows: seq<BillingRow>, result: seq<BillingRow>) {
    && multiset(result) == multiset(Selected(m, user, rows))
    && forall i, j | 0 <= i < j < |result| :: result[i].created >= result[j].created
  }

  lemma SelectsIff(m: Invites.Tables, user: int, b: BillingRow)
    ensures Selects(m, user, b) <==> !b.deleted && CanView(m, true, user, b)
  {
    if (b.ownerId, user) in m.members {
      assert b.ownerId in OrgsOf(m, user);
    }
  }

  lemma {:induction false} SelectedCount(m: Invites.Tables, user: int, rows: seq<BillingRow>, b: BillingRow)
    ensures multiset(Selected(m, user, rows))[b] ==
            if !b.deleted && CanView(m, true, user, b) then multiset(rows)[b] else 0
  {
    SelectsIff(m, user, b);
    if rows != [] {
      assert rows == rows[..|rows| - 1] + [rows[|rows| - 1]];
      SelectedCount(m, user, rows[..|rows| - 1], b);
    }
  }

  /** The query and the predicate agree: a listing holds each billing that is not deleted and that
      the user can view, as often as the table does, and no other. */
  lemma ListedIffCanView(m: Invites.Tables, user: int, rows: seq<BillingRow>, result: seq<BillingRow>, b: BillingRow)
    requires IsListing(m, user, rows, result)
    ensures multiset(result)[b] == if !b.deleted && CanView(m, true, user, b) then multiset(rows)[b] else 0
    ensures b in result <==> b in rows && !b.deleted && CanView(m, true, user, b)
  {
    SelectedCount(m, user, rows, b);
    assert b in result <==> multiset(result)[b] > 0;
    assert b in rows <==> multiset(rows)[b] > 0;
  }

  // ---- Transfers ----

  datatype Error = NotFound | NotPersonal

  function SetOwner(rows: seq<BillingRow>, id: int, ownerType: string, ownerId: int): seq<BillingRow> {
    if 0 <= id < |rows| then rows[id := rows[id].(ownerType := ownerType, ownerId := ownerId)] else rows
  }

  function Transfer(rows: seq<BillingRow>, id: int, org: int): Result<seq<BillingRow>, Error> {
    if !(0 <= id < |rows|) || rows[id].deleted then Failure(NotFound)
    else if rows[id].ownerType != "user" then Failure(NotPersonal)
    else Success(SetOwner(rows, id, "organization", org))
  }

  class BillingRepository {
    var rows: seq<BillingRow>

    constructor ()
      ensures rows == []
    {
      rows := [];
    }

    method GetById(id: int) returns (b: Option<BillingRow>)
      ensures b == if 0 <= id < |rows| && !rows[id].deleted then Some(rows[id]) else None
    {
      b := if 0 <= id < |rows| && !rows[id].deleted then Some(rows[id]) else None;
    }

    method TransferOwner(id: int, ownerType: string, ownerId: int)
      modifies this
      ensures rows == SetOwner(old(rows), id, ownerType, ownerId)
    {
      if 0 <= id < |rows| {
        rows := rows[id := rows[id].(ownerType := ownerType, ownerId := ownerId)];
      }
    }
  }

  class BillingService {
    const repo: BillingRepository

    constructor (repo: BillingRepository)
      ensures this.repo == repo
    {
      this.repo := repo;
    }

    method TransferToOrganization(id: int, org: int) returns (error: Option<Error>)
      modifies repo
      ensures match Transfer(old(repo.rows), id, org)
              case Success(after) => error == None && repo.rows == after
              case Failure(e) => error == Some(e) && repo.rows == old(repo.rows)
    {
      var billing := repo.GetById(id);
      if billing.None? {
        return Some(NotFound);
      }
      if billing.value.ownerType != "user" {
        return Some(NotPersonal);
      }
      repo.TransferOwner(id, "organization", org);
      error := None;
    }
  }

  // ---- Runs ----

  datatype Op =
    | Membership(op: Invites.Op)
    | NewBilling(ownerType: string, ownerId: int, created: int)
    | Handover(id: int, org: int)
    | Drop(id: int)

  datatype State = State(tables: Invites.Tables, billings: seq<BillingRow>)

  function Step(s: State, op: Op): State {
    match op
    case Membership(o) => s.(tables := Invites.Step(s.tables, o))
    case NewBilling(ownerType, ownerId, created) =>
      s.(billings := s.billings + [BillingRow(|s.billings|, ownerType, ownerId, created, false)])
    case Handover(id, org) =>
      (match Transfer(s.billings, id, org)
       case Success(after) => s.(billings := after)
       case Failure(_) => s)
    case Drop(id) =>
      if 0 <= id < |s.billings| then s.(billings := s.billings[id := s.billings[id].(deleted := true)]) else s
  }

  function Run(ops: seq<Op>): State {
    if ops == [] then State(Invites.EMPTY, []) else Step(Run(ops[..|ops| - 1]), ops[|ops| - 1])
  }

  lemma {:induction false} RunInv(ops: seq<Op>)
    ensures Invites.Inv(Run(ops).tables)
    ensures forall i | 0 <= i < |Run(ops).billings| :: Run(ops).billings[i].id == i
  {
    if ops != [] {
      RunInv(ops[..|ops| - 1]);
      if ops[|ops| - 1].Membership? {
        Invites.StepKeeps(Run(ops[..|ops| - 1]).tables, ops[|ops| - 1].op);
      }
    }
  }

  /** Whatever happened before, the listing of a user shows a billing exactly once or not at all,
      and shows it only to its personal owner, to the creator of the organization that owns it, or
      to someone who accepted an invite to that organization and is still a member. */
  lemma ListedOnlyToEntitled(ops: seq<Op>, user: int, result: seq<BillingRow>, b: BillingRow)
    requires IsListing(Run(ops).tables, user, Run(ops).billings, result)
    ensures multiset(result)[b] <= 1
    ensures b in result ==>
              var m := Run(ops).tables;
              || (b.ownerType == "user" && b.ownerId == user)
              || (b.ownerType == "organization" && (b.ownerId, user) in m.members && b.ownerId in m.orgs
                  && (m.orgs[b.ownerId].createdBy == user || Invites.HasAccepted(m.invites, b.ownerId, user)))
  {
    var s := Run(ops);
    RunInv(ops);
    ListedIffCanView(s.tables, user, s.billings, result, b);
    CountById(s.billings, b);
  }

  lemma {:induction false} CountById(rows: seq<BillingRow>, b: BillingRow)
    requires forall i | 0 <= i < |rows| :: rows[i].id == i
    ensures multiset(rows)[b] <= 1 && (|rows| <= b.id ==> multiset(rows)[b] == 0)
  {
    if rows != [] {
      assert rows == rows[..|rows| - 1] + [rows[|rows| - 1]];
      CountById(rows[..|rows| - 1], b);
    }
  }

  /** A row keeps its place, and once an organization owns it, its owner. */
  ghost predicate OwnersKept(before: seq<BillingRow>, after: seq<BillingRow>) {
    && |before| <= |after|
    && forall i | 0 <= i < |before| ::
         && (before[i].ownerType != "user" || after[i].ownerType != "organization" ==>
               after[i].ownerType == before[i].ownerType && after[i].ownerId == before[i].ownerId)
         && (before[i].deleted ==> after[i] == before[i])
  }

  lemma StepKeepsOwners(s: State, op: Op)
    ensures OwnersKept(s.billings, Step(s, op).billings)
  {
  }

  lemma OwnersKeptTwice(a: seq<BillingRow>, b: seq<BillingRow>, c: seq<BillingRow>)
    requires OwnersKept(a, b) && OwnersKept(b, c)
    ensures OwnersKept(a, c)
  {
  }

  /** An organization that a billing was transferred to owns it for good; until then its personal
      owner does. */
  lemma {:induction false} TransfersAreFinal(ops: seq<Op>, more: seq<Op>)
    ensures OwnersKept(Run(ops).billings, Run(ops + more).billings)
  {
    if more == [] {
      assert ops + more == ops;
    } else {
      var front := more[..|more| - 1];
      assert (ops + more)[..|ops + more| - 1] == ops + front;
      TransfersAreFinal(ops, front);
      StepKeepsOwners(Run(ops + front), more[|more| - 1]);
      OwnersKeptTwice(Run(ops).billings, Run(ops + front).billings, Run(ops + more).billings);
    }
  }

  // ---- What each role may do ----

  /** The personal owner may do everything; for an organization's billing a member may view it,
      manage its bills as owner, admin or manager, and edit it as owner or admin; nobody else may
      do anything. */
  lemma RolePermissions(m: Invites.Tables, user: int, b: BillingRow)
    ensures b.ownerType == "user" ==>
              && (CanView(m, true, user, b) <==> b.ownerId == user)
              && (CanManage(m, true, user, b) <==> b.ownerId == user)
              && (CanEdit(m, true, user, b) <==> b.ownerId == user)
              && (CanTransfer(user, b) <==> b.ownerId == user)
    ensures b.ownerType == "organization" ==>
              var member := (b.ownerId, user) in m.members;
              var role := if member then m.members[(b.ownerId, user)] else "";
              && (CanView(m, true, user, b) <==> member)
              && (CanManage(m, true, user, b) <==> member && role in {"owner", "admin", "manager"})
              && (CanEdit(m, true, user, b) <==> member && role in {"owner", "admin"})
              && !CanTransfer(user, b)
    ensures b.ownerType != "user" ==> !CanView(m, false, user, b)
  {
  }

  /** A plain member may view and no more. */
  lemma ViewerOnlyViews(m: Invites.Tables, user: int, b: BillingRow)
    requires b.ownerType == "organization" && (b.ownerId, user) in m.members && m.members[(b.ownerId, user)] == "viewer"
    ensures CanView(m, true, user, b) && !CanManage(m, true, user, b) && !CanEdit(m, true, user, b) && !CanTransfer(user, b)
  {
  }

  /** A billing can be transferred exactly when it is there, not deleted and personal; then the
      organization owns it and no other row changes. Else it is missing, or not personal. */
  lemma TransferIff(rows: seq<BillingRow>, id: int, org: int)
    ensures Transfer(rows, id, org).Success? <==> 0 <= id < |rows| && !rows[id].deleted && rows[id].ownerType == "user"
    ensures Transfer(rows, id, org).Success? ==>
              Transfer(rows, id, org).value == rows[id := rows[id].(ownerType := "organization", ownerId := org)]
    ensures Transfer(rows, id, org) == Failure(NotFound) <==> id < 0 || id >= |rows| || rows[id].deleted
  {
  }
}
