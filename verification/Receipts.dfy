/** The receipts table and its order: rentivo/repositories/sqlalchemy.py and the receipt methods
    of rentivo/services/bill_service.py. */
module Receipts {
  import opened Wrappers

  datatype Receipt = Receipt(
    id: int, uuid: string, billId: int, filename: string, storageKey: string, contentType: string,
    size: int, sort: int)

  // ---- Listing in order ----

  /** ORDER BY sort_order, id. */
  predicate Before(a: Receipt, b: Receipt) {
    a.sort < b.sort || (a.sort == b.sort && a.id < b.id)
  }

  ghost predicate Ordered(rs: seq<Receipt>) {
    forall i, j | 0 <= i < j < |rs| :: Before(rs[i], rs[j])
  }

  ghost predicate DistinctIds(rows: seq<Receipt>) {
    forall i, j | 0 <= i < j < |rows| :: rows[i].id != rows[j].id
  }

  ghost predicate DistinctUuids(rows: seq<Receipt>) {
    forall i, j | 0 <= i < j < |rows| :: rows[i].uuid != rows[j].uuid
  }

  /** rs is the result of the query for the receipts of bill b. */
  ghost predicate IsListing(rows: seq<Receipt>, b: int, rs: seq<Receipt>) {
    Ordered(rs) && forall r: Receipt :: r in rs <==> r in rows && r.billId == b
  }

  function Insert(r: Receipt, rs: seq<Receipt>): seq<Receipt> {
    if rs == [] then [r]
    else if Before(rs[|rs| - 1], r) then rs + [r]
    else Insert(r, rs[..|rs| - 1]) + [rs[|rs| - 1]]
  }

  function ListByBill(rows: seq<Receipt>, b: int): seq<Receipt> {
    if rows == [] then []
    else
      var rest := ListByBill(rows[..|rows| - 1], b);
      var last := rows[|rows| - 1];
      if last.billId == b then Insert(last, rest) else rest
  }

  lemma {:induction false} InsertMembers(r: Receipt, rs: seq<Receipt>)
    ensures forall x: Receipt :: x in Insert(r, rs) <==> x == r || x in rs
  {
    if rs != [] {
      assert rs == rs[..|rs| - 1] + [rs[|rs| - 1]];
      InsertMembers(r, rs[..|rs| - 1]);
    }
  }

  lemma {:induction false} InsertOrdered(r: Receipt, rs: seq<Receipt>)
    requires Ordered(rs) && forall x <- rs :: x.id != r.id
    ensures Ordered(Insert(r, rs))
  {
    if rs != [] {
      var front, last := rs[..|rs| - 1], rs[|rs| - 1];
      assert forall x <- front :: Before(x, last);
      if Before(last, r) {
        assert forall x <- front :: Before(x, r);
      } else {
        InsertOrdered(r, front);
        InsertMembers(r, front);
      }
    }
  }

  lemma {:induction false} ListByBillIsListing(rows: seq<Receipt>, b: int)
    requires DistinctIds(rows)
    ensures IsListing(rows, b, ListByBill(rows, b))
  {
    if rows != [] {
      var front, last := rows[..|rows| - 1], rows[|rows| - 1];
      ListByBillIsListing(front, b);
      assert rows == front + [last];
      if last.billId == b {
        InsertMembers(last, ListByBill(front, b));
        InsertOrdered(last, ListByBill(front, b));
      }
    }
  }

  /** Of two listed receipts the first has the smaller sort order, or the same and the smaller id. */
  lemma ListingOrder(rows: seq<Receipt>, b: int, i: nat, j: nat)
    requires DistinctIds(rows) && i < j < |ListByBill(rows, b)|
    ensures var first, second := ListByBill(rows, b)[i], ListByBill(rows, b)[j];
            first.sort < second.sort || (first.sort == second.sort && first.id < second.id)
  {
    ListByBillIsListing(rows, b);
  }

  lemma SameLast(a: seq<Receipt>, b: seq<Receipt>)
    requires Ordered(a) && Ordered(b) && a != [] && b != []
    requires forall r: Receipt :: r in a <==> r in b
    ensures a[|a| - 1] == b[|b| - 1]
  {
    var x, y := a[|a| - 1], b[|b| - 1];
    assert x in a && y in b;
    var i :| 0 <= i < |b| && b[i] == x;
    var j :| 0 <= j < |a| && a[j] == y;
  }

  lemma FrontMembers(a: seq<Receipt>)
    requires Ordered(a) && a != []
    ensures Ordered(a[..|a| - 1])
    ensures forall r: Receipt :: r in a[..|a| - 1] <==> r in a && r != a[|a| - 1]
  {
    var front, last := a[..|a| - 1], a[|a| - 1];
    assert a == front + [last];
    forall i | 0 <= i < |front| ensures front[i] != last {
      assert Before(a[i], last);
    }
  }

  /** Rows in order are determined by which rows they are. */
  lemma {:induction false} OrderedUnique(a: seq<Receipt>, b: seq<Receipt>)
    requires Ordered(a) && Ordered(b) && forall r: Receipt :: r in a <==> r in b
    ensures a == b
  {
    assert a != [] ==> a[0] in a;
    assert b != [] ==> b[0] in b;
    if a != [] && b != [] {
      SameLast(a, b);
      FrontMembers(a);
      FrontMembers(b);
      var fa, fb := a[..|a| - 1], b[..|b| - 1];
      forall r: Receipt ensures r in fa <==> r in fb {
        assert r in fa <==> r in a && r != a[|a| - 1];
        assert r in fb <==> r in b && r != b[|b| - 1];
      }
      OrderedUnique(fa, fb);
      assert a == fa + [a[|a| - 1]] && b == fb + [b[|b| - 1]];
    }
  }

  lemma ListingUnique(rows: seq<Receipt>, b: int, rs: seq<Receipt>)
    requires DistinctIds(rows) && IsListing(rows, b, rs)
    ensures ListByBill(rows, b) == rs
  {
    ListByBillIsListing(rows, b);
    OrderedUnique(ListByBill(rows, b), rs);
  }

  // ---- Adding ----

  /** max(sort orders, default=-1). */
  function MaxSort(rs: seq<Receipt>): (m: int)
    ensures forall r <- rs :: r.sort <= m
    ensures rs == [] ==> m == -1
    ensures rs != [] ==> exists r <- rs :: r.sort == m
  {
    if rs == [] then -1
    else if |rs| == 1 then rs[0].sort
    else
      assert rs == rs[..|rs| - 1] + [rs[|rs| - 1]];
      var m := MaxSort(rs[..|rs| - 1]);
      if m < rs[|rs| - 1].sort then rs[|rs| - 1].sort else m
  }

  /** A receipt inserted with the next sort order is listed last; other bills keep theirs. */
  lemma AddAppends(rows: seq<Receipt>, r: Receipt, b: int)
    requires DistinctIds(rows + [r])
    requires r.billId == b ==> r.sort == MaxSort(ListByBill(rows, b)) + 1
    ensures ListByBill(rows + [r], b) ==
            if r.billId == b then ListByBill(rows, b) + [r] else ListByBill(rows, b)
  {
    assert DistinctIds(rows) by {
      assert forall i | 0 <= i < |rows| :: (rows + [r])[i] == rows[i];
    }
    ListByBillIsListing(rows, b);
    var after := if r.billId == b then ListByBill(rows, b) + [r] else ListByBill(rows, b);
    ListingUnique(rows + [r], b, after);
  }

  // ---- Deleting ----

  function Without(rows: seq<Receipt>, id: int): (rest: seq<Receipt>)
    ensures forall r: Receipt :: r in rest <==> r in rows && r.id != id
  {
    if rows == [] then []
    else
      var front, last := rows[..|rows| - 1], rows[|rows| - 1];
      assert rows == front + [last];
      if last.id == id then Without(front, id) else Without(front, id) + [last]
  }

  lemma {:induction false} WithoutOrdered(rows: seq<Receipt>, id: int)
    requires Ordered(rows)
    ensures Ordered(Without(rows, id))
  {
    if rows != [] {
      var front, last := rows[..|rows| - 1], rows[|rows| - 1];
      WithoutOrdered(front, id);
      assert forall i | 0 <= i < |front| :: Before(front[i], last);
      assert forall r <- front :: Before(r, last);
    }
  }

  lemma {:induction false} WithoutDistinctIds(rows: seq<Receipt>, id: int)
    requires DistinctIds(rows)
    ensures DistinctIds(Without(rows, id))
  {
    if rows != [] {
      var front, last := rows[..|rows| - 1], rows[|rows| - 1];
      WithoutDistinctIds(front, id);
      assert forall i | 0 <= i < |front| :: front[i].id != last.id;
      assert forall r <- front :: r.id != last.id;
    }
  }

  lemma {:induction false} WithoutDistinctUuids(rows: seq<Receipt>, id: int)
    requires DistinctUuids(rows)
    ensures DistinctUuids(Without(rows, id))
  {
    if rows != [] {
      var front, last := rows[..|rows| - 1], rows[|rows| - 1];
      WithoutDistinctUuids(front, id);
      assert forall i | 0 <= i < |front| :: front[i].uuid != last.uuid;
      assert forall r <- front :: r.uuid != last.uuid;
    }
  }

  /** Deleting a row takes it out of the listing and moves nothing else. */
  lemma DeleteKeepsOrder(rows: seq<Receipt>, id: int, b: int)
    requires DistinctIds(rows)
    ensures ListByBill(Without(rows, id), b) == Without(ListByBill(rows, b), id)
  {
    ListByBillIsListing(rows, b);
    WithoutDistinctIds(rows, id);
    WithoutOrdered(ListByBill(rows, b), id);
    ListingUnique(Without(rows, id), b, Without(ListByBill(rows, b), id));
  }

  // ---- Reordering ----

  datatype OrderError = Foreign(uuid: string) | Incomplete

  /** {r.uuid: r for r in existing}. */
  function ByUuid(existing: seq<Receipt>): map<string, Receipt> {
    if existing == [] then map[]
    else ByUuid(existing[..|existing| - 1])[existing[|existing| - 1].uuid := existing[|existing| - 1]]
  }

  /** The first listed uuid that is not a key. */
  function FirstForeign(index: map<string, Receipt>, uuids: seq<string>): (r: Option<string>)
    ensures r.None? <==> forall u <- uuids :: u in index
    ensures r.Some? ==> r.value in uuids && r.value !in index
  {
    if uuids == [] then None
    else if uuids[0] !in index then Some(uuids[0])
    else
      assert forall u <- uuids :: u == uuids[0] || u in uuids[1..];
      FirstForeign(index, uuids[1..])
  }

  /** The new sort order of each receipt, or the reason to refuse the list. */
  function PlanOrder(existing: seq<Receipt>, uuids: seq<string>): Result<seq<(int, int)>, OrderError> {
    var index := ByUuid(existing);
    match FirstForeign(index, uuids)
    case Some(u) => Failure(Foreign(u))
    case None =>
      if |uuids| != |existing| then Failure(Incomplete)
      else
        assert forall i | 0 <= i < |uuids| :: uuids[i] in uuids;
        Success(seq(|uuids|, i requires 0 <= i < |uuids| => (index[uuids[i]].id, i)))
  }

  /** UPDATE receipts SET sort_order WHERE id. */
  function SetSort(rows: seq<Receipt>, id: int, sort: int): seq<Receipt> {
    seq(|rows|, i requires 0 <= i < |rows| => if rows[i].id == id then rows[i].(sort := sort) else rows[i])
  }

  function ApplySorts(rows: seq<Receipt>, updates: seq<(int, int)>): seq<Receipt> {
    if updates == [] then rows
    else
      var last := updates[|updates| - 1];
      SetSort(ApplySorts(rows, updates[..|updates| - 1]), last.0, last.1)
  }

  /** The sort order that a run of updates leaves a row with. */
  function FinalSort(updates: seq<(int, int)>, id: int, sort: int): int {
    if updates == [] then sort
    else if updates[|updates| - 1].0 == id then updates[|updates| - 1].1
    else FinalSort(updates[..|updates| - 1], id, sort)
  }

  lemma {:induction false} ApplySortsAt(rows: seq<Receipt>, updates: seq<(int, int)>)
    ensures |ApplySorts(rows, updates)| == |rows|
    ensures forall i | 0 <= i < |rows| ::
              ApplySorts(rows, updates)[i] == rows[i].(sort := FinalSort(updates, rows[i].id, rows[i].sort))
  {
    if updates != [] {
      ApplySortsAt(rows, updates[..|updates| - 1]);
    }
  }

  lemma {:induction false} FinalSortOf(updates: seq<(int, int)>, k: int, sort: int)
    requires 0 <= k < |updates|
    requires forall i, j | 0 <= i < j < |updates| :: updates[i].0 != updates[j].0
    ensures FinalSort(updates, updates[k].0, sort) == updates[k].1
  {
    if k < |updates| - 1 {
      FinalSortOf(updates[..|updates| - 1], k, sort);
    }
  }

  lemma {:induction false} FinalSortUntouched(updates: seq<(int, int)>, id: int, sort: int)
    requires forall i | 0 <= i < |updates| :: updates[i].0 != id
    ensures FinalSort(updates, id, sort) == sort
  {
    if updates != [] {
      FinalSortUntouched(updates[..|updates| - 1], id, sort);
    }
  }

  ghost predicate NoRepeats(s: seq<string>) {
    forall i, j | 0 <= i < j < |s| :: s[i] != s[j]
  }

  function Uuids(rs: seq<Receipt>): seq<string> {
    seq(|rs|, i requires 0 <= i < |rs| => rs[i].uuid)
  }

  lemma {:induction false} ByUuidKeys(rs: seq<Receipt>)
    ensures forall u: string :: u in ByUuid(rs) <==> u in Uuids(rs)
    ensures forall u <- ByUuid(rs) :: ByUuid(rs)[u] in rs && ByUuid(rs)[u].uuid == u
  {
    if rs != [] {
      var front, last := rs[..|rs| - 1], rs[|rs| - 1];
      ByUuidKeys(front);
      assert rs == front + [last];
      assert Uuids(rs) == Uuids(front) + [last.uuid];
    }
  }

  lemma ByUuidFinds(rs: seq<Receipt>)
    requires DistinctUuids(rs)
    ensures forall u: string :: u in ByUuid(rs) <==> u in Uuids(rs)
    ensures forall u <- ByUuid(rs) :: ByUuid(rs)[u] in rs && ByUuid(rs)[u].uuid == u
    ensures forall r <- rs :: r.uuid in ByUuid(rs) && ByUuid(rs)[r.uuid] == r
  {
    ByUuidKeys(rs);
    forall i | 0 <= i < |rs| ensures rs[i].uuid in ByUuid(rs) && ByUuid(rs)[rs[i].uuid] == rs[i] {
      assert Uuids(rs)[i] == rs[i].uuid;
      var found := ByUuid(rs)[rs[i].uuid];
      var j :| 0 <= j < |rs| && rs[j] == found;
    }
  }

  lemma ListingDistinct(rows: seq<Receipt>, rs: seq<Receipt>)
    requires DistinctIds(rows) && DistinctUuids(rows) && Ordered(rs) && forall r <- rs :: r in rows
    ensures DistinctIds(rs) && DistinctUuids(rs)
  {
    forall i, j | 0 <= i < j < |rs| ensures rs[i].id != rs[j].id && rs[i].uuid != rs[j].uuid {
      assert Before(rs[i], rs[j]) && rs[i] in rs && rs[j] in rs;
      var m :| 0 <= m < |rows| && rows[m] == rs[i];
      var n :| 0 <= n < |rows| && rows[n] == rs[j];
    }
  }

  lemma {:induction false} SetSize(s: seq<string>)
    ensures |(set u <- s)| <= |s|
    ensures NoRepeats(s) ==> |(set u <- s)| == |s|
  {
    if s == [] {
      assert (set u <- s) == {};
    } else {
      var front, last := s[..|s| - 1], s[|s| - 1];
      SetSize(front);
      assert s == front + [last];
      assert (set u <- s) == (set u <- front) + {last};
      assert NoRepeats(s) ==> NoRepeats(front) && last !in front;
    }
  }

  /** A list without repeats, of members only and as long as the whole, leaves nobody out. */
  lemma Covers(uuids: seq<string>, all: seq<string>)
    requires NoRepeats(uuids) && |uuids| == |all| && forall u <- uuids :: u in all
    ensures forall u <- all :: u in uuids
  {
    var su, sa := set u <- uuids, set u <- all;
    SetSize(uuids);
    SetSize(all);
    assert su <= sa;
    SubsetOfSameSize(su, sa);
    assert forall u <- all :: u in sa;
  }

  lemma SubsetOfSameSize(a: set<string>, b: set<string>)
    requires a <= b && |a| >= |b|
    ensures a == b
  {
    assert |b| == |a| + |b - a| by { assert b == a + (b - a); }
  }

  /** What PlanOrder has established when it accepts a list. */
  lemma PlanFacts(existing: seq<Receipt>, uuids: seq<string>, updates: seq<(int, int)>)
    requires DistinctIds(existing) && DistinctUuids(existing)
    requires PlanOrder(existing, uuids) == Success(updates)
    ensures |updates| == |uuids| == |existing| && forall u <- uuids :: u in ByUuid(existing)
    ensures forall i | 0 <= i < |uuids| ::
              uuids[i] in ByUuid(existing) && updates[i] == (ByUuid(existing)[uuids[i]].id, i)
  {
    assert forall i | 0 <= i < |uuids| :: uuids[i] in uuids;
  }

  lemma PlanIds(existing: seq<Receipt>, uuids: seq<string>, updates: seq<(int, int)>)
    requires DistinctIds(existing) && DistinctUuids(existing) && NoRepeats(uuids)
    requires PlanOrder(existing, uuids) == Success(updates)
    ensures forall i, j | 0 <= i < j < |updates| :: updates[i].0 != updates[j].0
  {
    var index := ByUuid(existing);
    PlanFacts(existing, uuids, updates);
    ByUuidFinds(existing);
    forall i, j | 0 <= i < j < |updates| ensures updates[i].0 != updates[j].0 {
      assert uuids[i] in uuids && uuids[j] in uuids;
      DifferentIds(existing, index[uuids[i]], index[uuids[j]]);
    }
  }

  lemma DifferentIds(rs: seq<Receipt>, x: Receipt, y: Receipt)
    requires DistinctIds(rs) && x in rs && y in rs && x != y
    ensures x.id != y.id
  {
    var m :| 0 <= m < |rs| && rs[m] == x;
    var n :| 0 <= n < |rs| && rs[n] == y;
  }

  /** The rows of the bill after an accepted list without repeats, in the order of the list. */
  function Renumbered(existing: seq<Receipt>, uuids: seq<string>): (rs: seq<Receipt>)
    requires forall u <- uuids :: u in ByUuid(existing)
  {
    assert forall i | 0 <= i < |uuids| :: uuids[i] in uuids;
    seq(|uuids|, i requires 0 <= i < |uuids| => ByUuid(existing)[uuids[i]].(sort := i))
  }

  lemma RenumberedRow(rows: seq<Receipt>, b: int, uuids: seq<string>, updates: seq<(int, int)>, k: int, m: int)
    requires DistinctIds(rows) && DistinctUuids(rows) && NoRepeats(uuids)
    requires PlanOrder(ListByBill(rows, b), uuids) == Success(updates)
    requires 0 <= k < |uuids| && 0 <= m < |rows|
    requires uuids[k] in ByUuid(ListByBill(rows, b)) && ByUuid(ListByBill(rows, b))[uuids[k]] == rows[m]
    ensures |ApplySorts(rows, updates)| == |rows| && ApplySorts(rows, updates)[m] == rows[m].(sort := k)
  {
    ListByBillIsListing(rows, b);
    ListingDistinct(rows, ListByBill(rows, b));
    PlanFacts(ListByBill(rows, b), uuids, updates);
    PlanIds(ListByBill(rows, b), uuids, updates);
    ApplySortsAt(rows, updates);
    FinalSortOf(updates, k, rows[m].sort);
  }

  lemma RenumberedInTable(rows: seq<Receipt>, b: int, uuids: seq<string>, updates: seq<(int, int)>, k: int)
    requires DistinctIds(rows) && DistinctUuids(rows) && NoRepeats(uuids)
    requires PlanOrder(ListByBill(rows, b), uuids) == Success(updates)
    requires 0 <= k < |uuids| && uuids[k] in ByUuid(ListByBill(rows, b))
    ensures var r := ByUuid(ListByBill(rows, b))[uuids[k]].(sort := k);
            r in ApplySorts(rows, updates) && r.billId == b
  {
    var existing := ListByBill(rows, b);
    ListByBillIsListing(rows, b);
    ListingDistinct(rows, existing);
    ByUuidFinds(existing);
    var e := ByUuid(existing)[uuids[k]];
    assert e in existing;
    var m :| 0 <= m < |rows| && rows[m] == e;
    RenumberedRow(rows, b, uuids, updates, k, m);
  }

  lemma TableInRenumbered(rows: seq<Receipt>, b: int, uuids: seq<string>, updates: seq<(int, int)>, m: int)
    returns (k: int)
    requires DistinctIds(rows) && DistinctUuids(rows) && NoRepeats(uuids)
    requires PlanOrder(ListByBill(rows, b), uuids) == Success(updates)
    requires 0 <= m < |rows| && rows[m].billId == b
    ensures 0 <= k < |uuids| && uuids[k] in ByUuid(ListByBill(rows, b))
    ensures |ApplySorts(rows, updates)| == |rows|
    ensures ApplySorts(rows, updates)[m] == ByUuid(ListByBill(rows, b))[uuids[k]].(sort := k)
  {
    var existing := ListByBill(rows, b);
    ListByBillIsListing(rows, b);
    ListingDistinct(rows, existing);
    PlanFacts(existing, uuids, updates);
    ByUuidFinds(existing);
    assert rows[m] in existing;
    var n :| 0 <= n < |existing| && existing[n] == rows[m];
    assert Uuids(existing)[n] == rows[m].uuid;
    assert forall u <- uuids :: u in Uuids(existing);
    Covers(uuids, Uuids(existing));
    k :| 0 <= k < |uuids| && uuids[k] == rows[m].uuid;
    RenumberedRow(rows, b, uuids, updates, k, m);
  }

  lemma ListingByIndex(rows: seq<Receipt>, b: int, rs: seq<Receipt>)
    requires Ordered(rs)
    requires forall k | 0 <= k < |rs| :: rs[k] in rows && rs[k].billId == b
    requires forall m | 0 <= m < |rows| && rows[m].billId == b :: rows[m] in rs
    ensures IsListing(rows, b, rs)
  {
  }

  lemma AcceptedList(rows: seq<Receipt>, b: int, uuids: seq<string>, updates: seq<(int, int)>)
    requires DistinctIds(rows) && DistinctUuids(rows)
    requires PlanOrder(ListByBill(rows, b), uuids) == Success(updates)
    ensures forall u <- uuids :: u in ByUuid(ListByBill(rows, b))
  {
    ListByBillIsListing(rows, b);
    ListingDistinct(rows, ListByBill(rows, b));
    PlanFacts(ListByBill(rows, b), uuids, updates);
  }

  lemma TableRowListed(rows: seq<Receipt>, b: int, uuids: seq<string>, updates: seq<(int, int)>, m: int)
    requires DistinctIds(rows) && DistinctUuids(rows) && NoRepeats(uuids)
    requires PlanOrder(ListByBill(rows, b), uuids) == Success(updates)
    requires forall u <- uuids :: u in ByUuid(ListByBill(rows, b))
    requires 0 <= m < |ApplySorts(rows, updates)| && ApplySorts(rows, updates)[m].billId == b
    ensures ApplySorts(rows, updates)[m] in Renumbered(ListByBill(rows, b), uuids)
  {
    ApplySortsAt(rows, updates);
    var k := TableInRenumbered(rows, b, uuids, updates, m);
    assert Renumbered(ListByBill(rows, b), uuids)[k] == ApplySorts(rows, updates)[m];
  }

  lemma RenumberedUuids(existing: seq<Receipt>, uuids: seq<string>)
    requires forall u <- uuids :: u in ByUuid(existing)
    ensures Uuids(Renumbered(existing, uuids)) == uuids
  {
    ByUuidKeys(existing);
    forall i | 0 <= i < |uuids| ensures Renumbered(existing, uuids)[i].uuid == uuids[i] {
      assert uuids[i] in ByUuid(existing);
    }
  }

  lemma RenumberedIsListing(rows: seq<Receipt>, b: int, uuids: seq<string>, updates: seq<(int, int)>)
    requires DistinctIds(rows) && DistinctUuids(rows) && NoRepeats(uuids)
    requires PlanOrder(ListByBill(rows, b), uuids) == Success(updates)
    ensures forall u <- uuids :: u in ByUuid(ListByBill(rows, b))
    ensures IsListing(ApplySorts(rows, updates), b, Renumbered(ListByBill(rows, b), uuids))
    ensures Uuids(Renumbered(ListByBill(rows, b), uuids)) == uuids
  {
    var existing, after := ListByBill(rows, b), ApplySorts(rows, updates);
    AcceptedList(rows, b, uuids, updates);
    var target := Renumbered(existing, uuids);
    forall k | 0 <= k < |target| ensures target[k] in after && target[k].billId == b {
      assert uuids[k] in uuids;
      RenumberedInTable(rows, b, uuids, updates, k);
    }
    forall m | 0 <= m < |after| && after[m].billId == b ensures after[m] in target {
      TableRowListed(rows, b, uuids, updates, m);
    }
    ListingByIndex(after, b, target);
    RenumberedUuids(existing, uuids);
  }

  /** An accepted list leaves the ids, the uuids and the owners of the rows alone, and the
      listings of other bills with them. */
  lemma ReorderKeepsOthers(rows: seq<Receipt>, b: int, uuids: seq<string>, updates: seq<(int, int)>, c: int)
    requires DistinctIds(rows) && DistinctUuids(rows) && c != b
    requires PlanOrder(ListByBill(rows, b), uuids) == Success(updates)
    ensures DistinctIds(ApplySorts(rows, updates)) && DistinctUuids(ApplySorts(rows, updates))
    ensures ListByBill(ApplySorts(rows, updates), c) == ListByBill(rows, c)
  {
    var after := ApplySorts(rows, updates);
    ListByBillIsListing(rows, c);
    ApplySortsAt(rows, updates);
    forall m | 0 <= m < |rows| && rows[m].billId == c ensures after[m] == rows[m] {
      OtherRowKept(rows, b, uuids, updates, m);
    }
    ListingUnique(after, c, ListByBill(rows, c));
  }

  lemma OtherRowKept(rows: seq<Receipt>, b: int, uuids: seq<string>, updates: seq<(int, int)>, m: int)
    requires DistinctIds(rows) && DistinctUuids(rows) && 0 <= m < |rows| && rows[m].billId != b
    requires PlanOrder(ListByBill(rows, b), uuids) == Success(updates)
    ensures FinalSort(updates, rows[m].id, rows[m].sort) == rows[m].sort
  {
    var existing := ListByBill(rows, b);
    ListByBillIsListing(rows, b);
    ListingDistinct(rows, existing);
    PlanFacts(existing, uuids, updates);
    ByUuidFinds(existing);
    forall i | 0 <= i < |updates| ensures updates[i].0 != rows[m].id {
      var e := ByUuid(existing)[uuids[i]];
      assert e in existing;
      var n :| 0 <= n < |rows| && rows[n] == e;
    }
    FinalSortUntouched(updates, rows[m].id, rows[m].sort);
  }

  /** The bill's receipts end up in the order of an accepted list exactly when the list has no
      repeats. */
  lemma ReorderGivesListIff(rows: seq<Receipt>, b: int, uuids: seq<string>, updates: seq<(int, int)>)
    requires DistinctIds(rows) && DistinctUuids(rows)
    requires PlanOrder(ListByBill(rows, b), uuids) == Success(updates)
    ensures Uuids(ListByBill(ApplySorts(rows, updates), b)) == uuids <==> NoRepeats(uuids)
  {
    var after := ApplySorts(rows, updates);
    ApplySortsAt(rows, updates);
    assert DistinctIds(after) && DistinctUuids(after);
    if NoRepeats(uuids) {
      RenumberedIsListing(rows, b, uuids, updates);
      ListingUnique(after, b, Renumbered(ListByBill(rows, b), uuids));
    }
    ListByBillIsListing(after, b);
    ListingDistinct(after, ListByBill(after, b));
  }

  /** The first uuid in a list that is no receipt's. */
  predicate FirstUnknown(existing: seq<Receipt>, uuids: seq<string>, u: string) {
    exists k | 0 <= k < |uuids| ::
      uuids[k] == u && u !in Uuids(existing) && forall i | 0 <= i < k :: uuids[i] in Uuids(existing)
  }

  lemma {:induction false} ForeignIsFirst(existing: seq<Receipt>, uuids: seq<string>, u: string)
    ensures FirstForeign(ByUuid(existing), uuids) == Some(u) <==> FirstUnknown(existing, uuids, u)
  {
    if uuids != [] {
      ByUuidKeys(existing);
      var rest := uuids[1..];
      ForeignIsFirst(existing, rest, u);
      if FirstUnknown(existing, rest, u) && uuids[0] in Uuids(existing) {
        var k :| 0 <= k < |rest| && rest[k] == u && u !in Uuids(existing) && forall i | 0 <= i < k :: rest[i] in Uuids(existing);
        assert uuids[k + 1] == u;
        assert forall i | 0 <= i < k + 1 :: uuids[i] == if i == 0 then uuids[0] else rest[i - 1];
      }
      if FirstUnknown(existing, uuids, u) && uuids[0] in Uuids(existing) {
        var k :| 0 <= k < |uuids| && uuids[k] == u && u !in Uuids(existing) && forall i | 0 <= i < k :: uuids[i] in Uuids(existing);
        assert rest[k - 1] == u;
        assert forall i | 0 <= i < k - 1 :: rest[i] == uuids[i + 1];
      }
    }
  }

  /** Why a list is refused: for the first uuid that is no receipt's, or else for its length. */
  lemma OrderRefusals(existing: seq<Receipt>, uuids: seq<string>, u: string)
    ensures PlanOrder(existing, uuids) == Failure(Foreign(u)) <==> FirstUnknown(existing, uuids, u)
    ensures PlanOrder(existing, uuids) == Failure(Incomplete)
       <==> (forall v <- uuids :: v in Uuids(existing)) && |uuids| != |existing|
  {
    ForeignIsFirst(existing, uuids, u);
    ByUuidKeys(existing);
  }

  /** Among lists without repeats, exactly the permutations of the bill's receipts are accepted. */
  lemma AcceptsExactlyPermutations(existing: seq<Receipt>, uuids: seq<string>)
    requires DistinctUuids(existing) && NoRepeats(uuids)
    ensures PlanOrder(existing, uuids).Success? <==> multiset(uuids) == multiset(Uuids(existing))
  {
    var all := Uuids(existing);
    ByUuidFinds(existing);
    assert NoRepeats(all);
    if PlanOrder(existing, uuids).Success? {
      forall u | u in uuids ensures u in all {
        assert u in ByUuid(existing);
      }
      Covers(uuids, all);
      forall u: string ensures multiset(uuids)[u] == multiset(all)[u] {
        CountNoRepeats(uuids, u);
        CountNoRepeats(all, u);
      }
      assert multiset(uuids) == multiset(all);
    }
    if multiset(uuids) == multiset(all) {
      assert |uuids| == |multiset(uuids)| == |multiset(all)| == |all|;
      forall u | u in uuids ensures u in ByUuid(existing) {
        assert u in multiset(uuids);
      }
    }
  }

  lemma {:induction false} CountNoRepeats(s: seq<string>, u: string)
    requires NoRepeats(s)
    ensures multiset(s)[u] == if u in s then 1 else 0
  {
    if s != [] {
      CountNoRepeats(s[..|s| - 1], u);
      assert s == s[..|s| - 1] + [s[|s| - 1]];
    }
  }

  /** A list that repeats one uuid and has the right length passes both checks: of two
      receipts "a" and "b", the list "a", "a" is accepted. */
  lemma RepeatAccepted(a: Receipt, b: Receipt)
    requires a.uuid == "a" && b.uuid == "b"
    ensures PlanOrder([a, b], ["a", "a"]) == Success([(a.id, 0), (a.id, 1)])
  {
    var index := ByUuid([a, b]);
    assert [a, b][..1] == [a] && [a][..0] == [];
    assert index == ByUuid([a])["b" := b];
    assert "a" in index && index["a"] == a;
    assert forall u <- ["a", "a"] :: u in index;
    assert PlanOrder([a, b], ["a", "a"]).value == [(a.id, 0), (a.id, 1)];
  }
}
