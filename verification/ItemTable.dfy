/** The child tables of rentivo/repositories/sqlalchemy.py (lines of bills, items of billings):
    rewriting a parent's rows, reading them in order, and the batched reading of many parents.

    A query is the set of rows it selects and its ORDER BY; the order among rows with the same
    sort order is the database's choice, so a query has many possible results. */
module ItemTable {

  datatype ItemType = Fixed | Variable | Extra

  /** A line of a bill, or an item of a billing; the amount is in centavos. */
  datatype Item = Item(description: string, amount: int, kind: ItemType)

  datatype Row = Row(id: int, parent: int, sort: int, item: Item)

  /** The rows of one parent, in table order. */
  function OfParent(rows: seq<Row>, p: int): seq<Row> {
    if rows == [] then []
    else
      var last := rows[|rows| - 1];
      if last.parent == p then OfParent(rows[..|rows| - 1], p) + [last] else OfParent(rows[..|rows| - 1], p)
  }

  /** The rows of some parents, in table order. */
  function Among(rows: seq<Row>, ps: set<int>): seq<Row> {
    if rows == [] then []
    else
      var last := rows[|rows| - 1];
      if last.parent in ps then Among(rows[..|rows| - 1], ps) + [last] else Among(rows[..|rows| - 1], ps)
  }

  function WithoutParent(rows: seq<Row>, p: int): seq<Row> {
    if rows == [] then []
    else
      var last := rows[|rows| - 1];
      if last.parent != p then WithoutParent(rows[..|rows| - 1], p) + [last] else WithoutParent(rows[..|rows| - 1], p)
  }

  function NewRows(p: int, nextId: int, items: seq<Item>): seq<Row> {
    seq(|items|, i requires 0 <= i < |items| => Row(nextId + i, p, i, items[i]))
  }

  /** The table after a parent's rows are deleted and inserted again from a list. */
  function Rewrite(rows: seq<Row>, p: int, nextId: int, items: seq<Item>): seq<Row> {
    WithoutParent(rows, p) + NewRows(p, nextId, items)
  }

  function Items(rows: seq<Row>): seq<Item> {
    seq(|rows|, i requires 0 <= i < |rows| => rows[i].item)
  }

  /** The sort orders of a parent's rows are 0, 1, 2, ... in table order. */
  ghost predicate Numbered(rows: seq<Row>) {
    forall i | 0 <= i < |rows| :: rows[i].sort == i
  }

  ghost predicate WellNumbered(rows: seq<Row>) {
    forall p: int :: Numbered(OfParent(rows, p))
  }

  ghost predicate Sorted(rows: seq<Row>) {
    forall i, j | 0 <= i < j < |rows| :: rows[i].sort <= rows[j].sort
  }

  /** SELECT * WHERE parent IN ps ORDER BY sort_order. */
  ghost predicate IsQueryResult(rows: seq<Row>, ps: set<int>, result: seq<Row>) {
    multiset(result) == multiset(Among(rows, ps)) && Sorted(result)
  }

  // ---- Rewriting ----

  lemma {:induction false} OfParentConcat(a: seq<Row>, b: seq<Row>, p: int)
    ensures OfParent(a + b, p) == OfParent(a, p) + OfParent(b, p)
  {
    if b == [] {
      assert a + b == a;
    } else {
      assert (a + b)[..|a + b| - 1] == a + b[..|b| - 1];
      OfParentConcat(a, b[..|b| - 1], p);
    }
  }

  lemma OfParentSnoc(rows: seq<Row>, last: Row, p: int)
    ensures OfParent(rows + [last], p) == if last.parent == p then OfParent(rows, p) + [last] else OfParent(rows, p)
  {
    assert (rows + [last])[..|rows|] == rows;
  }

  lemma {:induction false} OfParentWithout(rows: seq<Row>, p: int, q: int)
    ensures OfParent(WithoutParent(rows, p), q) == if p == q then [] else OfParent(rows, q)
  {
    if rows != [] {
      var front, last := rows[..|rows| - 1], rows[|rows| - 1];
      OfParentWithout(front, p, q);
      if last.parent != p {
        OfParentSnoc(WithoutParent(front, p), last, q);
      }
    }
  }

  lemma {:induction false} OfParentOwn(rows: seq<Row>, p: int)
    requires forall i | 0 <= i < |rows| :: rows[i].parent == p
    ensures OfParent(rows, p) == rows
  {
    if rows != [] {
      OfParentOwn(rows[..|rows| - 1], p);
    }
  }

  lemma {:induction false} OfParentOther(rows: seq<Row>, p: int)
    requires forall i | 0 <= i < |rows| :: rows[i].parent != p
    ensures OfParent(rows, p) == []
  {
    if rows != [] {
      OfParentOther(rows[..|rows| - 1], p);
    }
  }

  lemma OfParentRewrite(rows: seq<Row>, p: int, nextId: int, items: seq<Item>, q: int)
    ensures OfParent(Rewrite(rows, p, nextId, items), q) ==
            if p == q then NewRows(p, nextId, items) else OfParent(rows, q)
  {
    OfParentConcat(WithoutParent(rows, p), NewRows(p, nextId, items), q);
    OfParentWithout(rows, p, q);
    if p == q {
      OfParentOwn(NewRows(p, nextId, items), q);
    } else {
      OfParentOther(NewRows(p, nextId, items), q);
    }
  }

  /** After a rewrite the parent has exactly the listed items in the listed order, every other
      parent has what it had, and the sort orders still determine the order. */
  lemma RewriteKeepsOrder(rows: seq<Row>, p: int, nextId: int, items: seq<Item>)
    requires WellNumbered(rows)
    ensures WellNumbered(Rewrite(rows, p, nextId, items))
    ensures Items(OfParent(Rewrite(rows, p, nextId, items), p)) == items
    ensures forall q: int | q != p :: OfParent(Rewrite(rows, p, nextId, items), q) == OfParent(rows, q)
  {
    forall q: int
      ensures Numbered(OfParent(Rewrite(rows, p, nextId, items), q))
      ensures q != p ==> OfParent(Rewrite(rows, p, nextId, items), q) == OfParent(rows, q)
    {
      OfParentRewrite(rows, p, nextId, items, q);
    }
    OfParentRewrite(rows, p, nextId, items, p);
  }

  // ---- Queries ----

  lemma {:induction false} OfParentCount(rows: seq<Row>, p: int, r: Row)
    ensures multiset(OfParent(rows, p))[r] == if r.parent == p then multiset(rows)[r] else 0
  {
    if rows != [] {
      var front, last := rows[..|rows| - 1], rows[|rows| - 1];
      OfParentCount(front, p, r);
      assert rows == front + [last];
    }
  }

  lemma OfParentPermutes(a: seq<Row>, b: seq<Row>, p: int)
    requires multiset(a) == multiset(b)
    ensures multiset(OfParent(a, p)) == multiset(OfParent(b, p))
  {
    var ma, mb := multiset(OfParent(a, p)), multiset(OfParent(b, p));
    forall r: Row ensures ma[r] == mb[r] {
      OfParentCount(a, p, r);
      OfParentCount(b, p, r);
    }
    assert ma == mb;
  }

  lemma {:induction false} OfParentSorted(rows: seq<Row>, p: int)
    requires Sorted(rows)
    ensures Sorted(OfParent(rows, p))
    ensures forall r <- OfParent(rows, p) :: r in rows
  {
    if rows != [] {
      var front := rows[..|rows| - 1];
      OfParentSorted(front, p);
      forall r | r in OfParent(front, p) ensures r.sort <= rows[|rows| - 1].sort {
        var i :| 0 <= i < |front| && front[i] == r;
      }
    }
  }

  lemma {:induction false} OfParentAmong(rows: seq<Row>, ps: set<int>, p: int)
    requires p in ps
    ensures OfParent(Among(rows, ps), p) == OfParent(rows, p)
  {
    if rows != [] {
      var front, last := rows[..|rows| - 1], rows[|rows| - 1];
      OfParentAmong(front, ps, p);
      if last.parent in ps {
        OfParentSnoc(Among(front, ps), last, p);
      }
    }
  }

  /** A numbered list has only one sorted arrangement. */
  lemma {:induction false} SortedArrangementUnique(a: seq<Row>, b: seq<Row>)
    requires Numbered(a) && Sorted(b) && multiset(a) == multiset(b)
    ensures a == b
  {
    SameSize(a, b);
    if a != [] {
      var n := |a|;
      LastIsLargest(a, b);
      DropLast(a);
      DropLast(b);
      SortedArrangementUnique(a[..n - 1], b[..n - 1]);
    }
  }

  lemma DropLast(a: seq<Row>)
    requires a != []
    ensures multiset(a[..|a| - 1]) == multiset(a) - multiset{a[|a| - 1]}
  {
    assert a == a[..|a| - 1] + [a[|a| - 1]];
  }

  lemma SameSize(a: seq<Row>, b: seq<Row>)
    requires multiset(a) == multiset(b)
    ensures |a| == |b|
  {
    assert |multiset(a)| == |a| && |multiset(b)| == |b|;
  }

  lemma SameMembers(a: seq<Row>, b: seq<Row>, x: Row)
    requires multiset(a) == multiset(b) && x in a
    ensures x in b
  {
    assert x in multiset(a);
  }

  lemma LastIsLargest(a: seq<Row>, b: seq<Row>)
    requires |a| == |b| > 0
    requires Numbered(a) && Sorted(b) && multiset(a) == multiset(b)
    ensures a[|a| - 1] == b[|b| - 1]
  {
    var n := |a|;
    SameMembers(a, b, a[n - 1]);
    var j :| 0 <= j < n && b[j] == a[n - 1];
    SameMembers(b, a, b[n - 1]);
    var k :| 0 <= k < n && a[k] == b[n - 1];
    assert b[j].sort <= b[n - 1].sort;
  }

  /** The query of one parent has one possible result: its rows in order. */
  lemma OwnQueryUnique(rows: seq<Row>, p: int, own: seq<Row>)
    requires WellNumbered(rows) && IsQueryResult(rows, {p}, own)
    ensures own == OfParent(rows, p)
  {
    AmongOne(rows, p);
    SortedArrangementUnique(OfParent(rows, p), own);
  }

  lemma {:induction false} AmongOne(rows: seq<Row>, p: int)
    ensures Among(rows, {p}) == OfParent(rows, p)
  {
    if rows != [] {
      AmongOne(rows[..|rows| - 1], p);
    }
  }

  /** Whatever order the database gives to the rows of different parents, picking one parent's
      rows out of the batched query gives what that parent's own query gives. */
  lemma BatchedQueryRefinesOwn(rows: seq<Row>, ps: set<int>, all: seq<Row>, p: int, own: seq<Row>)
    requires WellNumbered(rows) && p in ps
    requires IsQueryResult(rows, ps, all) && IsQueryResult(rows, {p}, own)
    ensures OfParent(all, p) == own
  {
    OwnQueryUnique(rows, p, own);
    OfParentPermutes(all, Among(rows, ps), p);
    OfParentAmong(rows, ps, p);
    OfParentSorted(all, p);
    SortedArrangementUnique(OfParent(rows, p), OfParent(all, p));
  }

  // ---- The batched listing ----

  function Lookup(groups: map<int, seq<Row>>, p: int): seq<Row> {
    if p in groups then groups[p] else []
  }

  /** The dictionary that the listing fills row by row. */
  method GroupByParent(all: seq<Row>) returns (groups: map<int, seq<Row>>)
    ensures forall p: int :: Lookup(groups, p) == OfParent(all, p)
  {
    groups := map[];
    for i := 0 to |all|
      invariant forall p: int :: Lookup(groups, p) == OfParent(all[..i], p)
    {
      var row := all[i];
      ghost var before := groups;
      if row.parent !in groups {
        groups := groups[row.parent := []];
      }
      groups := groups[row.parent := groups[row.parent] + [row]];
      forall p: int ensures Lookup(groups, p) == OfParent(all[..i + 1], p) {
        OfParentSnoc(all[..i], row, p);
        assert all[..i + 1] == all[..i] + [row];
        assert Lookup(before, p) == OfParent(all[..i], p);
      }
    }
    assert all[..|all|] == all;
  }

  /** The items of each listed parent, from one query for all of them. */
  method ListBatched(rows: seq<Row>, parents: seq<int>, all: seq<Row>)
    returns (lists: seq<seq<Item>>)
    requires WellNumbered(rows)
    requires IsQueryResult(rows, (set p <- parents), all)
    ensures |lists| == |parents|
    ensures forall i | 0 <= i < |parents| :: lists[i] == Items(OfParent(rows, parents[i]))
  {
    if parents == [] {
      return [];
    }
    var groups := GroupByParent(all);
    lists := [];
    for i := 0 to |parents|
      invariant |lists| == i
      invariant forall k | 0 <= k < i :: lists[k] == Items(OfParent(rows, parents[k]))
    {
      var p := parents[i];
      assert Lookup(groups, p) == OfParent(rows, p) by {
        OwnResultExists(rows, p);
        BatchedQueryRefinesOwn(rows, (set q <- parents), all, p, OfParent(rows, p));
      }
      lists := lists + [Items(Lookup(groups, p))];
    }
  }

  lemma OwnResultExists(rows: seq<Row>, p: int)
    requires WellNumbered(rows)
    ensures IsQueryResult(rows, {p}, OfParent(rows, p))
  {
    AmongOne(rows, p);
    assert Numbered(OfParent(rows, p));
  }
}
