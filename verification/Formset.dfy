/** Dynamic form rows: the page of web/static/core/js/formset.js, which adds and removes rows, and
    the server's web/forms.py, which reads the submitted rows. */
module Formset {
  import opened Numerals
  import opened Texts
  import opened Wrappers

  type Form = map<string, string>

  type Fields = map<string, string>

  // ---- The server ----

  predicate StartsWith(s: string, p: string) {
    |p| <= |s| && s[..|p|] == p
  }

  function TotalKey(prefix: string): string {
    prefix + "-TOTAL_FORMS"
  }

  function RowPrefix(prefix: string, i: nat): string {
    prefix + "-" + Numeral(i, 10) + "-"
  }

  /** The integer that a text stands for: a sign, if any, and digits. */
  function ParseInt(s: string): Option<int> {
    var digits := if s != "" && (s[0] == '-' || s[0] == '+') then s[1..] else s;
    if digits == "" || !AllDigits(digits, 10) then None
    else
      var n: int := Value(digits, 10);
      Some(if s[0] == '-' then -n else n)
  }

  /** The number of rows to look for; 0 when it cannot be read. */
  function Total(form: Form, prefix: string): int {
    match ParseInt(if TotalKey(prefix) in form then form[TotalKey(prefix)] else "0")
    case Some(n) => n
    case None => 0
  }

  lemma SameKey(a: string, b: string, p: string)
    requires StartsWith(a, p) && StartsWith(b, p) && a[|p|..] == b[|p|..]
    ensures a == b
  {
    assert a == a[..|p|] + a[|p|..] && b == b[..|p|] + b[|p|..];
  }

  lemma SameKeys(keys: set<string>, p: string)
    ensures forall a, b | a in keys && b in keys && StartsWith(a, p) && StartsWith(b, p) && a[|p|..] == b[|p|..] :: a == b
  {
    forall a, b | a in keys && b in keys && StartsWith(a, p) && StartsWith(b, p) && a[|p|..] == b[|p|..] ensures a == b {
      SameKey(a, b, p);
    }
  }

  /** The entries under some keys that start with p, by the rest of their keys. */
  function Entries(form: Form, keys: set<string>, p: string): Fields
    requires keys <= form.Keys
  {
    SameKeys(keys, p);
    map k | k in keys && StartsWith(k, p) :: k[|p|..] := form[k]
  }

  /** The rows that are not empty among the first n. */
  function Rows(form: Form, prefix: string, n: nat): seq<Fields> {
    if n == 0 then []
    else
      var row := Entries(form, form.Keys, RowPrefix(prefix, n - 1));
      if row != map[] then Rows(form, prefix, n - 1) + [row] else Rows(form, prefix, n - 1)
  }

  function Parsed(form: Form, prefix: string): seq<Fields> {
    if Total(form, prefix) <= 0 then [] else Rows(form, prefix, Total(form, prefix))
  }

  lemma RowsNext(form: Form, prefix: string, n: nat)
    ensures var row := Entries(form, form.Keys, RowPrefix(prefix, n));
            Rows(form, prefix, n + 1) == Rows(form, prefix, n) + if row != map[] then [row] else []
  {
  }

  method ReadRow(form: Form, p: string) returns (row: Fields)
    ensures row == Entries(form, form.Keys, p)
  {
    row := map[];
    var left := form.Keys;
    while left != {}
      invariant left <= form.Keys && row == Entries(form, form.Keys - left, p)
      decreases left
    {
      var key :| key in left;
      ghost var done := form.Keys - left;
      SameKeys(form.Keys, p);
      if StartsWith(key, p) {
        row := row[key[|p|..] := form[key]];
      }
      left := left - {key};
      assert form.Keys - left == done + {key};
    }
    assert form.Keys - left == form.Keys;
  }

  method ParseFormset(form: Form, prefix: string) returns (rows: seq<Fields>)
    ensures rows == Parsed(form, prefix)
  {
    var text := if TotalKey(prefix) in form then form[TotalKey(prefix)] else "0";
    var parsed := ParseInt(text);
    var total := if parsed.Some? then parsed.value else 0;
    rows := [];
    if total > 0 {
      for i := 0 to total
        invariant rows == Rows(form, prefix, i)
      {
        var row := ReadRow(form, RowPrefix(prefix, i));
        RowsNext(form, prefix, i);
        if row != map[] {
          rows := rows + [row];
        }
      }
    }
  }

  lemma NumeralParses(n: nat)
    ensures ParseInt(Numeral(n, 10)) == Some(n)
  {
    var s := Numeral(n, 10);
    ValueOfNumeral(n, 10);
    assert s[0] in s;
  }

  /** Integers are also read with a sign. */
  lemma SignedInteger(n: nat)
    ensures ParseInt("+" + Numeral(n, 10)) == Some(n)
    ensures ParseInt("-" + Numeral(n, 10)).Some? && ParseInt("-" + Numeral(n, 10)).value + n == 0
  {
    var s := Numeral(n, 10);
    ValueOfNumeral(n, 10);
    assert ("+" + s)[1..] == s && ("-" + s)[1..] == s;
  }

  /** A total that is negative or no number gives no rows. */
  lemma NoRows(form: Form, prefix: string, n: nat)
    ensures TotalKey(prefix) in form && form[TotalKey(prefix)] == "-" + Numeral(n, 10) ==> Parsed(form, prefix) == []
    ensures TotalKey(prefix) in form && ParseInt(form[TotalKey(prefix)]).None? ==> Parsed(form, prefix) == []
    ensures TotalKey(prefix) !in form ==> Parsed(form, prefix) == []
  {
    SignedInteger(n);
    NumeralParses(0);
    assert Numeral(0, 10) == "0";
  }

  // ---- The page ----

  datatype PageRow = PageRow(index: nat, fields: Fields)

  datatype PageState = PageState(total: nat, rows: seq<PageRow>)

  function Added(p: PageState, template: Fields): PageState {
    PageState(p.total + 1, p.rows + [PageRow(p.total, template)])
  }

  function WithoutIndex(rows: seq<PageRow>, index: nat): seq<PageRow> {
    if rows == [] then []
    else if rows[|rows| - 1].index == index then WithoutIndex(rows[..|rows| - 1], index)
    else WithoutIndex(rows[..|rows| - 1], index) + [rows[|rows| - 1]]
  }

  function SetFields(rows: seq<PageRow>, index: nat, fields: Fields): seq<PageRow> {
    seq(|rows|, i requires 0 <= i < |rows| => if rows[i].index == index then rows[i].(fields := fields) else rows[i])
  }

  class Page {
    var total: nat
    var rows: seq<PageRow>

    /** A page that the server renders with the given rows. */
    constructor (initial: seq<Fields>)
      ensures View() == Rendered(initial)
    {
      total := |initial|;
      rows := Rendered(initial).rows;
    }

    function View(): PageState
      reads this
    {
      PageState(total, rows)
    }

    method AddRow(template: Fields)
      modifies this
      ensures View() == Added(old(View()), template)
    {
      rows := rows + [PageRow(total, template)];
      total := total + 1;
    }

    /** Removes the element whose id carries the index, the first one if there were several. */
    method RemoveRow(index: nat)
      requires Distinct(rows)
      modifies this`rows
      ensures View() == PageState(old(total), WithoutIndex(old(rows), index))
    {
      for i := 0 to |rows|
        invariant rows == old(rows) && forall k | 0 <= k < i :: rows[k].index != index
      {
        if rows[i].index == index {
          RemoveAt(rows, i);
          rows := rows[..i] + rows[i + 1..];
          return;
        }
      }
      RemoveNone(rows, index);
    }
  }

  function Rendered(initial: seq<Fields>): PageState {
    PageState(|initial|, seq(|initial|, i requires 0 <= i < |initial| => PageRow(i, initial[i])))
  }

  datatype Op = Add(template: Fields) | Remove(index: nat) | Edit(index: nat, fields: Fields)

  function Step(p: PageState, op: Op): PageState {
    match op
    case Add(template) => Added(p, template)
    case Remove(index) => p.(rows := WithoutIndex(p.rows, index))
    case Edit(index, fields) => p.(rows := SetFields(p.rows, index, fields))
  }

  function Run(initial: seq<Fields>, ops: seq<Op>): PageState {
    if ops == [] then Rendered(initial) else Step(Run(initial, ops[..|ops| - 1]), ops[|ops| - 1])
  }

  /** A new row is last, with the old total as index and the template's fields. */
  lemma AddedLast(p: PageState, template: Fields, index: nat, fields: Fields, i: nat)
    requires i < |p.rows|
    ensures var after := Step(p, Add(template));
            && after.total == p.total + 1 && |after.rows| == |p.rows| + 1
            && after.rows[i] == p.rows[i] && after.rows[|p.rows|] == PageRow(p.total, template)
    ensures var after := Step(p, Edit(index, fields));
            && after.total == p.total && |after.rows| == |p.rows|
            && after.rows[i] == if p.rows[i].index == index then PageRow(index, fields) else p.rows[i]
  {
  }

  /** The row with the index goes, and no other; the total stays. */
  lemma {:induction false} RemovedOnly(p: PageState, index: nat, row: PageRow)
    ensures var after := Step(p, Remove(index));
            && after.total == p.total && (row in after.rows <==> row in p.rows && row.index != index)
    decreases |p.rows|
  {
    if p.rows != [] {
      RemovedOnly(p.(rows := p.rows[..|p.rows| - 1]), index, row);
      assert p.rows == p.rows[..|p.rows| - 1] + [p.rows[|p.rows| - 1]];
    }
  }

  /** Every index that a row was ever given. */
  function Given(initial: seq<Fields>, ops: seq<Op>): seq<nat> {
    if ops == [] then seq(|initial|, i => i)
    else
      Given(initial, ops[..|ops| - 1])
      + if ops[|ops| - 1].Add? then [Run(initial, ops[..|ops| - 1]).total] else []
  }

  ghost predicate Distinct(rows: seq<PageRow>) {
    forall i, j | 0 <= i < j < |rows| :: rows[i].index != rows[j].index
  }

  /** The rows stand in the order of their indices, all below the total. */
  ghost predicate InOrder(p: PageState) {
    && (forall i, j | 0 <= i < j < |p.rows| :: p.rows[i].index < p.rows[j].index)
    && (forall i | 0 <= i < |p.rows| :: p.rows[i].index < p.total)
  }

  lemma {:induction false} RemoveNone(rows: seq<PageRow>, index: nat)
    requires forall k | 0 <= k < |rows| :: rows[k].index != index
    ensures WithoutIndex(rows, index) == rows
  {
    if rows != [] {
      RemoveNone(rows[..|rows| - 1], index);
    }
  }

  lemma {:induction false} RemoveAt(rows: seq<PageRow>, i: nat)
    requires Distinct(rows) && i < |rows|
    ensures WithoutIndex(rows, rows[i].index) == rows[..i] + rows[i + 1..]
  {
    var front, last := rows[..|rows| - 1], rows[|rows| - 1];
    if i == |rows| - 1 {
      RemoveNone(front, last.index);
    } else {
      RemoveAt(front, i);
      assert rows[..i] == front[..i] && rows[i + 1..] == front[i + 1..] + [last];
    }
  }

  lemma {:induction false} WithoutInOrder(rows: seq<PageRow>, index: nat, total: nat)
    requires InOrder(PageState(total, rows))
    ensures InOrder(PageState(total, WithoutIndex(rows, index)))
    ensures rows != [] ==> InOrder(PageState(rows[|rows| - 1].index + 1, WithoutIndex(rows, index)))
  {
    if rows != [] {
      var front, last := rows[..|rows| - 1], rows[|rows| - 1];
      WithoutInOrder(front, index, last.index);
    }
  }

  lemma {:induction false} RunInOrder(initial: seq<Fields>, ops: seq<Op>)
    ensures InOrder(Run(initial, ops))
  {
    if ops != [] {
      var before := Run(initial, ops[..|ops| - 1]);
      RunInOrder(initial, ops[..|ops| - 1]);
      if ops[|ops| - 1].Remove? {
        WithoutInOrder(before.rows, ops[|ops| - 1].index, before.total);
      }
    }
  }

  /** Whatever is added and removed, the indices given are 0, 1, 2, and so on: none is given
      twice, not even after its row was removed. */
  lemma {:induction false} IndicesNeverReused(initial: seq<Fields>, ops: seq<Op>)
    ensures Given(initial, ops) == seq(Run(initial, ops).total, i => i)
  {
    if ops != [] {
      IndicesNeverReused(initial, ops[..|ops| - 1]);
    }
  }

  // ---- Submitting ----

  /** The entries that one row submits. */
  function RowEntries(prefix: string, row: PageRow): Form {
    FieldKeysDiffer(prefix, row.index);
    map f | f in row.fields :: RowPrefix(prefix, row.index) + f := row.fields[f]
  }

  lemma FieldKeysDiffer(prefix: string, i: nat)
    ensures forall f: string, g: string :: RowPrefix(prefix, i) + f == RowPrefix(prefix, i) + g ==> f == g
  {
    var p := RowPrefix(prefix, i);
    forall f: string, g: string | p + f == p + g ensures f == g {
      assert f == (p + f)[|p|..] && g == (p + g)[|p|..];
    }
  }

  function AllEntries(prefix: string, rows: seq<PageRow>): Form {
    if rows == [] then map[] else AllEntries(prefix, rows[..|rows| - 1]) + RowEntries(prefix, rows[|rows| - 1])
  }

  /** The entries of the formset: its rows and its total. */
  function Own(p: PageState, prefix: string): Form {
    AllEntries(prefix, p.rows)[TotalKey(prefix) := Numeral(p.total, 10)]
  }

  /** What the browser sends: the formset and whatever else is on the page. */
  function Submitted(p: PageState, prefix: string, others: Form): Form {
    others + Own(p, prefix)
  }

  /** The rest of the page uses no key of this formset. */
  predicate Foreign(others: Form, prefix: string) {
    forall k <- others :: !StartsWith(k, prefix + "-")
  }

  lemma DigitsHaveNoDash(a: string)
    requires AllDigits(a, 10)
    ensures '-' !in a
  {
  }

  lemma FirstDash(a: string, f: string, b: string, g: string)
    requires '-' !in a && '-' !in b && a + "-" + f == b + "-" + g
    ensures a == b && f == g
  {
    var s := a + "-" + f;
    IndexOfAfter(a, '-', f);
    IndexOfAfter(b, '-', g);
    assert a == s[..|a|] && b == s[..|a|];
    assert f == s[|a| + 1..] && g == s[|a| + 1..];
  }

  /** A key belongs to one row and one field: row 1 never reads the fields of row 10. */
  lemma KeyInjective(prefix: string, i: nat, f: string, j: nat, g: string)
    requires RowPrefix(prefix, i) + f == RowPrefix(prefix, j) + g
    ensures i == j && f == g
  {
    var a, b := Numeral(i, 10), Numeral(j, 10);
    var s, t := RowPrefix(prefix, i) + f, RowPrefix(prefix, j) + g;
    assert s == (prefix + "-") + (a + "-" + f) && t == (prefix + "-") + (b + "-" + g);
    assert a + "-" + f == s[|prefix| + 1..] && b + "-" + g == t[|prefix| + 1..];
    DigitsHaveNoDash(a);
    DigitsHaveNoDash(b);
    FirstDash(a, f, b, g);
    NumeralInjective(i, j, 10);
  }

  lemma TotalKeyIsNoRow(prefix: string, i: nat, f: string)
    ensures TotalKey(prefix) != RowPrefix(prefix, i) + f
  {
    var a := Numeral(i, 10);
    assert (RowPrefix(prefix, i) + f)[|prefix| + 1] == a[0] && a[0] in a;
    assert TotalKey(prefix)[|prefix| + 1] == 'T';
  }

  lemma RowKeyStarts(prefix: string, i: nat, f: string)
    ensures StartsWith(RowPrefix(prefix, i) + f, prefix + "-")
    ensures StartsWith(RowPrefix(prefix, i) + f, RowPrefix(prefix, i))
    ensures (RowPrefix(prefix, i) + f)[|RowPrefix(prefix, i)|..] == f
  {
    assert (RowPrefix(prefix, i) + f)[..|prefix| + 1] == prefix + "-";
  }

  lemma KeySplit(k: string, p: string)
    requires StartsWith(k, p)
    ensures k == p + k[|p|..]
  {
  }

  /** The fields of the row with an index; none if there is no such row. */
  function FieldsAt(rows: seq<PageRow>, index: nat): Fields {
    if rows == [] then map[]
    else if rows[|rows| - 1].index == index then rows[|rows| - 1].fields
    else FieldsAt(rows[..|rows| - 1], index)
  }

  lemma RowEntryIff(prefix: string, row: PageRow, i: nat, f: string)
    ensures RowPrefix(prefix, i) + f in RowEntries(prefix, row) <==> row.index == i && f in row.fields
    ensures row.index == i && f in row.fields ==> RowEntries(prefix, row)[RowPrefix(prefix, i) + f] == row.fields[f]
  {
    var k := RowPrefix(prefix, i) + f;
    if k in RowEntries(prefix, row) {
      var g :| g in row.fields && RowPrefix(prefix, row.index) + g == k;
      KeyInjective(prefix, row.index, g, i, f);
    }
    FieldKeysDiffer(prefix, row.index);
  }

  lemma {:induction false} EntryIff(prefix: string, rows: seq<PageRow>, i: nat, f: string)
    requires Distinct(rows)
    ensures RowPrefix(prefix, i) + f in AllEntries(prefix, rows) <==> f in FieldsAt(rows, i)
    ensures f in FieldsAt(rows, i) ==> AllEntries(prefix, rows)[RowPrefix(prefix, i) + f] == FieldsAt(rows, i)[f]
  {
    if rows != [] {
      var front, last := rows[..|rows| - 1], rows[|rows| - 1];
      EntryIff(prefix, front, i, f);
      RowEntryIff(prefix, last, i, f);
      if last.index == i {
        NoFieldsAt(front, i);
      }
    }
  }

  lemma {:induction false} NoFieldsAt(rows: seq<PageRow>, index: nat)
    requires forall k | 0 <= k < |rows| :: rows[k].index != index
    ensures FieldsAt(rows, index) == map[]
  {
    if rows != [] {
      NoFieldsAt(rows[..|rows| - 1], index);
    }
  }

  lemma {:induction false} EntriesStart(prefix: string, rows: seq<PageRow>, k: string)
    requires k in AllEntries(prefix, rows)
    ensures exists i: nat, f: string :: k == RowPrefix(prefix, i) + f
  {
    var last := rows[|rows| - 1];
    if k in RowEntries(prefix, last) {
      var f :| f in last.fields && RowPrefix(prefix, last.index) + f == k;
      assert k == RowPrefix(prefix, last.index) + f;
    } else {
      EntriesStart(prefix, rows[..|rows| - 1], k);
    }
  }

  lemma SubmittedEntry(p: PageState, prefix: string, others: Form, i: nat, f: string)
    requires Distinct(p.rows) && Foreign(others, prefix)
    ensures RowPrefix(prefix, i) + f in Submitted(p, prefix, others) <==> f in FieldsAt(p.rows, i)
    ensures f in FieldsAt(p.rows, i) ==> Submitted(p, prefix, others)[RowPrefix(prefix, i) + f] == FieldsAt(p.rows, i)[f]
  {
    EntryIff(prefix, p.rows, i, f);
    TotalKeyIsNoRow(prefix, i, f);
    RowKeyStarts(prefix, i, f);
  }

  lemma FieldReadBack(p: PageState, prefix: string, others: Form, i: nat, f: string)
    requires Distinct(p.rows) && Foreign(others, prefix)
    ensures var form := Submitted(p, prefix, others); var row := Entries(form, form.Keys, RowPrefix(prefix, i));
            (f in row <==> f in FieldsAt(p.rows, i)) && (f in row ==> row[f] == FieldsAt(p.rows, i)[f])
  {
    var form, rp := Submitted(p, prefix, others), RowPrefix(prefix, i);
    SubmittedEntry(p, prefix, others, i, f);
    RowKeyStarts(prefix, i, f);
    EntryAt(form, form.Keys, rp, f);
  }

  lemma EntryAt(form: Form, keys: set<string>, p: string, f: string)
    requires keys <= form.Keys && StartsWith(p + f, p) && (p + f)[|p|..] == f
    ensures f in Entries(form, keys, p) <==> p + f in keys
    ensures f in Entries(form, keys, p) ==> Entries(form, keys, p)[f] == form[p + f]
  {
    SameKeys(keys, p);
    if f in Entries(form, keys, p) {
      var k :| k in keys && StartsWith(k, p) && k[|p|..] == f;
      KeySplit(k, p);
    }
  }

  ghost predicate SameAt(a: Fields, b: Fields, f: string) {
    (f in a <==> f in b) && (f in a ==> a[f] == b[f])
  }

  lemma SameMap(a: Fields, b: Fields)
    requires forall f: string :: SameAt(a, b, f)
    ensures a == b
  {
    assert forall f: string :: SameAt(a, b, f) ==> (f in a <==> f in b);
    assert a.Keys == b.Keys;
    assert forall f <- a :: SameAt(a, b, f);
  }

  /** The server finds in each row exactly the fields that the page's row with that index had. */
  lemma RowReadBack(p: PageState, prefix: string, others: Form, i: nat)
    requires Distinct(p.rows) && Foreign(others, prefix)
    ensures var form := Submitted(p, prefix, others);
            Entries(form, form.Keys, RowPrefix(prefix, i)) == FieldsAt(p.rows, i)
  {
    var form := Submitted(p, prefix, others);
    var row, fields := Entries(form, form.Keys, RowPrefix(prefix, i)), FieldsAt(p.rows, i);
    forall f: string ensures SameAt(row, fields, f) {
      FieldReadBack(p, prefix, others, i, f);
    }
    SameMap(row, fields);
  }

  /** The fields of the rows that have any, in page order. */
  function NonEmpty(rows: seq<PageRow>): seq<Fields> {
    if rows == [] then []
    else if rows[|rows| - 1].fields != map[] then NonEmpty(rows[..|rows| - 1]) + [rows[|rows| - 1].fields]
    else NonEmpty(rows[..|rows| - 1])
  }

  /** The non-empty rows with index below n. */
  function Below(rows: seq<PageRow>, n: nat): seq<Fields> {
    if n == 0 then []
    else if FieldsAt(rows, n - 1) != map[] then Below(rows, n - 1) + [FieldsAt(rows, n - 1)]
    else Below(rows, n - 1)
  }

  ghost predicate ReadBack(form: Form, prefix: string, rows: seq<PageRow>, i: nat) {
    Entries(form, form.Keys, RowPrefix(prefix, i)) == FieldsAt(rows, i)
  }

  lemma {:induction false} RowsAreBelow(form: Form, prefix: string, rows: seq<PageRow>, n: nat)
    requires forall i: nat :: ReadBack(form, prefix, rows, i)
    ensures Rows(form, prefix, n) == Below(rows, n)
  {
    if n > 0 {
      RowsAreBelow(form, prefix, rows, n - 1);
      assert ReadBack(form, prefix, rows, n - 1);
    }
  }

  lemma {:induction false} BelowFront(front: seq<PageRow>, last: PageRow, n: nat)
    requires n <= last.index
    ensures Below(front + [last], n) == Below(front, n)
  {
    if n > 0 {
      BelowFront(front, last, n - 1);
      assert (front + [last])[..|front|] == front;
    }
  }

  lemma {:induction false} BelowBeyond(rows: seq<PageRow>, m: nat, n: nat)
    requires m <= n && forall k | 0 <= k < |rows| :: rows[k].index < m
    ensures Below(rows, n) == Below(rows, m)
  {
    if m < n {
      BelowBeyond(rows, m, n - 1);
      NoFieldsAt(rows, n - 1);
    }
  }

  lemma {:induction false} BelowIsNonEmpty(rows: seq<PageRow>, n: nat)
    requires InOrder(PageState(n, rows))
    ensures Below(rows, n) == NonEmpty(rows)
  {
    if rows == [] {
      BelowBeyond(rows, 0, n);
    } else {
      var front, last := rows[..|rows| - 1], rows[|rows| - 1];
      BelowBeyond(rows, last.index + 1, n);
      assert rows == front + [last];
      BelowFront(front, last, last.index);
      BelowIsNonEmpty(front, last.index);
    }
  }

  lemma TotalReadBack(p: PageState, prefix: string, others: Form)
    ensures Total(Submitted(p, prefix, others), prefix) == p.total
  {
    NumeralParses(p.total);
  }

  lemma OneFormset(p: PageState, prefix: string, others: Form)
    requires InOrder(p) && Foreign(others, prefix)
    ensures Parsed(Submitted(p, prefix, others), prefix) == NonEmpty(p.rows)
  {
    var form := Submitted(p, prefix, others);
    TotalReadBack(p, prefix, others);
    forall i: nat ensures ReadBack(form, prefix, p.rows, i) {
      RowReadBack(p, prefix, others, i);
    }
    RowsAreBelow(form, prefix, p.rows, p.total);
    BelowIsNonEmpty(p.rows, p.total);
  }

  /** After any additions, removals and edits in the page, the server reads exactly the surviving
      rows that have fields, in the order in which they stand on the page. */
  lemma PageRoundTrip(initial: seq<Fields>, ops: seq<Op>, prefix: string, others: Form)
    requires Foreign(others, prefix)
    ensures Parsed(Submitted(Run(initial, ops), prefix, others), prefix) == NonEmpty(Run(initial, ops).rows)
  {
    RunInOrder(initial, ops);
    OneFormset(Run(initial, ops), prefix, others);
  }

  // ---- Several formsets on one page ----

  /** The keys of a formset are foreign to another one when neither prefix has a dash. */
  lemma OtherFormsetForeign(p: PageState, prefix: string, others: Form, other: string)
    requires '-' !in prefix && '-' !in other && prefix != other && Foreign(others, other)
    ensures Foreign(Submitted(p, prefix, others), other)
  {
    forall k | k in Submitted(p, prefix, others) ensures !StartsWith(k, other + "-") {
      if k in Own(p, prefix) && StartsWith(k, other + "-") {
        OwnKey(p, prefix, k);
        OneDash(k, prefix, other);
      }
    }
  }

  lemma OwnKey(p: PageState, prefix: string, k: string)
    requires k in Own(p, prefix)
    ensures StartsWith(k, prefix + "-")
  {
    if k in AllEntries(prefix, p.rows) {
      EntriesStart(prefix, p.rows, k);
      var i: nat, f: string :| k == RowPrefix(prefix, i) + f;
      RowKeyStarts(prefix, i, f);
    } else {
      assert k[..|prefix| + 1] == prefix + "-";
    }
  }

  lemma OneDash(k: string, prefix: string, other: string)
    requires '-' !in prefix && '-' !in other
    requires StartsWith(k, prefix + "-") && StartsWith(k, other + "-")
    ensures prefix == other
  {
    KeySplit(k, prefix + "-");
    KeySplit(k, other + "-");
    FirstDash(prefix, k[|prefix| + 1..], other, k[|other| + 1..]);
  }

  /** A page with two formsets: each is read back on its own. */
  lemma TwoFormsets(p: PageState, prefix: string, q: PageState, other: string, others: Form)
    requires '-' !in prefix && '-' !in other && prefix != other
    requires Foreign(others, prefix) && Foreign(others, other) && InOrder(p) && InOrder(q)
    ensures var form := Submitted(q, other, Submitted(p, prefix, others));
            Parsed(form, other) == NonEmpty(q.rows) && Parsed(form, prefix) == NonEmpty(p.rows)
  {
    OtherFormsetForeign(p, prefix, others, other);
    OtherFormsetForeign(q, other, others, prefix);
    OneFormset(q, other, Submitted(p, prefix, others));
    OneFormset(p, prefix, Submitted(q, other, others));
    OrderOfFormsets(p, prefix, q, other, others);
  }

  /** It does not matter which formset stands first on the page. */
  lemma OrderOfFormsets(p: PageState, prefix: string, q: PageState, other: string, others: Form)
    requires '-' !in prefix && '-' !in other && prefix != other
    ensures Submitted(q, other, Submitted(p, prefix, others)) == Submitted(p, prefix, Submitted(q, other, others))
  {
    forall k | k in Own(p, prefix) ensures k !in Own(q, other) {
      OwnKey(p, prefix, k);
      if k in Own(q, other) {
        OwnKey(q, other, k);
        OneDash(k, prefix, other);
      }
    }
    MergeSwap(others, Own(p, prefix), Own(q, other));
  }

  lemma MergeSwap(a: Form, b: Form, c: Form)
    requires forall k <- b :: k !in c
    ensures a + b + c == a + c + b
  {
  }

  /** The names of the inputs, for example. */
  lemma SampleNames()
    ensures TotalKey("items") == "items-TOTAL_FORMS"
    ensures RowPrefix("items", 0) + "description" == "items-0-description"
    ensures RowPrefix("extras", 7) + "amount" == "extras-7-amount"
  {
    assert Numeral(0, 10) == "0" && Numeral(7, 10) == "7";
  }
}
