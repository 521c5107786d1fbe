/**
 * The items table `def` the dashboard edits: one row per monitored device,
 * with the effect of the role UPDATE and the ordering of `ORDER BY role`.
 */
module Items {

  /** A row of `def`, as the listing SELECT returns it (mysqli hands every column over as text). */
  datatype Row = Row(itemid: string, host: string, role: string)

  /**
   * The table after `UPDATE def SET role = <role> WHERE itemid = <itemid>`:
   * the role of every matching row becomes `role`; nothing else changes, and a
   * key that matches no row leaves the table as it was.
   */
  function SetRole(table: seq<Row>, itemid: string, role: string): (updated: seq<Row>)
    ensures |updated| == |table|
    ensures forall i :: 0 <= i < |table| ==>
      updated[i].itemid == table[i].itemid && updated[i].host == table[i].host
    ensures forall i :: 0 <= i < |table| ==>
      updated[i].role == if table[i].itemid == itemid then role else table[i].role
  {
    if table == [] then []
    else
      var r := table[0];
      [if r.itemid == itemid then r.(role := role) else r] + SetRole(table[1..], itemid, role)
  }

  lemma SetRoleNoMatch(table: seq<Row>, itemid: string, role: string)
    requires forall i :: 0 <= i < |table| ==> table[i].itemid != itemid
    ensures SetRole(table, itemid, role) == table
  {
  }

  lemma SetRoleIdempotent(table: seq<Row>, itemid: string, role: string)
    ensures SetRole(SetRole(table, itemid, role), itemid, role) == SetRole(table, itemid, role)
  {
  }

  /** Lexicographic order on strings by character code, the order `ORDER BY role` is taken to use. */
  predicate LexLe(a: string, b: string) {
    |a| == 0 || (|b| > 0 && (a[0] < b[0] || (a[0] == b[0] && LexLe(a[1..], b[1..]))))
  }

  lemma {:induction false} LexLeReflexive(a: string)
    ensures LexLe(a, a)
  {
    if |a| > 0 {
      LexLeReflexive(a[1..]);
    }
  }

  lemma {:induction false} LexLeTotal(a: string, b: string)
    ensures LexLe(a, b) || LexLe(b, a)
  {
    if |a| > 0 && |b| > 0 && a[0] == b[0] {
      LexLeTotal(a[1..], b[1..]);
    }
  }

  lemma {:induction false} LexLeTransitive(a: string, b: string, c: string)
    requires LexLe(a, b) && LexLe(b, c)
    ensures LexLe(a, c)
  {
    if |a| > 0 && a[0] == b[0] && b[0] == c[0] {
      LexLeTransitive(a[1..], b[1..], c[1..]);
    }
  }

  /** Adjacent rows are in non-decreasing role order. */
  predicate SortedByRole(rows: seq<Row>) {
    forall i :: 0 < i < |rows| ==> LexLe(rows[i - 1].role, rows[i].role)
  }

  /** Any two rows of a sorted listing, not only neighbours, are in role order. */
  lemma {:induction false} SortedByRoleAt(rows: seq<Row>, i: nat, j: nat)
    requires SortedByRole(rows)
    requires i <= j < |rows|
    ensures LexLe(rows[i].role, rows[j].role)
    decreases j - i
  {
    if i == j {
      LexLeReflexive(rows[i].role);
    } else {
      SortedByRoleAt(rows, i, j - 1);
      LexLeTransitive(rows[i].role, rows[j - 1].role, rows[j].role);
    }
  }

  function InsertByRole(r: Row, sorted: seq<Row>): (s: seq<Row>)
    requires SortedByRole(sorted)
    ensures SortedByRole(s)
    ensures multiset(s) == multiset(sorted) + multiset{r}
    ensures s[0] == r || (sorted != [] && s[0] == sorted[0])
  {
    if sorted == [] || LexLe(r.role, sorted[0].role) then [r] + sorted
    else
      LexLeTotal(r.role, sorted[0].role);
      assert sorted == [sorted[0]] + sorted[1..];
      [sorted[0]] + InsertByRole(r, sorted[1..])
  }

  /**
   * The rows in the order the server returns them for `ORDER BY role`: sorted by
   * role and a permutation of the table. Ties keep table order here, a choice
   * the SQL text leaves to the server.
   */
  function SortByRole(table: seq<Row>): (listed: seq<Row>)
    ensures SortedByRole(listed)
    ensures multiset(listed) == multiset(table)
    ensures |listed| == |table|
  {
    if table == [] then []
    else
      assert table == [table[0]] + table[1..];
      InsertByRole(table[0], SortByRole(table[1..]))
  }

  /**
   * A reordering of the rows shows the same rows: a row of the updated table is
   * listed, and every listed row with the edited itemid carries what every such
   * row of the updated table carries.
   */
  lemma PermutedRows(listed: seq<Row>, updated: seq<Row>, edited: Row)
    requires multiset(listed) == multiset(updated)
    requires edited in updated
    requires forall j :: 0 <= j < |updated| && updated[j].itemid == edited.itemid ==> updated[j].role == edited.role
    ensures edited in listed
    ensures forall k :: 0 <= k < |listed| && listed[k].itemid == edited.itemid ==> listed[k].role == edited.role
  {
    assert edited in multiset(updated);
    forall k | 0 <= k < |listed| && listed[k].itemid == edited.itemid ensures listed[k].role == edited.role {
      assert listed[k] in multiset(listed);
      assert listed[k] in updated;
    }
  }

  /**
   * After the UPDATE of an existing item, the sorted listing holds that item with
   * the new role, and every listed row with that itemid carries the new role.
   */
  lemma ListedAfterSetRole(table: seq<Row>, itemid: string, role: string, i: nat)
    requires i < |table| && table[i].itemid == itemid
    ensures Row(itemid, table[i].host, role) in SortByRole(SetRole(table, itemid, role))
    ensures var listed := SortByRole(SetRole(table, itemid, role));
      forall k :: 0 <= k < |listed| && listed[k].itemid == itemid ==> listed[k].role == role
  {
    var updated := SetRole(table, itemid, role);
    assert updated[i] == Row(itemid, table[i].host, role);
    PermutedRows(SortByRole(updated), updated, updated[i]);
  }
}
