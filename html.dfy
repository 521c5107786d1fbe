/**
 * The HTML fragments the report functions echo, built by raw concatenation
 * exactly as the PHP does (no escaping), together with reference parsers that
 * read a fragment back. The round-trip lemmas state the output's shape: a
 * header, one row per record carrying that record's cells and an edit form
 * bound to its itemid, then the total.
 */
module Html {
  import opened Wrappers
  import opened Text
  import opened Items
  import Db

  /** The table head, echoed before anything else. */
  const Header := "<table><tr>" + "<th>ID</th>" + "<th>Host</th>" + "<th>Role</th>" + "<th>Edit</th>" + "</tr>"

  const RowOpen := "<tr>" + "<td>"
  const CellSep := "</td><td>"
  /** ` name="value"`, an HTML attribute as the PHP writes it. */
  function Attr(name: string, value: string): string {
    " " + name + "=" + Quote + value + Quote
  }

  /** Closes the role cell and opens the edit form up to the hidden itemid's value. */
  const FormOpen := CellSep
    + "<form" + Attr("action", "?p=cfg") + Attr("method", "post") + ">"
    + "<input" + Attr("type", "text") + Attr("name", "newrole") + ">"
    + "<input" + Attr("type", "hidden") + Attr("name", "itemid") + " value=" + Quote
  /** Closes the hidden itemid's value, the form and the row. */
  const FormClose := Quote
    + "><input" + Attr("type", "submit") + Attr("value", "Change role") + ">"
    + "</form></td></tr>"

  const TotalOpen := "<th colspan=3>Total: "
  const TotalClose := " items</th><th></th></table>"

  const DumpEnd := "<br>"

  /** One listing row: the three cells, then a form posting `newrole` with the row's itemid hidden. */
  function RowHtml(r: Row): string {
    RowOpen + r.itemid + CellSep + r.host + CellSep + r.role + FormOpen + r.itemid + FormClose
  }

  function RowsHtml(rows: seq<Row>): string {
    Join(rows, RowHtml)
  }

  /** The closing line, `Total: n items`, with n the number of rows listed. */
  function TotalHtml(n: nat): string {
    TotalOpen + NatToString(n) + TotalClose
  }

  /** What a successful `my_edit_items` echoes after the header: the rows, then the total. */
  function ListingBody(rows: seq<Row>): string {
    RowsHtml(rows) + TotalHtml(|rows|)
  }

  /** Everything a successful `my_edit_items` echoes for the listed rows. */
  function ListingHtml(rows: seq<Row>): string {
    Header + ListingBody(rows)
  }

  /** One line of `my_input`: the row's dump followed by `<br>`. */
  function DumpLine(dump: Db.Record -> string, record: Db.Record): string {
    dump(record) + DumpEnd
  }

  function DumpLines(dump: Db.Record -> string): Db.Record -> string {
    r => DumpLine(dump, r)
  }

  /** What `my_input` echoes: each row's dump followed by `<br>`, nothing else. */
  function DumpsHtml(records: seq<Db.Record>, dump: Db.Record -> string): string {
    Join(records, DumpLines(dump))
  }

  // Reading the output back

  /** Text that raw concatenation cannot confuse with markup or with an attribute's end. */
  predicate Plain(s: string) {
    '<' !in s && '"' !in s
  }

  predicate PlainRow(r: Row) {
    Plain(r.itemid) && Plain(r.host) && Plain(r.role)
  }

  /** What a reader of one listing row sees: the three cells and the itemid the form posts back. */
  datatype ListedRow = ListedRow(idCell: string, hostCell: string, roleCell: string, formItemid: string)

  datatype Listing = Listing(rows: seq<ListedRow>, total: nat)

  /** What a row should read as: its own cells and its own itemid in the form. */
  function ListedOf(r: Row): ListedRow {
    ListedRow(r.itemid, r.host, r.role, r.itemid)
  }

  function Listed(rows: seq<Row>): (listed: seq<ListedRow>)
    ensures |listed| == |rows|
    ensures forall i :: 0 <= i < |rows| ==> listed[i] == ListedOf(rows[i])
  {
    if rows == [] then [] else [ListedOf(rows[0])] + Listed(rows[1..])
  }

  /** The text before the first `stop`, which must be followed by the literal `lit`, and what follows `lit`. */
  function Field(s: string, stop: char, lit: string): (parsed: Option<(string, string)>)
    ensures parsed.Some? ==> |parsed.value.1| + |lit| <= |s|
  {
    var (value, s1) := Until(s, stop);
    var s2 :- Cut(s1, lit);
    Some((value, s2))
  }

  lemma FieldStep(value: string, stop: char, lit: string, rest: string)
    requires stop !in value
    requires lit != [] && lit[0] == stop
    ensures Field(value + (lit + rest), stop, lit) == Some((value, rest))
  {
    UntilStops(value, lit + rest, stop);
    CutPrefix(lit, rest);
  }

  function ParseRow(s: string): (parsed: Option<(ListedRow, string)>)
    ensures parsed.Some? ==> |parsed.value.1| < |s|
  {
    var s1 :- Cut(s, RowOpen);
    ParseCells(s1)
  }

  /** The part of a row after `<tr><td>`: three cells, then the form up to `</tr>`. */
  function ParseCells(s: string): (parsed: Option<(ListedRow, string)>)
    ensures parsed.Some? ==> |parsed.value.1| <= |s|
  {
    var id :- Field(s, '<', CellSep);
    var host :- Field(id.1, '<', CellSep);
    var role :- Field(host.1, '<', FormOpen);
    var formItemid :- Field(role.1, '"', FormClose);
    Some((ListedRow(id.0, host.0, role.0, formItemid.0), formItemid.1))
  }

  /** Reads rows for as long as the text starts with `<tr>`. */
  function ParseRows(s: string): Option<(seq<ListedRow>, string)>
    decreases |s|
  {
    if Cut(s, "<tr>").Some? then
      var row :- ParseRow(s);
      var more :- ParseRows(row.1);
      Some(([row.0] + more.0, more.1))
    else
      Some(([], s))
  }

  function ParseTotal(s: string): Option<nat> {
    var s1 :- Cut(s, TotalOpen);
    var (digits, s2) := Until(s1, ' ');
    var s3 :- Cut(s2, TotalClose);
    if s3 == [] && digits != [] && forall i :: 0 <= i < |digits| ==> IsDigit(digits[i])
    then Some(ParseNat(digits))
    else None
  }

  function ParseListing(s: string): Option<Listing> {
    var s1 :- Cut(s, Header);
    var rows :- ParseRows(s1);
    var total :- ParseTotal(rows.1);
    Some(Listing(rows.0, total))
  }

  function ParseDumps(s: string): Option<seq<string>>
    decreases |s|
  {
    if s == [] then Some([])
    else
      var (d, s1) := Until(s, '<');
      var s2 :- Cut(s1, DumpEnd);
      var more :- ParseDumps(s2);
      Some([d] + more)
  }

  lemma RowRoundTrip(r: Row, rest: string)
    requires PlainRow(r)
    ensures Cut(RowHtml(r) + rest, "<tr>").Some?
    ensures ParseRow(RowHtml(r) + rest) == Some((ListedOf(r), rest))
  {
    var cells := r.itemid + (CellSep + (r.host + (CellSep + (r.role + (FormOpen + (r.itemid + (FormClose + rest)))))));
    var s := RowHtml(r) + rest;
    RowHtmlOnto(r, rest);
    assert s == RowOpen + cells;
    Assoc("<tr>", "<td>", cells);
    CutPrefix("<tr>", "<td>" + cells);
    assert Cut(s, "<tr>") == Some("<td>" + cells);
    ParseRowStep(cells);
    CellsRoundTrip(r, rest);
  }

  lemma ParseRowStep(cells: string)
    ensures ParseRow(RowOpen + cells) == ParseCells(cells)
  {
    CutPrefix(RowOpen, cells);
  }

  lemma CellsRoundTrip(r: Row, rest: string)
    requires PlainRow(r)
    ensures ParseCells(r.itemid + (CellSep + (r.host + (CellSep + (r.role + (FormOpen + (r.itemid + (FormClose + rest))))))))
      == Some((ListedOf(r), rest))
  {
    var t4 := r.itemid + (FormClose + rest);
    var t3 := r.role + (FormOpen + t4);
    var t2 := r.host + (CellSep + t3);
    FormOpenStart();
    assert CellSep[0] == '<';
    FieldStep(r.itemid, '"', FormClose, rest);
    FieldStep(r.role, '<', FormOpen, t4);
    FieldStep(r.host, '<', CellSep, t3);
    FieldStep(r.itemid, '<', CellSep, t2);
  }

  lemma FormOpenStart()
    ensures FormOpen != [] && FormOpen[0] == '<'
    ensures FormClose != [] && FormClose[0] == '"'
  {
    assert FormOpen[0] == CellSep[0];
    assert FormClose[0] == Quote[0];
  }

  /**
   * Regroups one row's markup to the right, one piece at a time. The chain of
   * associativity steps carries no content: it keeps each step small for the verifier.
   */
  lemma RowHtmlOnto(r: Row, rest: string)
    ensures RowHtml(r) + rest ==
      RowOpen + (r.itemid + (CellSep + (r.host + (CellSep + (r.role + (FormOpen + (r.itemid + (FormClose + rest))))))))
  {
    var p1 := RowOpen + r.itemid;
    var p2 := p1 + CellSep;
    var p3 := p2 + r.host;
    var p4 := p3 + CellSep;
    var p5 := p4 + r.role;
    var p6 := p5 + FormOpen;
    var p7 := p6 + r.itemid;
    assert RowHtml(r) == p7 + FormClose;
    Assoc(p7, FormClose, rest);
    var q := FormClose + rest;
    Assoc(p6, r.itemid, q);
    q := r.itemid + q;
    Assoc(p5, FormOpen, q);
    q := FormOpen + q;
    Assoc(p4, r.role, q);
    q := r.role + q;
    Assoc(p3, CellSep, q);
    q := CellSep + q;
    Assoc(p2, r.host, q);
    q := r.host + q;
    Assoc(p1, CellSep, q);
    q := CellSep + q;
    Assoc(RowOpen, r.itemid, q);
  }

  lemma {:induction false} RowsRoundTrip(rows: seq<Row>, rest: string)
    requires forall i :: 0 <= i < |rows| ==> PlainRow(rows[i])
    requires Cut(rest, "<tr>").None?
    ensures ParseRows(RowsHtml(rows) + rest) == Some((Listed(rows), rest))
  {
    if rows == [] {
      assert RowsHtml(rows) + rest == rest;
    } else {
      var tail := RowsHtml(rows[1..]) + rest;
      RowsRoundTrip(rows[1..], rest);
      Assoc(RowHtml(rows[0]), RowsHtml(rows[1..]), rest);
      RowRoundTrip(rows[0], tail);
      ParseRowsStep(RowHtml(rows[0]) + tail, ListedOf(rows[0]), tail, Listed(rows[1..]), rest);
    }
  }

  lemma ParseRowsStep(s: string, row: ListedRow, tail: string, more: seq<ListedRow>, rest: string)
    requires Cut(s, "<tr>").Some? && ParseRow(s) == Some((row, tail))
    requires ParseRows(tail) == Some((more, rest))
    ensures ParseRows(s) == Some(([row] + more, rest))
  {
  }

  /** The total line does not start like a row, so reading rows stops in front of it. */
  lemma TotalIsNotRow(n: nat)
    ensures Cut(TotalHtml(n), "<tr>").None?
  {
    var t := TotalHtml(n);
    assert t == TotalOpen + (NatToString(n) + TotalClose);
    assert t[2] == TotalOpen[2] == 'h';
  }

  lemma TotalRoundTrip(n: nat)
    ensures ParseTotal(TotalHtml(n)) == Some(n)
  {
    var digits := NatToString(n);
    assert TotalHtml(n) == TotalOpen + (digits + TotalClose);
    CutPrefix(TotalOpen, digits + TotalClose);
    assert ' ' !in digits by {
      forall i | 0 <= i < |digits| ensures digits[i] != ' ' {
        assert IsDigit(digits[i]);
      }
    }
    assert TotalClose[0] == ' ';
    UntilStops(digits, TotalClose, ' ');
    assert TotalClose == TotalClose + [];
    CutPrefix(TotalClose, []);
    NatRoundTrip(n);
  }

  /**
   * A listing reads back as exactly one row per record, in order, each showing that
   * record's itemid, host and role with a form bound to the same itemid, followed by
   * a total equal to the number of records.
   */
  lemma ListingRoundTrip(rows: seq<Row>)
    requires forall i :: 0 <= i < |rows| ==> PlainRow(rows[i])
    ensures ParseListing(ListingHtml(rows)) == Some(Listing(Listed(rows), |rows|))
  {
    var total := TotalHtml(|rows|);
    CutPrefix(Header, RowsHtml(rows) + total);
    TotalIsNotRow(|rows|);
    RowsRoundTrip(rows, total);
    TotalRoundTrip(|rows|);
  }

  /** The ad-hoc report reads back as exactly one dump per record, in order, and nothing else. */
  lemma {:induction false} DumpsRoundTrip(records: seq<Db.Record>, dump: Db.Record -> string)
    requires forall i :: 0 <= i < |records| ==> '<' !in dump(records[i])
    ensures ParseDumps(DumpsHtml(records, dump)) ==
      Some(seq(|records|, i requires 0 <= i < |records| => dump(records[i])))
  {
    if records != [] {
      var d := dump(records[0]);
      var tail := DumpsHtml(records[1..], dump);
      assert DumpsHtml(records, dump) == DumpLine(dump, records[0]) + tail;
      Assoc(d, DumpEnd, tail);
      UntilStops(d, DumpEnd + tail, '<');
      CutPrefix(DumpEnd, tail);
      DumpsRoundTrip(records[1..], dump);
      var more := seq(|records| - 1, i requires 0 <= i < |records| - 1 => dump(records[1..][i]));
      assert [d] + more == seq(|records|, i requires 0 <= i < |records| => dump(records[i]));
    } else {
      assert seq(|records|, i requires 0 <= i < |records| => dump(records[i])) == [];
    }
  }

  /** Sorting rows for the listing keeps them plain. */
  lemma PlainSorted(rows: seq<Row>)
    requires forall i :: 0 <= i < |rows| ==> PlainRow(rows[i])
    ensures forall k :: 0 <= k < |SortByRole(rows)| ==> PlainRow(SortByRole(rows)[k])
  {
    var listed := SortByRole(rows);
    forall k | 0 <= k < |listed| ensures PlainRow(listed[k]) {
      assert listed[k] in multiset(rows);
      var i :| 0 <= i < |rows| && rows[i] == listed[k];
    }
  }

  /** Listing rows that carry a role read back as rows that show it. */
  lemma ListedRoles(rows: seq<Row>, r: Row)
    requires r in rows
    requires forall k :: 0 <= k < |rows| && rows[k].itemid == r.itemid ==> rows[k].role == r.role
    ensures ListedOf(r) in Listed(rows)
    ensures var parsed := Listed(rows);
      forall k :: 0 <= k < |parsed| && parsed[k].idCell == r.itemid ==> parsed[k].roleCell == r.role
  {
    var parsed := Listed(rows);
    var k :| 0 <= k < |rows| && rows[k] == r;
    assert parsed[k] == ListedOf(r);
    forall j | 0 <= j < |parsed| && parsed[j].idCell == r.itemid ensures parsed[j].roleCell == r.role {
      assert rows[j].itemid == r.itemid;
    }
  }

  /**
   * The parsed rows of the listing after an UPDATE of an existing item: that item
   * is listed with the new role, and every listed row with its itemid shows the new role.
   */
  lemma ListedAfterEdit(table: seq<Row>, itemid: string, role: string, i: nat)
    requires i < |table| && table[i].itemid == itemid
    ensures ListedRow(itemid, table[i].host, role, itemid) in Listed(SortByRole(SetRole(table, itemid, role)))
    ensures var parsed := Listed(SortByRole(SetRole(table, itemid, role)));
      forall k :: 0 <= k < |parsed| && parsed[k].idCell == itemid ==> parsed[k].roleCell == role
  {
    ListedAfterSetRole(table, itemid, role, i);
    ListedRoles(SortByRole(SetRole(table, itemid, role)), Row(itemid, table[i].host, role));
  }
}
