/**
 * The two report routines: `my_input`, which dumps every row of one ad-hoc
 * query, and `my_edit_items`, which applies an optional role edit posted from
 * the edit form and then lists the items table with an edit form per row.
 *
 * Each routine is a method over the connection and the page, proved against a
 * function of the prior state (AdHoc, EditItems); the lemmas below state what
 * the routines promise in terms of those functions.
 */
module RepFunctions {
  import opened Wrappers
  import opened Text
  import opened Items
  import opened Php
  import opened Db
  import opened Html

  /** How a request ended: normally, or in `die` with the server's error message. */
  datatype Outcome = Completed | Died(message: string)

  /** The role UPDATE, with the posted values spliced in as they are. */
  function UpdateStatement(newrole: string, itemid: string): string {
    "UPDATE def SET role = " + Quote + newrole + Quote + " WHERE itemid = " + itemid
  }

  const SelectStatement := "SELECT itemid, host, role " + "FROM def " + "ORDER BY role"

  /** What one `my_edit_items` request does: the table afterwards, the statements sent, how it ended. */
  datatype Run = Run(table: seq<Row>, issued: seq<string>, outcome: Outcome)

  /**
   * The text a request echoes: the header, then the message it died with, or else
   * the listing the SELECT returns, which is the table the request ended with.
   */
  function Shown(run: Run): string {
    match run.outcome
    case Died(message) => Header + message
    case Completed => ListingHtml(SortByRole(run.table))
  }

  /** `my_edit_items($conn, $posted)` against a server holding `table` that refuses `rejected`. */
  function EditItems(table: seq<Row>, rejected: map<string, string>, posted: map<string, string>): Run {
    var newrole := Posted(posted, "newrole");
    var itemid := Posted(posted, "itemid");
    if !Truthy(newrole) then
      ListItems(table, [], rejected)
    else
      var update := UpdateStatement(newrole, itemid);
      if update in rejected then
        Run(table, [update], Died(rejected[update]))
      else
        ListItems(SetRole(table, itemid, newrole), [update], rejected)
  }

  /** The listing half of `my_edit_items`, after `issued` were sent and the header echoed. */
  function ListItems(table: seq<Row>, issued: seq<string>, rejected: map<string, string>): Run {
    if SelectStatement in rejected then
      Run(table, issued + [SelectStatement], Died(rejected[SelectStatement]))
    else
      Run(table, issued + [SelectStatement], Completed)
  }

  /** What one `my_input` request echoes and how it ends. */
  datatype Report = Report(output: string, outcome: Outcome)

  /** `my_input($conn, $input)`, with `dump` standing for `print_r`. */
  function AdHoc(rejected: map<string, string>, answer: string -> seq<Record>, input: string,
                 dump: Record -> string): Report
  {
    if input in rejected then Report(rejected[input], Died(rejected[input]))
    else Report(DumpsHtml(answer(input), dump), Completed)
  }

  method MyInput(conn: Connection, page: Page, input: string, dump: Record -> string)
    returns (outcome: Outcome)
    modifies conn, page
    ensures var report := AdHoc(conn.rejected, conn.answer, input, dump);
      page.text == old(page.text) + report.output && outcome == report.outcome
    ensures conn.table == old(conn.table) && conn.issued == old(conn.issued) + [input]
    ensures conn.error == if outcome.Died? then outcome.message else ""
  {
    var result := conn.Query(input);
    if result.None? {
      page.Echo(conn.error);
      return Died(conn.error);
    }
    var records := result.value;
    var rows := |records|;
    ghost var start := page.text;
    for i := 0 to rows
      invariant page.text == start + DumpsHtml(records[..i], dump)
      invariant conn.table == old(conn.table) && conn.issued == old(conn.issued) + [input] && conn.error == ""
    {
      JoinSnoc(records, i, DumpLines(dump));
      Assoc(start, DumpsHtml(records[..i], dump), dump(records[i]));
      Assoc(start + DumpsHtml(records[..i], dump), dump(records[i]), DumpEnd);
      page.Echo(dump(records[i]));
      page.Echo(DumpEnd);
    }
    assert records[..rows] == records;
    outcome := Completed;
  }

  /**
   * The loop of `my_edit_items` over the result's rows `0 .. num_rows - 1`, with
   * `f` the markup of one row: one echo per row, in order.
   */
  method EchoEach<T>(page: Page, xs: seq<T>, f: T -> string)
    modifies page
    ensures page.text == old(page.text) + Join(xs, f)
  {
    for j := 0 to |xs|
      invariant page.text == old(page.text) + Join(xs[..j], f)
    {
      JoinSnoc(xs, j, f);
      Assoc(old(page.text), Join(xs[..j], f), f(xs[j]));
      page.Echo(f(xs[j]));
    }
    assert xs[..|xs|] == xs;
  }

  /** Lines 36-63 of `my_edit_items`: the listing SELECT, one row per result row, the total. */
  method ListRows(conn: Connection, page: Page) returns (outcome: Outcome)
    modifies conn, page
    ensures conn.table == old(conn.table) && conn.issued == old(conn.issued) + [SelectStatement]
    ensures SelectStatement in conn.rejected ==>
      outcome == Died(conn.rejected[SelectStatement]) &&
      page.text == old(page.text) + conn.rejected[SelectStatement]
    ensures SelectStatement !in conn.rejected ==>
      outcome == Completed &&
      page.text == old(page.text) + ListingBody(SortByRole(conn.table))
    ensures conn.error == if outcome.Died? then outcome.message else ""
  {
    var result := conn.SelectItems(SelectStatement);
    if result.None? {
      page.Echo(conn.error);
      return Died(conn.error);
    }
    var rows := result.value;
    ghost var text0 := page.text;
    EchoEach(page, rows, RowHtml);
    page.Echo(TotalHtml(|rows|));
    Assoc(text0, RowsHtml(rows), TotalHtml(|rows|));
    outcome := Completed;
  }

  method MyEditItems(conn: Connection, page: Page, posted: map<string, string>)
    returns (outcome: Outcome)
    modifies conn, page
    ensures var run := EditItems(old(conn.table), conn.rejected, posted);
      conn.table == run.table && conn.issued == old(conn.issued) + run.issued &&
      page.text == old(page.text) + Shown(run) && outcome == run.outcome
    ensures conn.error == if outcome.Died? then outcome.message else ""
  {
    ghost var text0, issued0 := page.text, conn.issued;
    page.Echo(Header);
    var newrole := Posted(posted, "newrole");
    ghost var sent: seq<string> := [];
    if Truthy(newrole) {
      var itemid := Posted(posted, "itemid");
      var statement := UpdateStatement(newrole, itemid);
      var ok := conn.Update(statement, itemid, newrole);
      sent := [statement];
      if !ok {
        page.Echo(conn.error);
        Assoc(text0, Header, conn.error);
        return Died(conn.error);
      }
    }
    ghost var table1 := conn.table;
    ghost var run := ListItems(table1, sent, conn.rejected);
    assert EditItems(old(conn.table), conn.rejected, posted) == run;
    outcome := ListRows(conn, page);
    Assoc(issued0, sent, [SelectStatement]);
    if SelectStatement in conn.rejected {
      assert run.outcome == outcome && Shown(run) == Header + conn.rejected[SelectStatement];
      Assoc(text0, Header, conn.rejected[SelectStatement]);
    } else {
      assert run.outcome == outcome && Shown(run) == Header + ListingBody(SortByRole(table1));
      Assoc(text0, Header, ListingBody(SortByRole(table1)));
    }
  }

  // What the routines promise

  /** The UPDATE is sent first exactly when `newrole` was posted and is not "" or "0"; otherwise the table is untouched. */
  lemma EditTrigger(table: seq<Row>, rejected: map<string, string>, posted: map<string, string>)
    ensures var run := EditItems(table, rejected, posted);
      |run.issued| >= 1 &&
      (run.issued[0] == UpdateStatement(Posted(posted, "newrole"), Posted(posted, "itemid")) <==>
        "newrole" in posted && posted["newrole"] != "" && posted["newrole"] != "0")
    ensures var run := EditItems(table, rejected, posted);
      !Truthy(Posted(posted, "newrole")) ==> run.table == table && run.issued == [SelectStatement]
  {
    var update := UpdateStatement(Posted(posted, "newrole"), Posted(posted, "itemid"));
    assert update[0] == 'U';
    assert SelectStatement[0] == 'S';
  }

  /**
   * The edit changes only `role`, and only on rows whose itemid is the posted one;
   * every itemid and host, and every other row, stays as it was. A posted itemid
   * that matches no row changes nothing and is no error.
   */
  lemma EditScope(table: seq<Row>, rejected: map<string, string>, posted: map<string, string>)
    ensures var run := EditItems(table, rejected, posted);
      var newrole, itemid := Posted(posted, "newrole"), Posted(posted, "itemid");
      var edited := Truthy(newrole) && UpdateStatement(newrole, itemid) !in rejected;
      |run.table| == |table| &&
      forall i :: 0 <= i < |table| ==>
        run.table[i].itemid == table[i].itemid && run.table[i].host == table[i].host &&
        run.table[i].role == if edited && table[i].itemid == itemid then newrole else table[i].role
  {
  }

  /**
   * The UPDATE goes out before the SELECT, and a completed request lists the table
   * as the UPDATE left it.
   */
  lemma UpdateBeforeSelect(table: seq<Row>, rejected: map<string, string>, posted: map<string, string>)
    ensures var run := EditItems(table, rejected, posted);
      var newrole, itemid := Posted(posted, "newrole"), Posted(posted, "itemid");
      run.outcome == Completed ==>
        (if Truthy(newrole)
         then run.issued == [UpdateStatement(newrole, itemid), SelectStatement] &&
              run.table == SetRole(table, itemid, newrole)
         else run.issued == [SelectStatement] && run.table == table)
  {
  }

  /**
   * A refused statement ends the request: the page holds the header and the
   * server's message, and no row and no total. A refused UPDATE leaves the table
   * as it was and the SELECT is never sent.
   */
  lemma DieStopsRequest(table: seq<Row>, rejected: map<string, string>, posted: map<string, string>)
    ensures var run := EditItems(table, rejected, posted);
      run.outcome.Died? ==> Shown(run) == Header + run.outcome.message && run.outcome.message in rejected.Values
    ensures var run := EditItems(table, rejected, posted);
      var update := UpdateStatement(Posted(posted, "newrole"), Posted(posted, "itemid"));
      Truthy(Posted(posted, "newrole")) && update in rejected ==>
        run == Run(table, [update], Died(rejected[update]))
    ensures var run := EditItems(table, rejected, posted);
      run.outcome.Died? <==>
        (if Truthy(Posted(posted, "newrole"))
         then UpdateStatement(Posted(posted, "newrole"), Posted(posted, "itemid")) in rejected
              || SelectStatement in rejected
         else SelectStatement in rejected)
  {
  }

  /**
   * A completed listing reads back as the header, exactly one row per item of the
   * table (sorted by role, each with its own cells and an edit form bound to its
   * itemid), and `Total: n items` with n the number of items.
   */
  lemma ListingShape(table: seq<Row>, rejected: map<string, string>, posted: map<string, string>)
    requires forall i :: 0 <= i < |table| ==> PlainRow(table[i])
    requires Plain(Posted(posted, "newrole"))
    ensures var run := EditItems(table, rejected, posted);
      var listed := SortByRole(run.table);
      run.outcome == Completed ==>
        ParseListing(Shown(run)) == Some(Listing(Listed(listed), |table|)) &&
        SortedByRole(listed) && multiset(listed) == multiset(run.table)
  {
    var run := EditItems(table, rejected, posted);
    if run.outcome == Completed {
      EditScope(table, rejected, posted);
      assert forall i :: 0 <= i < |run.table| ==> PlainRow(run.table[i]);
      PlainSorted(run.table);
      ListingRoundTrip(SortByRole(run.table));
    }
  }

  /**
   * Read after write: when the posted itemid names an item and the request
   * completes, the listing shows that item with the new role, and every row the
   * listing shows for that itemid carries the new role.
   */
  lemma ReadAfterWrite(table: seq<Row>, rejected: map<string, string>, posted: map<string, string>, i: nat)
    requires forall j :: 0 <= j < |table| ==> PlainRow(table[j])
    requires Truthy(Posted(posted, "newrole")) && Plain(Posted(posted, "newrole"))
    requires i < |table| && table[i].itemid == Posted(posted, "itemid")
    requires EditItems(table, rejected, posted).outcome == Completed
    ensures var newrole, itemid := Posted(posted, "newrole"), Posted(posted, "itemid");
      var listing := ParseListing(Shown(EditItems(table, rejected, posted)));
      listing.Some? &&
      ListedRow(itemid, table[i].host, newrole, itemid) in listing.value.rows &&
      forall k :: 0 <= k < |listing.value.rows| && listing.value.rows[k].idCell == itemid ==>
        listing.value.rows[k].roleCell == newrole
  {
    var newrole, itemid := Posted(posted, "newrole"), Posted(posted, "itemid");
    var run := EditItems(table, rejected, posted);
    ListingShape(table, rejected, posted);
    UpdateBeforeSelect(table, rejected, posted);
    var listed := SortByRole(run.table);
    assert run.table == SetRole(table, itemid, newrole);
    assert ParseListing(Shown(run)) == Some(Listing(Listed(listed), |table|));
    ListedAfterEdit(table, itemid, newrole, i);
  }

  /** An edit whose itemid matches no item leaves the table, the listing and the outcome as with no edit at all. */
  lemma NoOpEdit(table: seq<Row>, rejected: map<string, string>, posted: map<string, string>)
    requires forall i :: 0 <= i < |table| ==> table[i].itemid != Posted(posted, "itemid")
    requires UpdateStatement(Posted(posted, "newrole"), Posted(posted, "itemid")) !in rejected
    ensures var run, plain := EditItems(table, rejected, posted), EditItems(table, rejected, map[]);
      run.table == table && Shown(run) == Shown(plain) && run.outcome == plain.outcome
  {
    var newrole, itemid := Posted(posted, "newrole"), Posted(posted, "itemid");
    var run, plain := EditItems(table, rejected, posted), EditItems(table, rejected, map[]);
    SetRoleNoMatch(table, itemid, newrole);
    assert plain == ListItems(table, [], rejected);
    if Truthy(newrole) {
      assert run == ListItems(table, [UpdateStatement(newrole, itemid)], rejected);
    }
    assert run.table == plain.table && run.outcome == plain.outcome;
  }

  /** Listing twice with no edit between gives the same page and sends the same statement. */
  lemma RelistIdempotent(table: seq<Row>, rejected: map<string, string>, posted: map<string, string>)
    requires !Truthy(Posted(posted, "newrole"))
    ensures var first := EditItems(table, rejected, posted);
      EditItems(first.table, rejected, posted) == first
  {
  }

  /** With an empty table the page is the header and a total of zero. */
  lemma EmptyTable(rejected: map<string, string>, posted: map<string, string>)
    requires EditItems([], rejected, posted).outcome == Completed
    ensures Shown(EditItems([], rejected, posted)) == Header + TotalOpen + "0" + TotalClose
  {
    var run := EditItems([], rejected, posted);
    EditScope([], rejected, posted);
    assert run.table == [];
    assert RowsHtml([]) == "" && NatToString(0) == "0";
    assert Shown(run) == Header + ("" + (TotalOpen + "0" + TotalClose));
    assert "" + (TotalOpen + "0" + TotalClose) == TotalOpen + "0" + TotalClose;
    Assoc(Header, TotalOpen + "0", TotalClose);
    Assoc(Header, TotalOpen, "0");
  }

  /** Two items, no edit: ascending `ORDER BY role` lists "core" (host-a) before "edge" (host-b), total 2. */
  lemma ScenarioListing()
    ensures var table := [Row("1", "host-a", "core"), Row("2", "host-b", "edge")];
      var run := EditItems(table, map[], map[]);
      run == Run(table, [SelectStatement], Completed) && Shown(run) == ListingHtml(table)
  {
    var table := [Row("1", "host-a", "core"), Row("2", "host-b", "edge")];
    assert LexLe("core", "edge");
    assert SortByRole(table[1..]) == [table[1]];
    assert SortByRole(table) == table;
  }

  /** Two items, then item 2 set to "core": both listed with role "core", total still 2. */
  lemma ScenarioEdit()
    ensures var table := [Row("1", "host-a", "core"), Row("2", "host-b", "edge")];
      var after := [Row("1", "host-a", "core"), Row("2", "host-b", "core")];
      var posted := map["newrole" := "core", "itemid" := "2"];
      var run := EditItems(table, map[], posted);
      run == Run(after, [UpdateStatement("core", "2"), SelectStatement], Completed) && Shown(run) == ListingHtml(after)
  {
    var table := [Row("1", "host-a", "core"), Row("2", "host-b", "edge")];
    var after := [Row("1", "host-a", "core"), Row("2", "host-b", "core")];
    var posted := map["newrole" := "core", "itemid" := "2"];
    assert Posted(posted, "newrole") == "core" && Posted(posted, "itemid") == "2";
    assert Truthy("core");
    assert SetRole(table[1..], "2", "core") == after[1..];
    assert SetRole(table, "2", "core") == after;
    LexLeReflexive("core");
    assert SortByRole(after[1..]) == [after[1]];
    assert SortByRole(after) == after;
  }

  /**
   * `my_input` either dies before any dump, echoing only the server's message, or
   * echoes exactly one dump per returned row, in order, and nothing else.
   */
  lemma AdHocShape(rejected: map<string, string>, answer: string -> seq<Record>, input: string,
                   dump: Record -> string)
    requires forall i :: 0 <= i < |answer(input)| ==> '<' !in dump(answer(input)[i])
    ensures var report := AdHoc(rejected, answer, input, dump);
      report.outcome.Died? <==> input in rejected
    ensures var report := AdHoc(rejected, answer, input, dump);
      report.outcome.Died? ==> report.output == rejected[input]
    ensures var report, records := AdHoc(rejected, answer, input, dump), answer(input);
      report.outcome == Completed ==>
        ParseDumps(report.output) == Some(seq(|records|, i requires 0 <= i < |records| => dump(records[i])))
  {
    if input !in rejected {
      DumpsRoundTrip(answer(input), dump);
    }
  }
}
