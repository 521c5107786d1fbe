/**
 * The mysqli connection, abstracted to an in-memory items table and a server
 * that either runs a statement or refuses it with an error message.
 */
module Db {
  import opened Wrappers
  import opened Items

  /** A row as `fetch_array(MYSQLI_ASSOC)` returns it: column name to value. */
  type Record = map<string, string>

  class Connection {
    /** The items table `def`. */
    var table: seq<Row>
    /** `$conn->error`: the message of the last statement sent, "" when the server accepted it. */
    var error: string
    /** Every statement sent to the server, in the order sent. */
    var issued: seq<string>
    /** The statements the server refuses, each with the message it reports. */
    const rejected: map<string, string>
    /** The rows the server returns for an ad-hoc read statement. */
    const answer: string -> seq<Record>

    constructor (table: seq<Row>, rejected: map<string, string>, answer: string -> seq<Record>)
      ensures this.table == table && this.rejected == rejected && this.answer == answer
      ensures error == "" && issued == []
    {
      this.table := table;
      this.rejected := rejected;
      this.answer := answer;
      error := "";
      issued := [];
    }

    /**
     * `$conn->query($statement)` for `UPDATE def SET role = <role> WHERE itemid = <itemid>`.
     * The statement text is what is sent; `itemid` and `role` are what the server reads from it.
     */
    method Update(statement: string, itemid: string, role: string) returns (ok: bool)
      modifies this
      ensures issued == old(issued) + [statement]
      ensures ok <==> statement !in rejected
      ensures ok ==> table == SetRole(old(table), itemid, role) && error == ""
      ensures !ok ==> table == old(table) && error == rejected[statement]
    {
      issued := issued + [statement];
      ok := statement !in rejected;
      if ok {
        table := SetRole(table, itemid, role);
        error := "";
      } else {
        error := rejected[statement];
      }
    }

    /** `$conn->query($statement)` for `SELECT itemid, host, role FROM def ORDER BY role`. */
    method SelectItems(statement: string) returns (rows: Option<seq<Row>>)
      modifies this
      ensures issued == old(issued) + [statement] && table == old(table)
      ensures rows.Some? <==> statement !in rejected
      ensures rows.Some? ==> rows.value == SortByRole(table) && error == ""
      ensures rows.None? ==> error == rejected[statement]
    {
      issued := issued + [statement];
      if statement in rejected {
        error := rejected[statement];
        rows := None;
      } else {
        error := "";
        rows := Some(SortByRole(table));
      }
    }

    /** `$conn->query($statement)` for an arbitrary read statement. */
    method Query(statement: string) returns (rows: Option<seq<Record>>)
      modifies this
      ensures issued == old(issued) + [statement] && table == old(table)
      ensures rows.Some? <==> statement !in rejected
      ensures rows.Some? ==> rows.value == answer(statement) && error == ""
      ensures rows.None? ==> error == rejected[statement]
    {
      issued := issued + [statement];
      if statement in rejected {
        error := rejected[statement];
        rows := None;
      } else {
        error := "";
        rows := Some(answer(statement));
      }
    }
  }
}
