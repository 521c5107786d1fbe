# Report functions of the optical-power dashboard, modelled in Dafny

This project models `php_drafts/rep_functions.php`, the two routines behind the
dashboard's report pages:

- `my_input($conn, $input)` runs one ad-hoc read statement. If the server refuses
  it (`query` returns `false`), the routine dies with the server's message. Otherwise it echoes each returned
  row as `print_r` renders it, each followed by `<br>`.
- `my_edit_items($conn, $posted)` echoes the table header. When `newrole` was
  posted and is truthy in PHP's sense, it sends the role UPDATE for the posted
  `itemid`. It then sends `SELECT itemid, host, role FROM def ORDER BY role` and echoes
  one row per result row: the three cells, then an edit form that posts
  `newrole` with the row's itemid hidden. It closes with
  `Total: n items`. Any refused statement (`query` returns `false`) ends the request in `die`.

Modules:

- `Items` holds the table `def`:
  - a `Row` has itemid, host and role;
  - `SetRole` is the effect of the UPDATE;
  - `SortByRole` is the order the server returns rows in for `ORDER BY role`. It is a stable insertion sort, proved sorted and a permutation.
- `Db` holds the `Connection` class. It stores the table, `$conn->error` and the log of statements sent. The server's refusals are a map from statement to error message.
- `Php` holds the response body (`Page`, whose `Echo` appends), `$posted[...]` read as text, and PHP truthiness.
- `Html` holds the echoed fragments, built by raw concatenation as the PHP builds them. It also holds reference parsers (`ParseListing`, `ParseDumps`) that read a fragment back. The round-trip lemmas state the output's shape through these parsers.
- `RepFunctions` holds:
  - the specification functions `EditItems`, `ListItems` and `AdHoc` (what a request does to the table, which statements it sends, how it ends);
  - `Shown`, the text a request echoes;
  - the imperative routines `MyEditItems`, `ListRows`, `EchoEach` and `MyInput`, proved against those functions;
  - the lemmas that state what a request promises.

`die($conn->error)` is modelled as echoing the message and returning
`Died(message)`. The caller's request ends there: no later statement is sent and
nothing more is echoed. `$conn->error` is the refused statement's message, and "" after a statement the server accepted.

## Model

| member | source | states |
|---|---|---|
| RepFunctions.MyEditItems | php_drafts/rep_functions.php:21-65 | Final table, the statements appended to the log, the echoed text and the outcome are exactly those of `EditItems` on the prior table and the posted form. `error` ends as the message the request died with, or "". |
| RepFunctions.ListRows | php_drafts/rep_functions.php:36-63 | Sends the listing SELECT and leaves the table alone. A refused SELECT dies with the server's message and echoes only that message. Otherwise it echoes one row per sorted row and then the total for the table's size. `error` ends as the message it died with, or "". |
| RepFunctions.EchoEach | php_drafts/rep_functions.php:44-60 | The row loop echoes each result row's markup once, in result order, and nothing else. |
| RepFunctions.MyInput | php_drafts/rep_functions.php:4-19 | Sends `$input`, taken to be a read, and leaves the table alone. The echoed text and outcome are those of `AdHoc`: the server's message when refused, otherwise each row's dump followed by `<br>`. `error` ends as the message it died with, or "". |
| RepFunctions.AdHocShape | php_drafts/rep_functions.php:6-15 | `my_input` dies iff the server refuses the input, and then echoes only the message. Otherwise the output reads back as exactly one dump per returned row, in order. |
| RepFunctions.EditTrigger | php_drafts/rep_functions.php:28-34 | The UPDATE is sent first iff `newrole` was posted and is neither "" nor "0". Otherwise only the SELECT is sent and the table is untouched. |
| RepFunctions.EditScope | php_drafts/rep_functions.php:28-34 | Only `role` changes, and only on rows whose itemid equals the posted one, and only when the UPDATE was sent and accepted. Every itemid and host, and every other row, is kept. |
| RepFunctions.UpdateBeforeSelect | php_drafts/rep_functions.php:28-44 | A completed request with an edit sent the UPDATE and then the SELECT, in that order, and lists the table as the UPDATE left it. Without an edit it sent only the SELECT over the unchanged table. |
| RepFunctions.DieStopsRequest | php_drafts/rep_functions.php:22-42 | A request dies iff a statement it sends is refused, and the message it dies with is one the server gave. A refused UPDATE leaves the table as it was and the SELECT is never sent. (That the page then holds the header and that message comes from `MyEditItems`' ensures through `Shown`.) |
| RepFunctions.ListingShape | php_drafts/rep_functions.php:36-63 | A completed page reads back as the header, then one row per item in role order (a permutation of the table, each row with its own cells and a form bound to its itemid), then a total equal to the number of items. |
| RepFunctions.ReadAfterWrite | php_drafts/rep_functions.php:28-60 | After a completed edit of an existing itemid, the page lists that item with its host and the new role. Every listed row with that itemid shows the new role. |
| RepFunctions.NoOpEdit | php_drafts/rep_functions.php:28-34 | An accepted edit of an itemid absent from the table leaves the table, the page and the outcome as a request with no edit would. |
| RepFunctions.RelistIdempotent | php_drafts/rep_functions.php:36-63 | A request without an edit changes nothing, so repeating it sends the same statement and gives the same page. |
| RepFunctions.EmptyTable | php_drafts/rep_functions.php:22-63 | With no items, a completed request echoes the header, no row, and `Total: 0 items`. |
| RepFunctions.ScenarioListing | php_drafts/rep_functions.php:36-63 | Items 1 (host-a, core) and 2 (host-b, edge) are listed core first, then edge, and the total is 2. |
| RepFunctions.ScenarioEdit | php_drafts/rep_functions.php:28-63 | Posting newrole=core for itemid 2 sends the UPDATE and then the SELECT. Both rows then list role core, in table order, with the total still 2. |
| Db.Connection.Update | php_drafts/rep_functions.php:29-33 | Logs the statement. If it is accepted, the table becomes `SetRole` of the role and itemid it carries and `error` is "". If it is refused, the table is kept and `error` holds the server's message. |
| Db.Connection.SelectItems | php_drafts/rep_functions.php:36-42 | Logs the statement and keeps the table. Returns the rows in `ORDER BY role` order, with `error` set to "", unless refused, in which case `error` holds the message. |
| Db.Connection.Query | php_drafts/rep_functions.php:6-7 | For a read statement: logs it and keeps the table. Returns the server's rows for it, with `error` set to "", unless refused, in which case `error` holds the message. |
| Php.Page.Echo | php_drafts/rep_functions.php:14 | `echo` appends its argument to the response body. |
| Items.SetRole | php_drafts/rep_functions.php:29-32 | The UPDATE keeps the length and every itemid and host. Role becomes the new role exactly on matching rows. |
| Items.SetRoleNoMatch | php_drafts/rep_functions.php:29-32 | An UPDATE whose itemid matches no row leaves the table unchanged. |
| Items.SetRoleIdempotent | php_drafts/rep_functions.php:29-32 | Applying the same UPDATE twice is the same as applying it once. |
| Items.LexLeReflexive | php_drafts/rep_functions.php:39 | The role order relates every role to itself. |
| Items.LexLeTotal | php_drafts/rep_functions.php:39 | Any two roles are comparable. |
| Items.LexLeTransitive | php_drafts/rep_functions.php:39 | The role order is transitive. |
| Items.SortedByRoleAt | php_drafts/rep_functions.php:39 | In a listing in role order, any earlier row's role is at most any later row's. |
| Items.InsertByRole | php_drafts/rep_functions.php:39 | Inserting a row into a role-ordered listing keeps it ordered and adds exactly that row. |
| Items.SortByRole | php_drafts/rep_functions.php:36-41 | The SELECT's rows are in non-decreasing role order and are a permutation of the table. |
| Items.PermutedRows | php_drafts/rep_functions.php:39-46 | A reordering of the table lists every row of it, and keeps each itemid's role. |
| Items.ListedAfterSetRole | php_drafts/rep_functions.php:29-46 | After updating an existing itemid, the sorted rows hold that item with its host and the new role, and every row with that itemid has the new role. |
| Text.NatToString | php_drafts/rep_functions.php:61 | The decimal text of `num_rows` is non-empty, all digits, and has no leading zero unless the number is 0. |
| Text.NatRoundTrip | php_drafts/rep_functions.php:61 | Reading the decimal text back gives the number. |
| Html.Listed | php_drafts/rep_functions.php:47-59 | The expected reading of the listed rows, which `ParseListing` is proved to produce: one entry per row, holding that row's cells and its itemid again as the form's hidden value. |
| Html.RowRoundTrip | php_drafts/rep_functions.php:47-59 | One row's markup reads back as its itemid, host and role cells and a form whose hidden itemid is the row's own. The reader stops exactly at the row's end. |
| Html.RowsRoundTrip | php_drafts/rep_functions.php:44-60 | The loop's rows read back as one entry per row, in order, up to the text that follows. |
| Html.TotalRoundTrip | php_drafts/rep_functions.php:61-63 | The closing line reads back as the number of rows. |
| Html.ListingRoundTrip | php_drafts/rep_functions.php:22-63 | The header, rows and total read back as one entry per row, in order, and a total equal to the number of rows. |
| Html.DumpsRoundTrip | php_drafts/rep_functions.php:10-15 | The dump lines read back as one dump per row, in order, and nothing else. |
| Html.PlainSorted | php_drafts/rep_functions.php:39 | Ordering the rows does not bring markup characters into any cell. |
| Html.ListedRoles | php_drafts/rep_functions.php:47-59 | A listed row reads back among the entries, and the itemid's role carries over to every entry with that itemid. |
| Html.ListedAfterEdit | php_drafts/rep_functions.php:28-59 | After an UPDATE of an existing itemid, the entries read back hold that item with the new role, and every entry with that itemid shows it. |

## Left out

- SQL is not executed or parsed. The statement text is built exactly as the PHP builds it and logged. `Update` receives the itemid and role beside the statement, standing for what the server reads from it.
- SQL injection through the spliced itemid or role, and HTML injection through cell values, are not modelled. The reference parsers are stated only for cell values with no `<` and no `"`, and only for `print_r` dumps with no `<` (`DumpsRoundTrip`, `AdHocShape`).
- MySQL's decoding of backslash sequences inside the double-quoted role literal is not modelled. The model stores the posted `newrole` text as it is, so `EditScope`, `ReadAfterWrite` and the listing describe the stored and listed role only for a role without `\`. With a `\` the server stores the decoded text, and a trailing `\` escapes the closing quote.
- PHP's "Undefined array key" warning for a `newrole` or `itemid` the form did not send is not modelled. `Posted` gives only the value: the missing field reads as null, which is falsy and concatenates as "". With `display_errors` on, the real page also carries the warning text after the header.
- RepFunctions.MyInput: `$input` is taken to be a read statement that returns a result set. A write sent through it would change `def` on the server, and `query` would then return `true`, so the loop is skipped and `$result->close()` is a fatal error. Neither effect is modelled. For every input, `MyInput` promises an unchanged table and, unless the server refuses the input, a `Completed` outcome.
- Db.Connection.Query: stands for a read only. It keeps the table for every statement, which a write would not.
- The UPDATE's `WHERE itemid = ...` comparison is modelled as string equality on the itemid text. MySQL's numeric conversion of the column and the value is not modelled.
- Items.SortByRole: MySQL's collation for `ORDER BY role` is replaced by character-code order. The order of rows with equal roles, which the SQL leaves to the server, is fixed as table order.
- `print_r` is a parameter (`dump`) from a row to its text, not a model of PHP's array printer.
- `data_seek` followed by `fetch_array` is modelled as indexing the result. `$result->close()` and `$result->free()` release resources and are not modelled.
- RepFunctions.DieStopsRequest: the failure paths assume mysqli error reporting is off, so that a refused statement makes `query` return `false`. Under the default of PHP 8.1 and later (`MYSQLI_REPORT_ERROR | MYSQLI_REPORT_STRICT`), a refused UPDATE (line 33), SELECT (line 41) or ad-hoc read (line 6) throws `mysqli_sql_exception` instead. `die` is then never reached, and the page does not end with the bare message. The same holds for `RepFunctions.AdHocShape`, `RepFunctions.ListRows`, `RepFunctions.MyInput` and `RepFunctions.MyEditItems`.
- `die` ends the PHP process. The model echoes the message and returns `Died`, and every caller stops there.
- Which statements the server refuses, and what it answers to an ad-hoc read, are fixed by the connection's `rejected` and `answer`. The server's own reasons for refusing (syntax, lost connection) are not modelled.
- `php_drafts/rep_html.php` (static page templates) is not part of this model.
- Output buffering and the page template wrapped around the fragment are not modelled. `Page` is the body text only.
- RepFunctions.ReadAfterWrite: it states that every listed row with the itemid shows the new role. It does not state that exactly one such row exists, because the table model does not enforce itemid uniqueness.

Points of the code's behaviour that the model keeps as written:

- The header is echoed before the UPDATE. A refused statement therefore leaves the header followed by the server's message, not the message alone.
- The total line is echoed without a surrounding `<tr>`, and its second cell is empty.
- Ascending `ORDER BY role` lists the "core" row before the "edge" row, as `ScenarioListing` proves.
- `my_input` echoes one `print_r` dump and one `<br>` per row, and no header or total.
