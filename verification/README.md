# Bolso Aberto — a Dafny model of the API's business rules and the dashboard's arithmetic

Bolso Aberto is a personal-finance web application. Users record income
(`entrada`) and expense (`gasto`) movements, organise expenses by category,
set a spending goal (`meta`) per category, and view a dashboard. The
dashboard shows:

- income, expense and balance cards;
- a doughnut chart of income against expenses;
- goal progress cards;
- a month-over-month comparison of spending by category.

Administrators can delete accounts and grant or revoke administrator rights.

This project models two things:

- The rules the Express server applies (`beckend/server.js`). The PostgreSQL
  database is four in-memory tables: `usuarios`, `categorias`,
  `movimentacoes` and `metas`. Each handler is a pure function from the
  database, the caller and the request to a status and the database
  afterwards.
- What the browser page computes before drawing (`public/scripts/index.js`).

The modules are:

| module | file | content |
|---|---|---|
| `Common` | common.dfy | `Option`, HTTP status codes, JavaScript truthiness, JavaScript division (`Ext`: a real, `Infinity`, `-Infinity` or `NaN`), sums, a stable descending sort, distinctness |
| `Text` | text.dfy | decimal rendering, JavaScript `parseInt`, PostgreSQL's reading of an `integer` parameter, `split`/`join` on one character |
| `Store` | store.dfy | the tables, their integrity (`WellFormed`), the `WHERE` filters and the sums the queries compute |
| `Auth` | auth.dfy | `authenticateToken` and `adminOnly`, with token verification as an oracle |
| `Ledger` | ledger.dfy | update, delete, get and list of movements |
| `Reports` | reports.dfy | `GET /resumo` and `GET /resumo/comparativo` |
| `Goals` | goals.dfy | goal upsert, goal status, goal delete |
| `Admin` | admin.dfy | cascading user delete as one transaction; the admin flag |
| `Api` | api.dfy | each route behind its middleware chain |
| `Dashboard` | dashboard.dfy | chart totals, goal cards, comparison trends |
| `Forms` | forms.dfy | transaction form checks, the date-filter query string, currency text |

Modelling choices:

- **Amounts** are whole cents (`int`) and percentages are `real`. Nothing
  uses IEEE floating point.
- **Dates** are ordinals (`Date = int`), ordered like the ISO date strings
  they stand for.
- **Path ids** stay text. A route that hands the id to SQL reads it with
  `PgInt`, PostgreSQL's reading of an `integer`. Text that is not an
  integer, or is out of the 32-bit range, fails the statement and gives
  500.
- **`parseInt`**: the two admin routes apply JavaScript `parseInt` first,
  and the model does the same.
- **Body fields** are `Option`s. JavaScript's falsy values (`undefined`,
  `null`, `0`, `""`) are each distinguished explicitly.
- **Row order.** SQL promises no order beyond `ORDER BY`. So the listing and
  the comparison are specified as a sorted permutation of the rows they
  hold.
- **Comparison lines.** Every category name with an expense group in either
  month gets a line, including a name whose group sums to zero or less.
- **Comparison objects.** Each month's totals go into a plain JavaScript
  object, `{}`, keyed by category name. So the name `__proto__` never
  becomes a key: assigning a number to it is ignored. A name such as
  `constructor` or `toString` that has a group in one month only is read
  from the other month's object as an inherited function. Formatting that
  function throws, and the route answers 500.

## Model

| member | source | states |
|---|---|---|
| `Auth.Authenticate` | beckend/server.js:84-99 | 401 exactly when the header carries no token; 403 exactly when the verifier refuses the token; otherwise the request proceeds with the verified claims |
| `Auth.BearerToken` | beckend/server.js:85-86 | no header gives no token; an empty header gives the empty token; a non-empty header gives a token exactly when it contains a space, and the token is the text after the first space up to the next space or the end |
| `Auth.AdminOnly` | beckend/server.js:100-106 | proceeds exactly for a caller whose claims say administrator, with the same claims; otherwise 403 |
| `Auth.Gate` | beckend/server.js:84-106 | the middleware chain has three outcomes, each stated as an if-and-only-if: 401 (no token), 403 (refused token, or non-admin on an admin route), proceed with the verified claims |
| `Auth.BearerTokenRoundTrip` | public/scripts/index.js:6-17 | the token the page puts after `Bearer ` is exactly the token the server extracts |
| `Auth.HeaderWithoutSpaceIsUnauthorized` | beckend/server.js:85-90 | a non-empty header without a space, such as a bare `Bearer`, is answered 401 |
| `Auth.EmptyHeaderIsForbidden` | beckend/server.js:85-95 | an empty header is not a missing token: the empty string goes to the verifier and the answer is 403 |
| `Text.ParseIntShowInt` | beckend/server.js:467-470 | `parseInt` reads back every integer from its decimal text |
| `Text.ParseInt` | beckend/server.js:467-469 | `NaN` exactly when no digit follows the leading blanks, the sign and an optional `0x`; a negative result only after a `-` and a positive one only without it |
| `Text.ParseIntIgnoresTail` | beckend/server.js:527 | `parseInt` of decimal digits followed by other text (other than an `x` after a lone `0`) is the value of the digits alone |
| `Text.PgIntShowInt` | beckend/server.js:239-249 | the database reads back every 32-bit integer from its decimal text |
| `Text.PgInt` | beckend/server.js:239-249 | an accepted parameter is within the 32-bit range and is decimal digits after the blanks and the sign |
| `Text.PgIntAgreesWithParseInt` | beckend/server.js:527-535 | whenever the database accepts a parameter, `parseInt` reads the same number from it, so the self-check and the `UPDATE` agree on the id |
| `Text.PgIntRejectsTrailingText` | beckend/server.js:265-267 | an id with trailing non-blank text is not an integer to the database, although `parseInt` would accept it |
| `Text.SplitJoin` | beckend/server.js:86 | `split` undoes `join` when no piece contains the separator |
| `Store.RangeOf` | beckend/server.js:344-348 | the date interval applies exactly when both bounds are given, and it is the interval they name |
| `Store.Select` | beckend/server.js:350-358 | a filtered table holds exactly the rows that satisfy the `WHERE` conditions, and no more rows than the table |
| `Store.SelectKeepsMultiplicity` | beckend/server.js:350-358 | a filtered table holds each row that satisfies the `WHERE` conditions as many times as the table does, and the others not at all |
| `Ledger.CheckMovBody` | beckend/server.js:219-234 | rejects (400) exactly when kind, amount or date is falsy, or when an expense has no category; otherwise an income is stored with a null category, an expense with its own, and a falsy detail as null |
| `Ledger.UpdateMovimentacao` | beckend/server.js:211-259 | in order: 400 on validation, 500 when the id is not an integer, 404 when the caller owns no row with that id, each with no change; on 200 exactly the caller's row with that id takes the new values and nothing else changes |
| `Ledger.DeleteMovimentacao` | beckend/server.js:260-278 | 204 exactly when the caller owns a row with that id; that row goes and every other row stays; otherwise 404 or 500 with no change |
| `Ledger.GetMovimentacao` | beckend/server.js:312-332 | 200 exactly when the id is an integer and the caller owns a row with it, and then returns such a row; 404 exactly when the caller owns none, even if another user's row has that id; 500 when the id is not an integer |
| `Ledger.JoinCategory` | beckend/server.js:297-300 | a listed row keeps id, kind, amount, detail and date; when the stored category exists its id and name are shown, and both are null when there is no category or none matches |
| `Ledger.JoinNamesEveryMatch` | beckend/server.js:297-300 | with the category ids unique, as the primary key makes them, the joined row carries the id and name of whichever category row matches the join condition |
| `Ledger.ListMovimentacoes` | beckend/server.js:280-311 | the listing is sorted newest first and is a permutation of the caller's joined rows within the interval |
| `Ledger.OtherUsersRowsUntouched` | beckend/server.js:239-249 | no update or delete by one user alters a row of another user |
| `Ledger.GetAfterUpdate` | beckend/server.js:239-325 | after a successful update, reading the same id gives the row with the new values |
| `Ledger.GetAfterDelete` | beckend/server.js:265-325 | after a successful delete, reading the same id gives 404 |
| `Ledger.UpdatePreservesWellFormed` | beckend/server.js:239-249 | an update keeps every integrity rule: it rewrites kind, category, amount, detail and date, never the id |
| `Ledger.DeletePreservesWellFormed` | beckend/server.js:265-267 | a delete keeps movement ids unique and every other integrity rule |
| `Reports.Resumo` | beckend/server.js:335-374 | `entradas` is the sum over the caller's income rows and `saidas` over the expense rows, within the interval only when both bounds are given; `saldo = entradas - saidas` |
| `Reports.ResumoIgnoresLoneBound` | beckend/server.js:344-348 | a single date bound gives the all-time summary |
| `Reports.ResumoSplitsAtDate` | beckend/server.js:352-359 | the summary of an interval is the sum of the summaries of its two halves |
| `Reports.ResumoIgnoresOtherUsers` | beckend/server.js:358 | adding other users' rows does not change a caller's summary |
| `Reports.Names` | beckend/server.js:395-410 | the groups are the distinct category names of the joined expenses, each once |
| `Reports.Growth` | beckend/server.js:424-430 | with a positive previous month, the growth is the percentage that takes last month's expense to this month's, and its sign says which month spent more; otherwise it is 100 when only this month has spending and 0 when neither has |
| `Reports.ComparativoRoute` | beckend/server.js:407-446 | 500 exactly when some name inherited by a plain object (`constructor`, `toString`, …) has an expense group in one month only; otherwise 200 with the lines of `Comparativo` |
| `Reports.Comparativo` | beckend/server.js:392-442 | one line per key of either month's object, that is per category name with a group in either month other than `__proto__` (union, no duplicates), each with both monthly totals and their growth, sorted by this month's expense, largest first |
| `Reports.ComparativoEmptyIffNoExpense` | beckend/server.js:392-419 | the comparison is empty exactly when neither month has an expense group other than one named `__proto__` |
| `Reports.ComparativoNewCategoryAndHead` | beckend/server.js:427-440 | a category with spending only this month shows 100% growth; the first line has the largest current expense |
| `Goals.UpsertMeta` | beckend/server.js:547-585 | 400 when the category or the amount is falsy (0 included); 200 and only that goal's amount changes when the caller has a goal for the category; otherwise 201 and exactly one goal is appended with a fresh id |
| `Goals.UpsertPreservesWellFormed` | beckend/server.js:557-580 | the upsert keeps at most one goal per user and category, and keeps goal ids unique |
| `Goals.UpsertTwiceKeepsLatest` | beckend/server.js:557-580 | two upserts on one category leave exactly one goal there, holding the second amount |
| `Goals.MetasStatus` | beckend/server.js:587-636 | one line per goal of the caller whose category exists (the query promises no order; the model keeps table order); each line carries the goal's id, category name and target, `gasto_atual` as the caller's all-time expense in that category, `progresso` as its percentage of the target (JavaScript division), and `ultrapassada` exactly when the expense exceeds the target |
| `Goals.MetasStatusExactlyCallerGoals` | beckend/server.js:592-608 | every line describes one of the caller's goals, and every goal of the caller whose category exists has a line: no other user's goal and no goal is missing |
| `Goals.DeleteMeta` | beckend/server.js:637-660 | 200 exactly when the caller owns a goal with that id, and only that goal goes; otherwise 404 or 500 and no change, even if another user has a goal with that id |
| `Goals.DeleteMetaPreservesWellFormed` | beckend/server.js:643-653 | deleting a goal keeps the goal table's integrity |
| `Goals.StatusAfterDelete` | beckend/server.js:637-660 | after a goal is deleted, no status line shows it |
| `Admin.DeleteUser` | beckend/server.js:465-518 | 400 exactly when `parseInt` gives `NaN`; 500 with no change for an id out of the 32-bit range, for a database fault in any statement that runs, for a failed `COMMIT`, and for a failed rollback on the not-found path (the catch block rolls back again); 404 with no change exactly when no user row was deleted and that rollback succeeds, whatever the fault planned for the `COMMIT` that then never runs; 200 exactly when the user existed and nothing that runs failed, and then the user, their movements and their goals are gone while every other row stays |
| `Admin.DeleteUserAllOrNothing` | beckend/server.js:476-512 | whatever the outcome, the database afterwards is either the one before or the one with the whole cascade applied; on success nothing of the user remains |
| `Admin.DeleteUserPreservesWellFormed` | beckend/server.js:483-494 | the cascade keeps every integrity rule |
| `Admin.ToggleAdmin` | beckend/server.js:523-544 | 403 exactly when `parseInt` of the path is the caller's own id, with no change; 500 when the database cannot read the id; 404 when no user has it; on 200 only that user's admin flag changes |
| `Admin.ToggleAdminSelfForbidden` | beckend/server.js:527-529 | an administrator addressing their own id is refused, whatever flag is asked for |
| `Admin.ToggleAdminUndo` | beckend/server.js:523-544 | setting another user's flag, addressed by the decimal text of their id, succeeds; setting it back to its old value then succeeds and restores the database |
| `Admin.ToggleAdminPreservesWellFormed` | beckend/server.js:532-535 | changing a flag keeps every integrity rule |
| `Api.Handle` | beckend/server.js:465-523 | a request the middleware chain rejects gets the chain's status and changes nothing; any other request reaches its handler with the verified caller |
| `Api.Dispatch` | beckend/server.js:211-660 | each route reaches its own handler, acting for the caller the verified claims name (the writing routes give that handler's status and database, the reads its status); the read routes leave the database as it is, no route writes the categories, and only the administration routes change the users table |
| `Api.AdminRoutesNeedAdmin` | beckend/server.js:100-106 | without a verified administrator token, the admin routes answer 401 or 403 and change nothing |
| `Api.ReadsChangeNothing` | beckend/server.js:280-332 | the read routes never change the database |
| `Api.HandlePreservesWellFormed` | beckend/server.js:84-106 | no request, accepted or refused by the middleware chain, breaks the tables' integrity |
| `Api.DispatchPreservesWellFormed` | beckend/server.js:211-278 | every handler that writes (movement update and delete, goal upsert and delete, user delete, admin flag) keeps the tables' integrity |
| `Dashboard.ChartTotals` | public/scripts/index.js:113-126 | the chart's totals are the parsed amounts of the income rows and of the expense rows; rows whose amount is `NaN`, or of any other kind, add nothing |
| `Dashboard.ChartMatchesResumo` | public/scripts/index.js:268-283 | the chart drawn from the listing shows the server's `entradas` and `saidas` for the same dates |
| `Dashboard.Min100` | public/scripts/index.js:167 | the displayed progress never exceeds 100; it is 100 when the progress is above 100, and otherwise the progress itself (`NaN` included) |
| `Dashboard.RenderMeta` | public/scripts/index.js:164-186 | the bar is red exactly when the uncapped progress is above 100; "Resta" with the remaining amount exactly when it is not negative, else the excess as a positive amount |
| `Dashboard.CardMatchesStatus` | public/scripts/index.js:166-185 | for a positive target, the card is red and says "exceeded" exactly when the server reports the goal as exceeded |
| `Dashboard.Classify` | public/scripts/index.js:214-226 | a growth above 0.5 is worse, below -0.5 better, anything in between unchanged |
| `Dashboard.RenderComparativo` | public/scripts/index.js:199-226 | an empty list shows only the information message; otherwise one card per line, in order, with its trend |
| `Dashboard.TrendOfExpenses` | public/scripts/index.js:218-225 | in cents: worse exactly when 200·m1 > 201·m0, better exactly when 200·m1 < 199·m0; with no previous spending, worse exactly when anything was spent and never better |
| `Dashboard.ComparisonPanel` | public/scripts/index.js:205-208 | the panel shows the information message exactly when neither month has an expense group in an existing category (a group named `__proto__` aside); otherwise its first card has the largest current spending |
| `Forms.ValidateForm` | public/scripts/index.js:429-449 | rejects, in this order: no kind; an amount that is `NaN` or not above zero; a blank date; an expense without a category; an accepted payload carries a category exactly for an expense |
| `Forms.AcceptedFormPassesServer` | public/scripts/index.js:440-449 | everything the form accepts passes the server's update validation, with the selected category for an expense and none otherwise |
| `Forms.WithDates` | public/scripts/index.js:249-254 | the query string is added only when both dates are non-empty |
| `Forms.WithDatesRoundTrip` | public/scripts/index.js:252-253 | both dates come back from the address under their own names; with a date missing the address carries neither |
| `Forms.ApplyFilter` | public/scripts/index.js:669-681 | the filter button refuses exactly when a date is missing, and otherwise reloads the summary and the listing with both dates |
| `Forms.FilterSendsBothDates` | public/scripts/index.js:669-681 | an applied filter sends both dates to both routes |
| `Forms.FormatMoeda` | public/scripts/index.js:156 | `R$ `, a minus sign exactly for a negative amount, a decimal comma (never a point) and two decimals |
| `Forms.MoedaRoundTrip` | public/scripts/index.js:156 | the currency text reads back to the amount it shows |

## Left out

- `POST /movimentacoes` (beckend/server.js:194-210): its validation is elided and it uses variables that are never defined, so there is no behaviour to model.
- `/register`, `/login`, password hashing and token signing: library calls. Token verification is the `Verifier` oracle.
- `autenticarToken` (beckend/server.js:47-58): never called.
- `GET /categorias`, `GET /admin/usuarios` and `/admin/status`: plain reads with no rule beyond the middleware.
- CORS, the connection pool, acquiring and releasing clients, `app.listen` and logging: plumbing. A database error is modelled only for the user delete, as the `fault` parameter.
- A database error during the `ROLLBACK` in the catch block of the user delete (beckend/server.js:507): the error escapes the handler and no response is sent, so there is no status to model. The not-found rollback (line 495) is modelled: its failure reaches the catch block, and when the second rollback succeeds the answer is 500.
- Month boundaries of the comparison: they come from the server clock and `toISOString`. They are parameters (`mesAtual`, `mesAnterior`).
- `toFixed` and `parseFloat`: amounts are exact cents and percentages exact reals. Text of amounts written as exponents (above 10^21) is not modelled.
- Dashboard.TrendOfExpenses: relates the trend to the exact growth, while the page classifies the growth after the server has rounded it to one decimal (beckend/server.js:437). So a growth above 0.5 and below about 0.55 becomes `0.5` and is "unchanged" on the page, where the lemma says worse; and a growth below -0.5 and above about -0.55 becomes `-0.5` and is "unchanged" on the page, where the lemma says better.
- Concurrency: two simultaneous upserts of the same goal can both insert. The model runs requests one at a time.
- PostgreSQL's integer input beyond optional sign, decimal digits and surrounding blanks: not accepted by `PgInt`. PostgreSQL 16 and later also accept `0x`/`0o`/`0b` prefixes and underscores between digits. There, for a caller with id 10, the path `1_0` or `0b1010` is read by SQL as 10 while `parseInt` gives 1 or 0, so the self-check of toggle-admin (beckend/server.js:527) lets that caller change their own admin flag. `Admin.ToggleAdmin` cannot show this, and `Text.PgIntAgreesWithParseInt` holds only for the decimal reading modelled here.
- Foreign-key violations (an update naming a category that does not exist): not modelled. Categories are never written.
- Body fields of unexpected JSON types (an amount sent as non-numeric text, a date that is not a date): body fields are typed.
- `isAdmin` missing from the toggle body: the column would be set to null. The model takes a boolean.
- Order of listing rows with the same date, and of comparison lines with the same current spending: SQL and the engine's sort leave it open. Only sortedness and the permutation are stated.
- The choice between `POST` and `PUT` in the form handler: routing only. The checks before it are modelled.
- The tips table (`DICAS_FINANCEIRAS`), and all DOM, `fetch`, `localStorage`, Chart.js and `alert` code, together with `admin.js`, `login.js` and `cadastro.js`: static content and UI plumbing.
- Whitespace in `trim`: only ASCII blanks are modelled, not the Unicode spaces JavaScript also strips.
