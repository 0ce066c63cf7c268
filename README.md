# Regulatory report review service — session, review rules and tool helpers

This project models, in Dafny, the logic core of a demo service in which analysts review
regulatory reports filed by banks. It covers three pieces of the Python service:

* **The review service (`main.py`)**, as the class `Review.App`. The class holds the session state:
  * `active`, the in-memory set of active tokens;
  * `userSessions`, the token-to-identity map;
  * `persisted`, the `sessions` table.

  It also holds the users, banks, reports and error-comment tables, modelled as sequences of rows with their AUTOINCREMENT counters. The modelled request handlers are methods: log in, log out, add a comment, list reports by status, record a decision, and create, update or delete a bank. Each authenticated handler (all of them except log in and log out) first runs the bearer-token check `CheckAuth`, as the web framework does for a `Depends(check_auth)` parameter. `Valid()` is the class invariant:
  * every token in `user_sessions` is active;
  * the sessions table mirrors the active set;
  * ids are unique in the users, banks, reports and error-comments tables (their PRIMARY KEYs);
  * usernames and ABA codes are unique (their UNIQUE constraints);
  * the banks and error-comments AUTOINCREMENT counters are at or above every id in their tables.

  The pure parts are functions in `Records`: the status filter, the report listing joined with banks and ordered by date, the row effect of each UPDATE or DELETE, and the comment-thread split.
* **`format_as_markdown_table` (`sql_mcp_server.py`)**, as `SqlServer.FormatAsMarkdownTable`. This method has the source's loop and is proved equal to the function `MarkdownTable`. Lemmas prove the empty case, the exact line structure, and the cell counts.
* **The tool-server helpers (`utils_mcp_server.py`)**. The placeholder substitution `ToolServer.ReplacePlaceholdersInPath` is a loop proved against the left fold `Substitute`. The method dispatch of `call_api` is `ToolServer.CallApi`. It returns the request that would be sent, instead of sending it.

Python's `str.replace` is `Text.ReplaceAll`: non-overlapping replacement, scanning from the left. It serves both the `"Bearer "` stripping and the placeholder substitution. `str.split`, `str.join` and `str(int)` are in `Text` too. So is the BINARY ordering SQLite uses for the TEXT column `submission_date`.

Behaviours of the code worth knowing:

* Login tokens are random numbers with no freshness check. A token that collides with an active one overwrites that entry of `user_sessions`, and `Login`'s contract allows this.
* The comment thread of an error comes from a `GROUP_CONCAT` whose order the query does not fix. The model asserts no order among the comments. It states only the newline split and the NULL/empty case.
* Foreign keys are never enforced, because the connection never enables them. Reports may name missing banks, and comments may name missing errors or users. The listing's inner JOIN drops reports whose bank row is missing.
* A rejection is `is_accepted = false` AND `has_errors = true`. A decided-not-accepted report without errors matches none of the three filters (`Records.Matches`, `Records.MatchesExactlyDerived`).
* Python's `str.replace` can create a new placeholder while removing one. Substituting `"x"` for `"{x}"` in `"{{x}}"` leaves `"{x}"`, so "a value without the placeholder leaves none behind" is false in general. `ToolServer.NestedBracesLeavePlaceholder` proves this counterexample. `ToolServer.PlaceholderCleared` proves the property under a condition that rules out the counterexample: every `{` in the path opens the placeholder, and the value holds no `{`.
* In the Markdown table, a cell renders as `"NULL"` only when the row lacks the column. A column present with SQL NULL renders as `"None"`, which is Python's `str(None)`. Rows built by the query tool always have every column, so the query tool's tables never show `"NULL"` (`SqlServer.NullCells`).
* A token loaded from the sessions table at startup has no `user_sessions` entry. It passes `check_auth`, but commenting with it fails with 401 "Invalid session" (`Review.CommentAfterRestart`).

## Model

| member | source | states |
|---|---|---|
| `Review.App.CheckAuth` | main.py:78-84 | succeeds iff the header yields a non-empty token that is active; then it returns that token; otherwise it fails with 401 "Not authenticated" |
| `Review.HeaderToken` | main.py:79 | no token exactly for an absent or empty header; otherwise the token is never longer than the header, and is the header itself when it holds no "Bearer " |
| `Review.EndedTokens` | main.py:118-123 | the set `Logout` removes from each session store: exactly the header's token when it is non-empty, and nothing otherwise; removing a token that is not active changes nothing |
| `Review.BearerHeaderToken` | main.py:79 | a header `"Bearer " + t` yields token `t` whenever `t` holds no "Bearer " (every occurrence is removed) |
| `Review.BareHeaderToken` | main.py:79 | a header that is just the digits of a token is taken verbatim as the token |
| `Review.App.Startup` | main.py:45-51 | after start, the active set equals the sessions table and `user_sessions` is empty; the invariant holds |
| `Review.App.Login` | main.py:86-114 | succeeds iff a user row with that username exists and its password equals the one supplied; the token is the decimal string of a number in [100000000, 999999999] and has 9 digits; the token is added to the active set and the sessions table; `user_sessions[token]` holds the user's id, name and role with no websockets; the token then passes `CheckAuth` as `"Bearer " + token`; on failure it gives 401 "Invalid credentials" and changes no session state |
| `Review.App.Logout` | main.py:116-125 | removes the header's token from the active set, `user_sessions` and the sessions table when it is active, and otherwise changes nothing; afterwards the same header fails `CheckAuth`; `keys(user_sessions) ⊆ active` is preserved |
| `Review.LogoutTwice` | main.py:116-125 | two logouts with one header leave exactly the state one logout leaves (idempotence) |
| `Review.App.AddErrorComment` | main.py:215-235 | gives 401 "Not authenticated" for a failing token and 401 "Invalid session" for an active token without a `user_sessions` entry, adding nothing in either case; otherwise it appends exactly one comment, with the next id, the given error id and text, and the session's user id |
| `Review.CommentAfterRestart` | main.py:50-51 | a token reloaded from the sessions table after a restart authenticates, but its comment is refused with "Invalid session" |
| `Review.App.GetReportsByStatus` | main.py:161-186 | gives 401 before anything else and 400 for a status other than accepted/rejected/pending; otherwise it returns a newest-first permutation of exactly the reports of that status that join with a bank |
| `Review.App.UpdateReportStatus` | main.py:237-252 | after authentication, sets `is_accepted` on the rows with that id and leaves the rest; it succeeds even when no row has the id |
| `Review.App.CreateBank` | main.py:254-266 | gives 401, then KeyError for a missing `aba_code` or `name`, then an integrity error if the ABA code exists; otherwise it appends one bank with the next id; the banks table is unchanged on every failure |
| `Review.App.UpdateBank` | main.py:268-280 | after authentication and the key checks, fails on a UNIQUE conflict with another bank's ABA code when the row exists; otherwise it rewrites only that row; a missing id changes nothing and still succeeds |
| `Review.App.DeleteBank` | main.py:282-304 | with N > 0 reports naming the bank, gives 400 "Cannot delete bank. It has N associated report(s)." and the banks are unchanged; with N = 0 it removes exactly the rows with that id |
| `Review.CreateThenDelete` | main.py:254-304 | creating a fresh bank and then deleting it, with no report naming it, both succeed and give back the original banks table |
| `Review.RewriteKeepsKeys` | database.py:19-25 | an update that is not refused keeps bank ids and ABA codes unique |
| `Review.WithoutBankKeepsKeys` | database.py:19-25 | deleting bank rows keeps bank ids and ABA codes unique |
| `Records.FindUser` | main.py:93-96 | finds a row iff some user has that username (none for a missing username); the row found has that username |
| `Records.ParseStatus` | main.py:166-173 | accepts exactly "accepted", "rejected" and "pending", giving back the status with that name; every other string is 400 "Invalid status..." |
| `Records.ParseStatusName` | main.py:166-173 | each status's name parses back to that status |
| `Records.Matches` | main.py:166-171 | only the pending filter takes undecided reports; a report accepted matches exactly the accepted filter; a report decided not accepted without errors matches no filter |
| `Records.MatchesExactlyDerived` | main.py:166-171 | a report matches a filter iff that filter is its derived status: accepted iff `is_accepted` is true; rejected iff false with errors; pending iff unset; false without errors matches none |
| `Records.FindBank` | main.py:178-179 | the JOIN partner of a bank id is a bank with that id, and there is none only when no bank has that id |
| `Records.Selected` | main.py:175-182 | every listed row satisfies the status filter and comes from a report joined with its bank; every report that satisfies the filter and has a bank is listed |
| `Records.InsertByDate` | main.py:181 | inserting into a newest-first list keeps it newest-first and adds exactly that row |
| `Records.SortNewestFirst` | main.py:181 | the result is ordered by `submission_date` descending and is a permutation of the input |
| `Records.DecisionMovesOnlyTarget` | main.py:244-247 | after a decision on id X, report X's `is_accepted` is the decision and every other report's is unchanged; id, bank, report code, date and error flag are unchanged for every report; report X is then accepted (decision true), or rejected if it has errors (decision false), and never pending; no other report's filter membership changes |
| `Records.SetDecision` | main.py:244-247 | the table keeps its length; rows with that id get `is_accepted` set to the decision, and no other field of them changes; rows with any other id are unchanged |
| `Records.CountForBank` | main.py:288-291 | the count is zero iff no report names the bank |
| `Records.WithoutBank` | main.py:300 | a bank is kept iff it was there and has a different id |
| `Records.WithoutBankLookup` | main.py:300 | after the delete the id finds no bank, and every other id finds what it found before |
| `Records.RewriteBank` | main.py:273-276 | the update keeps the number of rows and each row's id |
| `Records.RewriteBankLookup` | main.py:273-276 | after the update the id finds the new code and name (if it existed), and every other id finds what it found before |
| `Records.CommentThread` | main.py:208 | NULL or empty gives no comments; otherwise the pieces hold no newline and joined with newlines give the concatenation back |
| `Records.CommentThreadRoundTrip` | main.py:196-208 | comments without newlines, concatenated with newlines and split, come back unchanged and in order |
| `Text.ReplaceAll` | utils_mcp_server.py:57 | `str.replace` with a replacement no longer than the pattern never lengthens the string, and with one of equal length keeps its length |
| `Text.ReplaceAllAbsent` | utils_mcp_server.py:57 | `str.replace` leaves a string without the pattern unchanged |
| `Text.ReplaceAllClears` | utils_mcp_server.py:54-57 | when the pattern's first character occurs in the string only where the pattern starts, and occurs neither in the rest of the pattern nor in the replacement, no occurrence remains |
| `Text.Split` | main.py:208 | `split('\n')` gives at least one piece, and no piece holds the separator |
| `Text.JoinSplit` | main.py:208 | joining the pieces of a split with the separator gives the string back |
| `Text.SplitJoin` | main.py:196-208 | splitting a join of separator-free pieces gives the pieces back |
| `Text.DecimalString` | main.py:99 | `str(n)` is a non-empty string of digits with no leading zero |
| `Text.DecimalRoundTrip` | main.py:99 | reading `str(n)` back gives `n`, so distinct draws give distinct tokens |
| `Text.DecimalLength` | main.py:99 | a number with k digits prints as k characters (9 for every login token) |
| `Text.DigitsAvoid` | main.py:79 | a digit string never contains "Bearer " |
| `Text.LexLeTotal` | main.py:181 | any two TEXT dates are ordered one way or the other |
| `Text.LexLeTransitive` | main.py:181 | the TEXT ordering is transitive |
| `SqlServer.FormatAsMarkdownTable` | sql_mcp_server.py:54-67 | the loop's output equals `MarkdownTable(data, columns)` |
| `SqlServer.NoDataExactly` | sql_mcp_server.py:56-57 | the output is "No data to display." iff the data or the columns are empty |
| `SqlServer.OutputLines` | sql_mcp_server.py:59-67 | with no newline in names or values, the output's lines are, in order: the header line over the column names; the separator line; one line per row in data order with one cell per column in column order; an empty line; `*N row(s) returned*` with N = len(data) |
| `SqlServer.TableLineBars` | sql_mcp_server.py:59-65 | a header or row line over n bar-free cells has exactly n + 1 bars, i.e. n cells |
| `SqlServer.SeparatorBars` | sql_mcp_server.py:60 | the separator line has exactly len(columns) `---` cells |
| `SqlServer.NullCells` | sql_mcp_server.py:64 | an absent column renders "NULL", a present SQL NULL renders "None", and text renders verbatim |
| `ToolServer.SubstituteOne` | utils_mcp_server.py:54-57 | a step is a no-op when the bare name is absent or when "{name}" is absent; it fails with KeyError(var_name) iff the name occurs and the key is missing |
| `ToolServer.ReplacePlaceholdersInPath` | utils_mcp_server.py:52-59 | the loop's result equals the in-order fold `Substitute` over the params (the path itself for an empty list) |
| `ToolServer.SubstituteSequential` | utils_mcp_server.py:53-57 | applying `ps + qs` is applying `ps`, then `qs` to the path it produced |
| `ToolServer.SubstituteTotal` | utils_mcp_server.py:55-57 | when every var_name has a value, substitution never fails |
| `ToolServer.PlaceholderCleared` | utils_mcp_server.py:54-57 | if every `{` in the path opens "{name}", the name has no braces and the value has no `{`, then no "{name}" remains after the step |
| `ToolServer.NestedBracesLeavePlaceholder` | utils_mcp_server.py:57 | on "{{x}}", replacing "{x}" by "x" leaves "{x}": a value without the placeholder does not always clear it |
| `ToolServer.CallApi` | utils_mcp_server.py:25-43 | accepts exactly "get", "post", "put" and "delete"; every other string, "GET" included, is ValueError "Unsupported HTTP method: ..."; the URL is base + path; only post and put carry the payload |
| `ToolServer.UpperCaseRejected` | utils_mcp_server.py:34-43 | "GET" is rejected |

## Left out

- The SQL engine: transactions, `CURRENT_TIMESTAMP` (`created_at` of comments and sessions), and the order of `GROUP_CONCAT`. Tables are sequences of rows, and AUTOINCREMENT is a counter kept above every id.
- Ids from the request path are taken to lie in SQLite's 64-bit INTEGER range. Outside it the sqlite3 driver raises OverflowError when binding the parameter, and nothing is written; that error path is not modelled, so `AddErrorComment`, `UpdateReportStatus`, `UpdateBank` and `DeleteBank` succeed for such ids.
- Foreign-key checks: the connection never enables them, so the model does not enforce them either.
- The listing endpoints `get_banks`, `get_reports` and `get_report_errors` beyond the newline split of the comment thread. Their ORDER BY and GROUP BY queries are plain SQL.
- Dates are compared as TEXT by character code. SQLite compares the UTF-8 bytes, which gives the same order.
- Boolean columns come back from the driver as the integers 0/1. The model uses `bool`.
- The WebSocket endpoint and its connection registry. `SessionInfo.websockets` is always empty in the model.
- The chat endpoint, the agent, and every LLM and tool-protocol client. These are calls into code outside the core.
- `execute_sql_query` and `get_database_schema`: raw database I/O. `Value` has no REAL or BLOB case.
- The HTTP request in `call_api`, `raise_for_status` and `.json()`. Also the printing, CORS, static files and server start-up, and `BASE_URL` being unset (it is a parameter here).
- Crashes between an in-memory update and the sessions-table write, concurrent requests, and the check-then-delete race in `delete_bank`. The model runs one request at a time.
- Request bodies are maps from strings to strings. Non-string JSON values and JSON null, which would hit a NOT NULL constraint, are not modelled.
- Text.ReplaceAll: an empty pattern is excluded, because both callers pass a non-empty one ("Bearer " and "{name}").
- Records.RewriteBank: its own contract states only the row count and the ids. The lemma `Records.RewriteBankLookup` states the new code and name, as seen through a lookup by id.
- ToolServer.SubstituteOne: parameter values are strings (`map<string, string>`). In the source, a value that is not a `str`, such as an integer id, makes `path.replace` raise TypeError when the name occurs in the path. That error path is not modelled.
- The seeding script, the stub tool server, and the record and schema files as behaviour. The last two supply only the row shapes and the UNIQUE/PRIMARY KEY invariants in `Review.Valid`.
