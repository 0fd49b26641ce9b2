# DropPlus deposit ledger

A Dafny model of the deposit-accounting core of the DropPlus recycling
server (`server.js`). Kiosks post deposits (a school id, a bottle count and
the kiosk's credentials); the server turns each accepted deposit into
`bottle_count * POINTS_PER_BOTTLE` points for that school id and logs one
transaction. Clients read a user's summary, a leaderboard and a user's
transaction history; an admin key empties the log and zeroes every balance.

The two SQLite tables are modelled as one value, `Ledger.Tables`: a map from
school id to points (`users`), the transaction log as a sequence in id order
(`txs`), and the AUTOINCREMENT counter (`nextId`). `Server.Database` is the
object that holds them and changes them in place; its `Deposit` and
`AdminReset` methods are proved against the functions `Ledger.Credit` and
`Ledger.Zeroed`, and every handler is one atomic step on that state.

Modules, one per component:

- `json.dfy` (`Json`): the values a request field can hold and JavaScript truthiness on them.
- `config.dfy` (`Config`): the constants (10 points per bottle, the admin key, the 20/30 row limits, the error details) and the tagged `Result`/`Error` every handler returns in place of an HTTP status.
- `devices.dfy` (`Devices`): the device table and `authDevice`, including what JavaScript property lookup does with names inherited from `Object.prototype`.
- `ledger.dfy` (`Ledger`): the tables, the store invariant `Valid` (ids ascending and below the counter, rows well formed, no orphan rows, each user's points equal to the points logged for it), the effects of a deposit and of a reset, and the lemmas about them.
- `queries.dfy` (`Queries`): the user summary, the leaderboard and the history.
- `server.dfy` (`Server`): request validation and the `Database` class with the two writing handlers, plus three scenarios replayed on a fresh database.

Behaviours of the code worth noting:

- The history query answers an unknown school id with an empty list, while the user query answers NotFound (`Queries.HistoryOfUnknownUser`).
- The handlers run their statements in order under `db.serialize` and open no SQL transaction; the model treats each handler as one atomic step.
- The id counter survives a reset. SQLite's AUTOINCREMENT never reuses an id, so transactions logged after a reset still get ids above every earlier one.

## Model

| member | source | states |
|---|---|---|
| `Devices.Lookup` | server.js:47 | indexing the device table yields the registered key for a registered device id, an inherited entry (no `api_key`) for a name inherited from `Object.prototype`, and nothing otherwise |
| `Devices.AuthDevice` | server.js:46-48 | authorisation holds exactly for the pair ("BIN-01", "BIN01SECRET"), or for an inherited property name together with a missing key |
| `Devices.GuardedAuthIsRegistry` | server.js:62 | with both credentials truthy, as the deposit handler requires, authorisation holds exactly when the device is registered and the key is its key |
| `Devices.UnguardedAuthAcceptsInherited` | server.js:46-48 | without the handler's guard, `authDevice("constructor", undefined)` holds although no such device is registered |
| `Server.ValidateDeposit` | server.js:54-64 | checks run in order: an empty or non-string school id gives InvalidRequest("Missing school_id"); then a non-integer or non-positive count gives InvalidRequest("bottle_count must be integer > 0"); then an unregistered device or wrong key gives Unauthorized; an accepted deposit carries the request's non-empty school id, positive count and registered device |
| `Server.Database.constructor` | server.js:20-40 | a new database has no users, no transactions, the first id 1, and satisfies the store invariant |
| `Server.Database.Deposit` | server.js:51-97 | a rejected request returns the validation error and leaves both tables unchanged; an accepted one makes the state `Credit(old state, ...)`, keeps the invariant, and returns `points_added = bottle_count * 10` and a total equal to the previous points (0 for a new user) plus `points_added` |
| `Server.Database.AdminReset` | server.js:167-180 | a key other than "RESET123" returns Unauthorized and changes nothing; the right key makes the state `Zeroed(old state)` and keeps the invariant |
| `Server.RepeatedDepositScenario` | server.js:51-97 | five bottles from BIN-01 for S1 earn 50 points and a total of 50; the same deposit again gives a total of 100 |
| `Server.RefusalScenario` | server.js:58-64 | a deposit of 0 bottles is an InvalidRequest, a wrong API key is Unauthorized, and the summary of an unknown id is NotFound |
| `Server.ResetScenario` | server.js:169-180 | after a wrong admin key the user still has 50 points and 5 bottles; after the right key it has 0 and 0 and is still listed |
| `Ledger.Filter` | server.js:153-155 | the rows kept are exactly the log rows of the given school id, and they stay in ascending id order |
| `Ledger.BottlesOfFiltered` | server.js:107-109 | a user's `bottles_total` is the sum of `bottle_count` over that user's own transactions, 0 when there are none |
| `Ledger.PointsAreBottlesTimesRate` | server.js:66 | over well-formed rows, the points logged for a user are 10 times the bottles logged for it, and neither is negative |
| `Ledger.Reconciled` | server.js:66-81 | in a valid store every user's points equal 10 times the bottles of its transactions, and are non-negative |
| `Ledger.NoOrphans` | server.js:70 | in a valid store a school id with no user row has no bottles and no points logged |
| `Ledger.CreditKeepsValid` | server.js:68-81 | a deposit of a positive count keeps the store invariant, including the reconciliation of every user's points |
| `Ledger.CreditEffect` | server.js:70-75 | a deposit adds the user if absent without overwriting an existing one, raises its points by `bottle_count * 10` and its bottles by `bottle_count`, and leaves every other user's points and bottles unchanged |
| `Ledger.CreditAppendsFreshRow` | server.js:32 | a deposit appends exactly one row `(nextId, school_id, bottle_count, points_added, device_id)` after the untouched earlier rows, with an id above every earlier id and below the new counter |
| `Ledger.CreditAllAccumulates` | server.js:73-75 | deposits of counts b1..bn for one school id, applied one after another, raise its points by `10 * (b1 + ... + bn)` and the log by n rows: no update is lost |
| `Ledger.ZeroedEffect` | server.js:175-178 | a reset keeps the invariant, empties the log, keeps exactly the same users with 0 points and 0 bottles, and keeps the id counter |
| `Queries.UserSummary` | server.js:123-144 | NotFound exactly when the school id has no user row; otherwise the user's points and the sum of `bottle_count` over its transactions |
| `Queries.SummaryReconciled` | server.js:128-137 | in a valid store a found summary has points equal to 10 times its `bottles_total`, both non-negative |
| `Queries.RowsOf` | server.js:108-110 | the grouped rows hold each given user exactly once, with its own points and bottles |
| `Queries.Insert` | server.js:111 | inserting a row into a ranked list gives a ranked list whose multiset of rows is the old one plus the new row |
| `Queries.Sort` | server.js:111 | the result is ordered by `bottles_total` descending, then points descending, is a permutation of the input (same multiset of rows) and keeps ids distinct |
| `Queries.Leaderboard` | server.js:100-120 | the leaderboard has min(20, number of users) rows, is ordered by `bottles_total` then points descending, lists no user twice, and each row is that user's own summary |
| `Queries.LeaderboardKeepsTheBest` | server.js:111-112 | a user left off the leaderboard implies more than 20 users, and every listed row ranks at least as high as that user |
| `Queries.History` | server.js:148-165 | the history holds only transactions of the given school id taken from the log, ids strictly descending, min(30, that user's count) of them |
| `Queries.HistoryKeepsTheNewest` | server.js:156-157 | a transaction of the user is listed, or the user has more than 30 and it is older than every listed one |
| `Queries.SummaryAfterCredit` | server.js:70-75 | after a deposit the user's summary shows the previous points (0 for a new user) plus `bottle_count * 10` and the previous bottles plus `bottle_count` |
| `Queries.HistoryAfterCredit` | server.js:78-81 | after a deposit the user's history is non-empty and starts with the row just logged |
| `Queries.HistoryOfUnknownUser` | server.js:148-163 | in a valid store the history of a school id with no user row is empty, not an error |
| `Queries.QueriesAfterReset` | server.js:175-178 | after a reset every user's summary is 0 points and 0 bottles, every history is empty and every leaderboard row is zero |

## Left out

- HTTP routing, JSON body parsing, status codes and the static file server (server.js:43) are left out. Handlers return `Config.Result` values instead: InvalidRequest, Unauthorized, NotFound, Ok.
- Server start-up, `app.listen` and console logging (server.js:183-188) are left out; they are I/O.
- The SQLite connection and schema creation (server.js:18-40) are replaced by the abstract `Ledger.Tables` value. The database file survives restarts; the model starts from an empty store.
- Storage-engine failures and the "DB error" answers (server.js:87, 116, 140, 161) are left out. They depend on the engine, so every operation is modelled as succeeding.
- Concurrent requests and the interleaving of statements under `db.serialize` (server.js:68, 175) are left out. Each handler is one atomic step.
- The `created_at` columns (server.js:26, 37) are left out; they come from the database clock.
- The `name` column (server.js:24) is left out. No code path writes it, so it is always NULL in every answer.
- `Devices.Lookup`: a `device_id` that is an array or object is treated as unknown. JavaScript would turn a one-element array into its element's string when it indexes the table, so `["BIN-01"]` would find the device. An object `device_id` whose `toString` and `valueOf` yield no primitive value (such as `{"toString": 1}`) makes the lookup at server.js:47 throw a TypeError, and the handler then answers 500 rather than 401; the model answers Unauthorized.
- `Server.Database.Deposit`: bottle counts and points are unbounded integers. JavaScript numbers lose precision above 2^53, and SQLite integers are 64 bits wide.
- `Queries.Leaderboard`: rows tied on both `bottles_total` and points come in an order the model leaves open, as the SQL does. The leaderboard is a ghost function, since that order is chosen by `:|`.
