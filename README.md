# gaze-task `/save` ingestion, modelled in Dafny

The experiment server of gaze-task accepts one JSON submission per participant
on `POST /save`: a `summary` object and a trial sequence (`rounds`, or `trials`
as a fallback). It recomputes the number of completed decision trials on the
server and, when a Postgres database is configured, provisions the `gaze_logs`
table idempotently and appends one row. This project models that handler.

- `wrappers.dfy` — `Option` and `Result`.
- `js.dfy` (module `Js`) — a parsed JSON value with `Undefined` for a missing
  property, JavaScript truthiness, `||`, `??` and property reads.
- `ingest.dfy` (module `Ingest`) — the pure part: summary default, trial-value
  choice, participant/study/session ids, the aborted flag, the completed-trial
  count, user agent and client IP.
- `store.dfy` (module `Store`) — the `gaze_logs` table as a state (exists?,
  column set, rows). Each row maps columns to values. CREATE TABLE IF NOT
  EXISTS, ADD COLUMN IF NOT EXISTS and INSERT are transitions of that state.
  The class `Table` is the live table: its `Query` method changes its fields in
  place, one autocommitted statement at a time.
- `save.dfy` (module `SaveHandler`) — the control flow of one request: skip
  without a pool, else four awaited queries, each of which may fail. Also the
  reply (status and JSON body) and the lemmas about what a request does to the
  table.

Behaviour of the code that is easy to miss:
- The skip reply's key is `skip`.
- Only a *falsy* summary becomes `{}`. A truthy non-object summary (a string, a
  number, an array) is kept and stored as it is.
- A trial value that is present but not an array is kept and stored as it is,
  with count 0. `rounds` wins whenever it is not `null`/`undefined`, including
  `false`, `0` and `""`.
- An entry counts when it is truthy and its `phase` is exactly the string
  `"decision"`. `Ingest.IsDecisionMeansDecisionObject` shows that this is
  the same as "an object whose own `phase` is `"decision"`".
- Schema provisioning adds only `completed_trials` and `aborted`. If an older
  table lacks another insert column (say `ip`), every INSERT fails with status
  500. This failure is modelled (`NoSuchColumns`).
- The `try` block also covers normalisation, but for a parsed body nothing
  there can throw: the summary is always truthy before it is read, and an
  entry is read only after it passes the truthiness test. So the catch block
  sees only storage errors.
- Each query commits on its own. If a later query fails after CREATE TABLE or
  an ADD COLUMN succeeded, those schema changes stay. No row is added.

Inputs that stand in for the environment: `Request` (body, query, lower-case
headers, the socket's remote address), the optional pool (`Table?`, `null`
when `DATABASE_URL` is empty) and a `Fault` that says which of the four queries
the database rejects, and with what message.

## Model

| member | source | states |
|---|---|---|
| `Js.Get` | server.js:37-38 | A property read yields a value only for an object's own field; every non-object (including null and undefined under `?.`) yields `undefined` |
| `Js.Or` | server.js:39-41 | `a || b` is truthy exactly when either operand is; it returns `a` when `a` is truthy, else `b` |
| `Js.Coalesce` | server.js:38 | `a ?? b` returns `a` unless `a` is null or undefined, and is nullish only if `b` is |
| `Js.Truthy` | server.js:37-48 | definition of JavaScript truthiness used by every `||`, `!!` and `&&` of the handler; properties in `Js.Or` |
| `Js.Nullish` | server.js:38 | definition of the values `??` skips; properties in `Js.Coalesce` |
| `Js.GetThroughDefault` | server.js:37 | Reading a property through `x || {}` reads the same value as reading it through `x` |
| `Ingest.SummaryOf` | server.js:37 | The summary read afterwards is always truthy (so `summary.x` cannot throw); it is the body's summary when truthy and `{}` otherwise |
| `Ingest.TrialsOf` | server.js:38 | The trial value is never nullish; it is `rounds` whenever that is present and not null, else `trials` when that is, else `[]` |
| `Ingest.FalsyRoundsAreKept` | server.js:38 | `rounds: false` beside a `trials` of decisions gives count 0: `??` keeps falsy values, unlike `||` |
| `Ingest.TrialsFallback` | server.js:38 | With `rounds` omitted and `trials = [{phase:"decision"}]` the count is 1 |
| `Ingest.ParticipantId` | server.js:39 | The id is truthy or null; it is the summary's `prolific_pid` if truthy, else the query's `PROLIFIC_PID` if truthy, else null |
| `Ingest.QueryId` | server.js:40-41 | Study and session ids are the query value when truthy, else null |
| `Ingest.ParticipantFromRequest` | server.js:37-39 | Stated on the raw request: the precedence summary, then query, then null holds through the `{}` default |
| `Ingest.ParticipantPrecedence` | server.js:39 | Summary id "A" beats query "B"; without it "B" is used; without both the id is null |
| `Ingest.AbortedFromRequest` | server.js:37-44 | The flag is true exactly when the body's or the raw summary's `aborted` is truthy; the `{}` default contributes nothing |
| `Ingest.IsDecisionMeansDecisionObject` | server.js:48 | An entry passes the filter iff it is an object whose own `phase` is exactly the string "decision" |
| `Ingest.DecisionTrials` | server.js:48 | The filter keeps every decision entry with its multiplicity and no other entry, in their original order (a subsequence), so it is no longer than its input |
| `Ingest.CountCompleted` | server.js:47-49 | The count is 0 for a value that is not an array and at most the array's length otherwise |
| `Ingest.DecisionTrialsAppend` | server.js:48 | Filtering a concatenation is concatenating the filtered parts |
| `Ingest.CountCompletedPositions` | server.js:47-49 | The count equals the number of positions holding a decision entry |
| `Ingest.CountCompletedExtremes` | server.js:47-49 | The count is the length iff every entry is a decision, and 0 iff none is |
| `Ingest.CountIgnoresOtherFields` | server.js:46-49 | Changing any body field other than `rounds`/`trials` (a client-supplied count included) leaves the count unchanged |
| `Ingest.Normalize` | server.js:37-49 | The normalised summary is truthy, the trial value is never nullish, the ids are truthy or null, and the count is the count of the trial value |
| `Ingest.FirstSegment` | server.js:99 | `split(',')[0]` is a comma-free prefix of the header that ends at its end or at a comma |
| `Ingest.FirstSegmentUnique` | server.js:99 | Those three properties determine the segment uniquely |
| `Ingest.ClientIp` | server.js:99 | The IP is never empty; it is the header's first segment when non-empty, else the socket address when a non-empty string, else null |
| `Ingest.ClientIpCases` | server.js:99 | An absent, empty or comma-led header falls back to the socket address; a header without a comma is taken whole, untrimmed |
| `Ingest.Param` | server.js:39-41 | definition of `req.query.NAME`; properties in `Ingest.QueryId` and `Ingest.ParticipantId` |
| `Ingest.IsDecision` | server.js:48 | definition of the filter callback `r && r.phase === 'decision'`; properties in `Ingest.IsDecisionMeansDecisionObject` |
| `Ingest.IsSubsequence` | server.js:48 | definition: an order-preserving selection of entries; used by `Ingest.DecisionTrials` |
| `Ingest.CountCompletedSnoc` | server.js:47-49 | Appending one entry raises the count by one exactly when it is a decision |
| `Ingest.DecisionIndicesSnoc` | server.js:47-49 | Appending one entry adds its position to the decision positions exactly when it is a decision |
| `Ingest.Header` | server.js:98-99 | definition of `req.headers[name]`, `undefined` when absent; properties in `SaveHandler.UserAgentCell` and `Ingest.ForwardedForIsOr` |
| `Ingest.RemoteValue` | server.js:99 | definition of `req.socket.remoteAddress`; properties in `SaveHandler.IpCell` |
| `Ingest.ForwardedFor` | server.js:99 | definition of `req.headers['x-forwarded-for'] || ''`; properties in `Ingest.ForwardedForIsOr` |
| `Ingest.ForwardedForIsOr` | server.js:99 | The string encoding of the header equals `header || ''` under JavaScript truthiness: absent and empty both read as `""` |
| `Ingest.UserAgentOf` | server.js:98 | The user agent is the header when present and non-empty, else absent; its agreement with `|| null` is `SaveHandler.UserAgentCell` |
| `Store.ColumnDefault` | server.js:68-79 | definition of the column defaults: `aborted BOOLEAN DEFAULT FALSE` gives false, every other column (`completed_trials INT` included) null; properties in `Store.EnsuredSchemaProvides` |
| `Store.Created` | server.js:57-71 | definition of CREATE TABLE IF NOT EXISTS; properties in `Store.EnsuredSchemaProvides` |
| `Store.WithColumn` | server.js:73-80 | definition of ADD COLUMN IF NOT EXISTS; properties in `Store.EnsuredSchemaProvides` and `Store.EnsuredSchemaNoop` |
| `Store.Exec` | server.js:57-105 | definition of what one statement does; properties in `Store.ExecPreservesWellFormed` and `Store.ExecKeepsRows` |
| `Store.Step` | server.js:57-110 | definition of one query that may be rejected before it commits, then without effect; properties in `Store.Table.Query` |
| `Store.EnsuredSchema` | server.js:57-80 | definition of the three schema statements in order; properties in `Store.EnsuredSchemaProvides`, `Store.EnsuredSchemaIdempotent` |
| `Store.NewRow` | server.js:82-93 | An inserted row has a cell for exactly the table's tracked columns |
| `Store.ExecPreservesWellFormed` | server.js:57-105 | Every statement keeps the table well formed: rows have exactly the table's tracked columns |
| `Store.ExecKeepsRows` | server.js:57-105 | Only INSERT adds a row (exactly one); no statement alters or removes an existing cell |
| `Store.EnsuredSchemaProvides` | server.js:57-80 | After provisioning the table exists with `completed_trials` and `aborted`: a new table has all eleven columns; an old one keeps its rows and cells, and new cells hold the column default |
| `Store.EnsuredSchemaNoop` | server.js:57-80 | On a table with the current schema, provisioning changes nothing |
| `Store.EnsuredSchemaIdempotent` | server.js:57-80 | Provisioning twice equals provisioning once |
| `Store.InterruptedSchema` | server.js:57-80 | Provisioning stopped after one or two statements keeps every row and cell, and a later complete run reaches the same state |
| `Store.EnsuredTimesIsOnce` | server.js:57-80 | Any positive number of provisioning runs equals one run |
| `Store.Table.Query` | server.js:57-105 | A failing query changes nothing and reports its error; otherwise the live table becomes what the statement specifies, or stays unchanged with the statement's error |
| `SaveHandler.Status` | server.js:53-110 | definition: 200 for `res.json`, 500 from the catch block; properties in `SaveHandler.ReplyShape` |
| `SaveHandler.ErrorText` | server.js:110 | definition of `String(e)` for the errors the model tells apart: the injected message, or a fixed description of a missing table or column; used by `SaveHandler.Body`, whose `error` field `SaveHandler.ReplyShape` places |
| `SaveHandler.Body` | server.js:53-110 | definition of the three JSON replies; properties in `SaveHandler.ReplyShape` |
| `SaveHandler.ReplyShape` | server.js:51-110 | The reply is an object whose `ok` is true exactly on status 200; `completedTrials` is absent only on failure, `skip` is present only on the skip path, `error` only on failure |
| `SaveHandler.RecordOf` | server.js:94-104 | The INSERT binds a value to exactly its nine columns |
| `SaveHandler.RecordCellsDefined` | server.js:94-104 | No bound value is undefined, and the two JSONB values are never null |
| `SaveHandler.OrNull` | server.js:98-99 | definition of an optional string as a nullable cell; its agreement with `|| null` is `SaveHandler.UserAgentCell` and `SaveHandler.IpCell` |
| `SaveHandler.UserAgentCell` | server.js:98 | The stored `user_agent` is `req.headers['user-agent'] || null` under JavaScript truthiness |
| `SaveHandler.IpCell` | server.js:99 | The stored `ip` is `split(',')[0] || req.socket.remoteAddress || null` under JavaScript truthiness |
| `SaveHandler.Statements` | server.js:57-105 | definition of the four queries in order; properties in `SaveHandler.RunClosedForm` |
| `SaveHandler.Run` | server.js:57-110 | definition of awaiting the queries with a stop at the first failure; properties in `SaveHandler.RunClosedForm` |
| `SaveHandler.Save` | server.js:56-110 | definition of the table and reply with a pool; properties in `SaveHandler.SaveClosedForm` and the lemmas after it |
| `SaveHandler.RunClosedForm` | server.js:57-105 | The four queries run in order; the first failure stops them and keeps earlier effects; the INSERT fails on missing columns and otherwise appends exactly the record |
| `SaveHandler.SaveClosedForm` | server.js:56-110 | A request's new table and reply, case by case: which query failed, missing columns, or success with the record appended |
| `SaveHandler.SaveSucceeds` | server.js:82-107 | A request is saved iff no query fails and the provisioned table has all insert columns; it then appends exactly its record and acknowledges the recomputed count |
| `SaveHandler.FirstSaveCreatesTable` | server.js:57-107 | On a database without the table, a fault-free request creates the full table holding only its record |
| `SaveHandler.RunKeepsHistory` | server.js:57-105 | The four queries keep the table well formed and every existing cell; a run reporting an error adds no row and leaves a table that provisioning completes as before |
| `SaveHandler.SaveKeepsHistory` | server.js:57-110 | Any request keeps the table well formed and every existing cell; unsaved requests add no row and change nothing a later provisioning would not |
| `SaveHandler.FailureDoesNotCorrupt` | server.js:57-110 | After any request, failed or not, a later fault-free request succeeds exactly when it would have before |
| `SaveHandler.RepeatedSaveAppendsTwice` | server.js:82-107 | The same request saved twice adds two identical rows: there is no deduplication |
| `SaveHandler.HandleSave` | server.js:35-112 | Without a pool nothing is stored and the reply is the skip acknowledgement with the recomputed count; with one, the table and reply are those `Save` specifies |

## Left out

- Express setup, compression, body parsing and its size limit, `trust proxy`
  (server.js:19-25): this is middleware configuration. The parsed body is an
  input of the model.
- Static files, `/health` and the single-page fallback route (server.js:28-31,
  114-118): file serving and the clock, with no domain logic.
- Pool construction and `DATABASE_URL` reading (server.js:7-17), and
  `app.listen` (server.js:120-123). These are connection pooling and process
  lifecycle. The model has only "pool present" (a `Table`) or absent (`null`).
- The SQL text, the values of `id` (BIGSERIAL) and `created_at` (NOW()), and
  JSONB type checking. The two server columns are in the column set, but their
  cells are not tracked.
- `JSON.stringify` of summary and rounds: the JSON value itself is stored.
  How node-postgres turns a non-string id into TEXT is not modelled either.
- `console.error` and the exact text of `String(e)`. The reply carries the
  injected message for a failed query. For the two database errors the model
  tells apart, `ErrorText` gives a fixed description, not the driver's text.
- Concurrency between requests and the awaiting itself. Each request is
  modelled as running its four queries one after another, with no other
  request in between.
- JSON numbers are integers. `NaN`, `-0` and fractional numbers are not modelled;
  a JSON body cannot hold `NaN`, and every fractional number is truthy, as any
  non-zero integer is.
- Property reads find only an object's own fields. A key that
  `Object.prototype` defines is never read by the handler.
- SaveHandler.SaveSucceeds: the count is an unbounded `nat`, while
  `completed_trials` is a 32-bit `INT` (server.js:68, 75). A count above
  2147483647 would make Postgres reject the INSERT (status 500), but the model
  says it succeeds. Such a count needs billions of entries, which the body size
  limit rules out, and that limit is not modelled either.
- Store.Step: a failure reported after the statement committed is not
  modelled. If the connection drops after Postgres commits the INSERT
  (server.js:82-105) but before the reply arrives, the handler answers 500
  (server.js:108-110) with the row stored, and a client retry stores it twice.
  Every `Fault` here is raised before its statement takes effect, so the
  "a failed request adds no row" of `SaveHandler.RunKeepsHistory` and
  `SaveHandler.SaveKeepsHistory` holds only for such failures.
- Columns other than the eleven of the schema are not modelled. An older
  table can lack some of them, but cannot have others.
