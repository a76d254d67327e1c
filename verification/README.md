# cdv-dashboard ingestion core in Dafny

This project models the decision logic of the cdv-dashboard marketing-analytics
backend and worker:

- **Hotmart webhook ingestion** (`backend/src/index.js`). The handler picks the
  signature from one of two headers and strips a `sha256=` prefix. It checks the
  signature fail-closed against the HMAC-SHA256 digest of the raw body. It
  normalises the payload by probing prioritised candidate paths joined with
  JavaScript's `||`. It then answers 401, 400 or 200. On 200 it upserts the
  delivery into `sales_events`, keyed by `(source, external_id)`.
- **The overview endpoint** (`backend/src/index.js`). This covers how the
  `range` query becomes a number of days and how the response echoes it. It
  also covers the two SQL aggregations, written as folds over fact rows and
  sales rows with an abstract window start, and the funnel conversion ratios.
- **The worker** (`worker/src/index.js`). `runWithRetry` is modelled with linear
  backoff and swallowed errors. The per-job `schedule` loop is one fixed-delay
  step on an abstract clock. `service_health` is an append-only log that the
  heartbeat job writes.

Files and modules:

| file | module | what |
|---|---|---|
| `wrappers.dfy` | `Wrappers` | `Option` |
| `js_value.dfy` | `JsValue` | JSON values with `undefined`, truthiness, `?.` lookup, the `\|\|` chain, `Number(...)` |
| `hotmart_signature.dfy` | `HotmartSignature` | header choice, prefix strip, Node's `Buffer` hex codec, `isValidSignature` |
| `hotmart_payload.dfy` | `HotmartPayload` | `parseHotmartPayload` |
| `sales_ledger.dfy` | `SalesLedger` | the `sales_events` table (class `SalesEvents`), the webhook decision and handler |
| `overview.dfy` | `Overview` | range parsing and echo, page and sales aggregation, conversions |
| `worker.dfy` | `Worker` | `runWithRetry`, class `JobTimer` (the `schedule` loop), class `ServiceHealth` |

Collaborators the code calls but does not define are parameters:

- HMAC-SHA256 (`Hmac`);
- the numeric-literal grammar behind `Number(string)` (`LiteralReader`); trimming
  white space and reading blank text as 0 are modelled;
- `new Date(...)` (`Config.toDate`);
- the formatting of non-integral numbers (`showOther`);
- the outcome of each attempt of a job (`Outcomes`) and each attempt's duration.

Behaviour of the code that a reader might not expect, and that the model keeps:

- **Field choice.** A field takes its first *truthy* candidate, rather than the
  first defined one. So `0`, `""`, `false` and `null` are skipped. When every candidate
  is falsy, the last candidate is kept as it is. A `null` `purchase.value` in that
  position therefore gives an amount of 0, not null (`NullLastAmountCandidateIsZero`).
- **Attempt count.** A job that always fails is tried `max(1, maxRetries)` times,
  so a limit of 0 still gives one attempt.
- **Health rows.** Only the heartbeat job's own work writes a `service_health` row,
  and only when it succeeds. The scheduler writes no row for failed runs.
- **Lenient hex.** `Buffer.from(s, "hex")` stops at the first non-hex pair. So the
  correct digest followed by trailing non-hex text is still accepted
  (`AcceptsDigestWithTrailingText`).

## Model

| member | source | states |
|---|---|---|
| `JsValue.OrChain` | backend/src/index.js:173-199 | the `\|\|` chain yields the first truthy candidate in order, else the last one; it is truthy iff some candidate is |
| `JsValue.TrimStart` | backend/src/index.js:189 | strips exactly the leading JavaScript white space that `Number(string)` ignores |
| `JsValue.TrimEnd` | backend/src/index.js:189 | strips exactly the trailing JavaScript white space that `Number(string)` ignores |
| `JsValue.Lookup` | backend/src/index.js:173-199 | an empty path is the value itself; one key reads that own field; any path into a non-object is `undefined` |
| `JsValue.LookupAppend` | backend/src/index.js:173-199 | `a?.p?.q` equals `(a?.p)?.q`: a lookup path may be split at any point |
| `JsValue.ToNumber` | backend/src/index.js:189 | `undefined` and objects give NaN; `null` and `false` give 0; a number is itself; a string is read by `StringToNumber`; an array of two or more items gives NaN; a one-item array of a number, string or array is its item's `Number` |
| `JsValue.StringToNumber` | backend/src/index.js:189 | `Number` of empty or all-blank text is 0 |
| `HotmartSignature.StripSha256Prefix` | backend/src/index.js:153 | removes one leading `sha256=` in any letter case, and leaves any other string unchanged |
| `HotmartSignature.GetSignature` | backend/src/index.js:146-154 | no signature iff both headers are absent or empty; `x-hotmart-signature` is used when non-empty, else `x-hotmart-hmac` |
| `HotmartSignature.SignatureHeaderWins` | backend/src/index.js:147-149 | a non-empty `x-hotmart-signature` wins over any `x-hotmart-hmac` |
| `HotmartSignature.StripsOnlyOnce` | backend/src/index.js:153 | `sha256=sha256=x` keeps its second prefix |
| `HotmartSignature.StripsUpperCasePrefix` | backend/src/index.js:153 | `SHA256=x` is stripped to `x` |
| `HotmartSignature.HexEncode` | backend/src/index.js:163 | `digest("hex")` writes exactly two lower-case hex digits per byte |
| `HotmartSignature.HexDecode` | backend/src/index.js:164-165 | `Buffer.from(s, "hex")` yields at most one byte per two characters |
| `HotmartSignature.DecodeStopsAtFirstNonHexPair` | backend/src/index.js:164-165 | the decoder consumes only hex digits and stops exactly at the first pair that is not two hex digits, or at a lone last digit |
| `HotmartSignature.DecodePair` | backend/src/index.js:164-165 | a leading pair of hex digits decodes to `16·hi + lo`, and decoding continues after it |
| `HotmartSignature.DecodeFirstByte` | backend/src/index.js:163-165 | the two digits written for the first byte decode back to that byte |
| `HotmartSignature.HexDigit` | backend/src/index.js:163 | the digit `digest("hex")` writes decodes back to its nibble |
| `HotmartSignature.DecodeEncodedPrefix` | backend/src/index.js:163-165 | hex-decoding the hex of a digest followed by any text gives the digest, then the decoding of that text |
| `HotmartSignature.HexRoundTrip` | backend/src/index.js:163-165 | `Buffer.from(digest("hex"), "hex")` is the digest itself |
| `HotmartSignature.IsValidSignature` | backend/src/index.js:156-170 | false without a secret or a signature; false on a length mismatch; otherwise true iff the decoded signature equals the HMAC digest of the raw body |
| `HotmartSignature.AcceptsDigestWithTrailingText` | backend/src/index.js:164-169 | the correct hex digest followed by text that does not begin with a hex pair is accepted |
| `HotmartPayload.ParsePayload` | backend/src/index.js:172-208 | id, status, currency and occurred_at are each one of their own candidates, truthy iff some candidate is; a non-null amount is the finite `Number` of one of the amount candidates |
| `HotmartPayload.CoerceAmount` | backend/src/index.js:189-204 | the amount is null iff the raw value is `undefined` or its `Number` is not finite; otherwise it is that number |
| `HotmartPayload.ExternalIdFollowsPriority` | backend/src/index.js:173-179 | the id is the first truthy of `transaction_id`, `transaction`, `purchase.transaction`, `data.purchase.transaction`, `data.transaction`, `id`, else the value of `id` |
| `HotmartPayload.AmountIsFiniteCoercion` | backend/src/index.js:184-204 | the parsed amount is null iff the chosen candidate is `undefined` or not finite; otherwise it is the coerced number |
| `HotmartPayload.MissingIdIffAllCandidatesFalsy` | backend/src/index.js:173-179 | the id is falsy iff all six id candidates are falsy |
| `HotmartPayload.TransactionIdWins` | backend/src/index.js:173-174 | a truthy `transaction_id` is the id |
| `HotmartPayload.FalsyCandidateSkipped` | backend/src/index.js:173-175 | a `transaction_id` of 0 is skipped in favour of a truthy `transaction` |
| `HotmartPayload.NullLastAmountCandidateIsZero` | backend/src/index.js:184-189 | when the first three amount candidates are falsy and `purchase.value` is null, the amount is 0 |
| `HotmartPayload.MissingAmountIsNull` | backend/src/index.js:184-189 | when no amount candidate is truthy and `purchase.value` is missing, the amount is null |
| `HotmartPayload.FirstCandidateWins` | backend/src/index.js:173-199 | a truthy first candidate decides its field, whatever the later candidates hold |
| `HotmartPayload.ExamplePayloadParses` | backend/src/index.js:172-208 | the flat example delivery gives id `T1`, status `approved`, amount 97, currency `BRL` and the nested purchase date |
| `SalesLedger.Upserted` | backend/src/index.js:228-248 | afterwards the key `(source, externalId)` holds one row with the delivery's status, amount, currency, occurred_at, raw_payload and `updated_at = now`; `received_at` is kept on conflict and is `now` on insert; all other keys are unchanged |
| `SalesLedger.RedeliveryOnlyRefreshesUpdatedAt` | backend/src/index.js:233-240 | delivering the same event twice changes only `updated_at` |
| `SalesLedger.LaterDeliveryWins` | backend/src/index.js:233-240 | two deliveries of one transaction leave one row with the later columns and the first `received_at` |
| `SalesLedger.SalesEvents.Upsert` | backend/src/index.js:226-250 | the table becomes `Upserted(old table, event, now)` |
| `SalesLedger.SqlParam` | backend/src/index.js:241-249 | no bound parameter is `undefined`: pg binds it as NULL and any other value as itself |
| `SalesLedger.EventOf` | backend/src/index.js:241-249 | the key is `("hotmart", externalId)` and the raw payload is the body; status and currency are the parsed values, NULL when `undefined`; the amount is the parsed amount; occurred_at is NULL iff the parsed date is falsy, and otherwise `new Date` of it |
| `SalesLedger.Decide` | backend/src/index.js:210-249 | a bad signature gives 401; otherwise a falsy id gives 400; otherwise (and only then) the delivery is stored under `("hotmart", externalId)` with the body as raw payload, the parsed status and currency (NULL for `undefined`), the parsed amount, and occurred_at `new Date(occurredAt)` when that is truthy, else NULL |
| `SalesLedger.SignatureCheckedBeforeBody` | backend/src/index.js:211-216 | with a bad signature the answer is 401 whatever the body holds |
| `SalesLedger.HandleHotmartWebhook` | backend/src/index.js:210-255 | 401 iff the signature is refused, 400 iff it is accepted and the id is falsy, 200 iff the delivery is stored; 401 and 400 leave the table unchanged; 200 leaves it upserted with `Decide`'s event at `now` |
| `SalesLedger.ExampleDeliveryStored` | backend/src/index.js:210-251 | a correctly signed flat delivery with a nested purchase date is stored as `("hotmart","T1")` with status `approved` and amount 97 |
| `Overview.RemoveFirst` | backend/src/index.js:76 | `replace("d", "")` leaves a string without `d` unchanged, and otherwise removes exactly one character |
| `Overview.RemoveFirstOccurrence` | backend/src/index.js:76 | only the first `d` is removed; the rest of the text is kept |
| `Overview.NatToDecimal` | backend/src/index.js:137 | the decimal text of a natural number is non-empty digits with no leading zero |
| `Overview.DecimalRoundTrip` | backend/src/index.js:137 | reading back the decimal text of `n` gives `n` |
| `Overview.ParseDays` | backend/src/index.js:75-76 | `days` is always truthy (never 0 or NaN); a truthy `Number` of the range without its first `d` is kept, anything else gives 7 |
| `Overview.PositiveRangeParses` | backend/src/index.js:76 | `<n>d` for a positive decimal `n` up to 2^53 gives `n` days |
| `Overview.DefaultRangeIsSevenDays` | backend/src/index.js:75 | without `range` the default `7d` gives 7 days |
| `Overview.ZeroRangeIsSevenDays` | backend/src/index.js:76 | `0d` gives 7 days |
| `Overview.BlankRangeIsSevenDays` | backend/src/index.js:76 | an empty or blank range, with or without `d`, gives 7 days |
| `Overview.NumberText` | backend/src/index.js:137 | `String(days)`: NaN is written `NaN`; an integer below 10^21 in magnitude is written as its decimal digits, after a `-` when negative, and those digits read back to the number |
| `Overview.RangeLabel` | backend/src/index.js:137 | the echoed range always ends in `d`; for an integral `days` that `d` is the only one, so removing the first `d` strips exactly the suffix |
| `Overview.RangeEchoRoundTrip` | backend/src/index.js:76-137 | for a positive `n` up to 2^53 the echoed range of `<n>d` is `<n>d` itself, and the default echoes `7d` |
| `Overview.FindViews` | backend/src/index.js:114-115 | the views of the first page with that slug, or 0 when no page has it |
| `Overview.Ratio` | backend/src/index.js:120-132 | 0 when the reference is 0; otherwise ratio × reference = stage × 100 |
| `Overview.ComputeConversions` | backend/src/index.js:116-133 | signup and confirmation are relative to `vsl`; aula1, aula2 and aula3 are relative to `confirmation` |
| `Overview.ZeroReferenceGivesZero` | backend/src/index.js:119-133 | every ratio keyed off a missing or zero-view reference is 0 |
| `Overview.SignupConversionExample` | backend/src/index.js:116-120 | vsl 200 and signup 50 give a signup conversion of 25 |
| `Overview.MetricSum` | backend/src/index.js:86 | `COALESCE(SUM(CASE …), 0)`: 0 when no fact joins the page in the window with that metric |
| `Overview.MetricCount` | backend/src/index.js:87 | the number of non-NULL `CASE` values: at most one per fact, 0 iff no fact joins with that metric, and every fact when all do |
| `Overview.MetricOfOneFact` | backend/src/index.js:86-92 | one fact is counted once, with its value, iff it joins the page in the window with that metric; otherwise it adds nothing |
| `Overview.MetricSplit` | backend/src/index.js:86-92 | the count and the sum add up over any split of the facts; with `MetricOfOneFact` this fixes both aggregates for every input |
| `Overview.AvgEngagement` | backend/src/index.js:87 | `COALESCE(AVG(…), 0)`: 0 when no engagement fact joins; otherwise average × count equals the sum |
| `Overview.MetricSumBounds` | backend/src/index.js:86-87 | the sum of the joined values lies between count copies of a lower and of an upper bound on them |
| `Overview.QuotientBounds` | backend/src/index.js:87 | a sum bounded by count copies of two bounds has its mean within the bounds |
| `Overview.AvgEngagementWithinBounds` | backend/src/index.js:87 | when a page has engagement facts in the window, their average lies within any bounds that hold for all of them |
| `Overview.RowOf` | backend/src/index.js:80-94 | a page's grouped row copies its slug, label, url, path and sort order, and carries its windowed view sum and average engagement |
| `Overview.ActivePages` | backend/src/index.js:93 | `WHERE is_active`: keeps exactly the active tracked pages, and no others |
| `Overview.PageRows` | backend/src/index.js:79-97 | no more rows than tracked pages; each row carries the windowed view sum and average engagement of its own path |
| `Overview.PageRowsAreActivePages` | backend/src/index.js:79-97 | the rows are exactly the active tracked pages in their order, row i being `RowOf` the i-th active page |
| `Overview.RowsComeFromActivePages` | backend/src/index.js:88-93 | every row is the grouped row of some active tracked page |
| `Overview.RowsBoundedBelow` | backend/src/index.js:95 | each row's sort order comes from a tracked page, so a lower bound on the pages bounds the rows |
| `Overview.PageRowsSorted` | backend/src/index.js:95 | when the tracked pages are in `sort_order` order, so are the rows |
| `Overview.EveryActivePageListed` | backend/src/index.js:88-94 | every active tracked page has its grouped row among the rows, even one without facts (LEFT JOIN) |
| `Overview.SalesCount` | backend/src/index.js:99-105 | `COUNT(*)` over the window: at most the scanned rows, 0 iff no row is in the window, and all of them when every row is |
| `Overview.SalesRevenue` | backend/src/index.js:102-104 | `COALESCE(SUM(amount), 0)`: 0 when no row in the window has an amount |
| `Overview.SalesOfOneRow` | backend/src/index.js:99-105 | one sale counts once iff it is in the window by `COALESCE(occurred_at, received_at)`, and adds its amount iff it also has one |
| `Overview.SalesSplit` | backend/src/index.js:99-105 | count and revenue add up over any split of the scanned rows; with `SalesOfOneRow` this fixes both for every input |
| `Overview.GetOverview` | backend/src/index.js:74-140 | the reply echoes the parsed range; its pages are `PageRows`, sorted when the tracked pages are; its conversions are those of its pages; its sales count and revenue are `SalesCount` and `SalesRevenue` of the window |
| `Worker.RunWithRetry` | worker/src/index.js:8-21 | always returns (errors are swallowed); at least one attempt; attempts stop at the first success and never exceed `max(1, maxRetries)`; a failed run used them all; the wait before attempt k+1 is `retryDelayMs * k` |
| `Worker.StopsAtFirstSuccess` | worker/src/index.js:10-11 | if attempt k is the first success within the limit, exactly k attempts are made |
| `Worker.ExhaustsRetries` | worker/src/index.js:12-19 | an always-failing job is tried `max(1, maxRetries)` times and ends unsuccessful |
| `Worker.LinearSeriesSum` | worker/src/index.js:15 | twice the sum of `d·a, d·(a+1), …` over n terms is `d·n·(2a+n−1)` |
| `Worker.TotalBackoff` | worker/src/index.js:14-17 | n attempts wait `retryDelayMs·n(n−1)/2` in total |
| `Worker.HeartbeatBackoff` | worker/src/index.js:37-51 | the heartbeat makes at most 3 attempts, waits 2000 then 4000 ms, and three failures give exactly that |
| `Worker.TimerDelay` | worker/src/index.js:56 | a timer delay is between 1 and 2^31−1 ms, and equals the requested delay when that is in range |
| `Worker.RunsNeverOverlap` | worker/src/index.js:53-59 | with fixed-delay scheduling, each run finishes before any later run of the job starts |
| `Worker.JobTimer.constructor` | worker/src/index.js:58 | the first run is due at start-up and none has completed |
| `Worker.JobTimer.Tick` | worker/src/index.js:54-57 | a run starts when the timer fires and lasts its attempts plus sleeps; the timer is re-armed `intervalMs` after it finishes; the fixed-delay invariant holds |
| `Worker.ServiceHealth.Record` | worker/src/index.js:23-35 | appends exactly one `(service, status, details)` row and leaves earlier rows untouched |
| `Worker.HeartbeatTick` | worker/src/index.js:43-49 | a successful heartbeat run appends one `("worker","ok",{message:"heartbeat"})` row; an exhausted one appends none |

## Left out

- Server and pool plumbing is not modelled: Fastify setup, `listen`, pool connect and release, and the `/health`, `/health/db`, `/api/health` and `/api/config/tracked-pages` reads. They are I/O with no decisions.
- The JSON content-type parser is not modelled. An empty body becomes `{}`. A body that fails to parse never reaches the handler, so the handler's request carries an already parsed body.
- Database failures are not modelled. The table always accepts the statement, so the 500 that a failing query would produce is absent.
- HMAC-SHA256 is a parameter. `crypto.timingSafeEqual` is modelled as plain equality of equal-length byte sequences; its constant-time property cannot be stated about values.
- The numeric-literal grammar of `Number(string)` and IEEE-754 rounding are a parameter.
- `Overview.PositiveRangeParses` and `Overview.RangeEchoRoundTrip` hold only for `n` up to 2^53. Above that, `Number` rounds to a double, so `9007199254740993d` gives 9007199254740992 days and echoes `9007199254740992d`. JSON numbers are exact reals, so a literal such as `1e400`, which parses to Infinity, is not represented.
- `JsValue.ToNumber` treats every object as NaN. An object whose own `toString` key holds a non-callable value makes `Number` throw a TypeError instead, also inside a one-item array. A non-callable `valueOf` is skipped, and the result is NaN as modelled.
- `new Date(occurredAt)` is a parameter (`toDate`). An invalid date, which would make the insert fail, is not modelled.
- `SalesLedger.Upserted`: keys are compared as JavaScript values, so the database's text conversion of a non-string id (a numeric `123` and the string `"123"` would share one row) is not modelled. Column type coercion of non-string status or currency values is not modelled either.
- `SalesLedger.Upserted`: `received_at` and `updated_at` on a fresh insert are assumed to default to the statement time. The table definition is not part of this model.
- Concurrent deliveries are not modelled. Each statement is one atomic step on the table.
- `NOW() - days` interval arithmetic and the database clock are replaced by an abstract window start (`cutoff`).
- `Overview.PageRows` takes the tracked pages already ordered by `sort_order`. The sort is the database's.
- A repeated `range` query parameter, which reaches the handler as an array, is not modelled.
- `Overview.GetOverview`: `sales` is `salesResult.rows[0]` passed through without coercion. pg returns `COUNT(*)::INT` as a number but the NUMERIC `SUM` as decimal text, so the reply's `revenue` is really a string. The model gives it as the exact sum.
- `Overview.GetOverview`: the pages' `Number(row.views)` coercion of the database's decimal strings is taken as exact. Text formatting of non-integral or very large `days` is a parameter.
- Real timers are not modelled. `setTimeout` and `sleep` are treated as firing exactly on time, not at least that late. The endless `schedule` loop is modelled one step at a time, and console logging is left out.
- The `checked_at` column of `service_health` is the database's default and is not modelled.
- The analytics synchronisation job (windowed delete-then-insert of metric facts) and its fetcher appear in no shown source file. They are not part of this model.
- `frontend/server.js` only renders pages and is not part of this model.
