# Webhook service — a Dafny model

This project models the core of a small webhook ingestion service. The service is a FastAPI app backed by SQLite. The model covers five pieces:

- **Payload validation** (`Models`). A delivery carries `message_id`, `from`, `to`, `ts` and an optional `text`.
  - `message_id` must be non-empty.
  - `from` and `to` must be `+` followed by digits.
  - `ts` must be an ISO-8601 UTC timestamp ending in `Z`.
  - `text`, when present, is at most 4096 characters.
  - Every failing field is reported.
- **The message store** (`Storage`). It is one table keyed by `message_id`.
  - `INSERT OR IGNORE` gives idempotent inserts that report duplicates.
  - `get_messages` filters, orders by `(ts, message_id)`, pages with LIMIT/OFFSET and counts the filtered rows.
  - `get_stats` reports the row count, the distinct senders, the top ten senders and the first and last timestamp.
- **The metrics registry** (`Metrics`). Two counter maps are updated in place, and the registry exports them in the Prometheus text format.
- **The handlers** (`Service`):
  - the HMAC signature check;
  - the `/webhook` outcome flow: signature, then validation, then insert, with exactly one outcome counted;
  - the `/messages` paging bounds;
  - the readiness probe.
- **Orders** (`Ordering`). Lexicographic order on strings is Python's `<` on `str`, and SQLite's BINARY collation agrees with it. A sorted listing of a finite set under a strict total order is unique. This is what `ORDER BY` and `sorted()` produce.

The `*_facts.dfy` files hold lemmas that relate several calls or exhibit concrete inputs.

Modelling choices:

- The source's state changes are modelled imperatively:
  - `Storage.Database` holds the table and has `InsertMessage`.
  - `Metrics.Metrics` holds the two maps, its increments and the export loops.
  - `Service.Webhook` drives both.
- Each method is proved against a pure function:
  - `InsertOrIgnore`, `Bump` and `Exposition` for the store and the registry;
  - `Process` for the webhook flow.
- The read-only SQL queries are ghost functions over the table.
- Timestamps are compared as text, as SQLite's BINARY collation compares them. Text order is time order only among timestamps of the same shape: `StorageFacts.FractionSortsFirst` shows that `…:00.5Z` sorts before `…:00Z`, and `StorageFacts.SinceExcludesLaterFraction` shows that a `since` of `…:00Z` drops `…:00.5Z`. The model keeps the source's text comparison.

## Model

| member | source | states |
|---|---|---|
| `Ordering.StrLessTotal` | app/storage.py:137 | Any two distinct strings are ordered one way or the other by code-point order, so ORDER BY on a key never ties. |
| `Ordering.StrLessTransitive` | app/storage.py:137 | Code-point string order is transitive. |
| `Ordering.SortedSeq` | app/storage.py:137 | Listing a finite set by a strict total order yields every element once, in increasing order; the proof uses the contract of the listing of the rest. |
| `Ordering.SortedUnique` | app/storage.py:137 | Under a strict total order there is exactly one sorted listing of a set, so ORDER BY's result is determined. |
| `Ordering.SortedList` | app/metrics.py:32 | `sorted()` over a set of keys, taking the least remaining key each step, returns that unique sorted listing. |
| `Ordering.StrLessCommonPrefix` | app/storage.py:117 | A shared prefix does not change how two strings compare. |
| `Models.Validate` | app/models.py:9-32 | A payload is accepted iff no field is invalid under the chosen pattern matchers (strict by default, or the patterns as written). On acceptance the fields are returned verbatim (no normalisation). On rejection every invalid field is reported, each with its own problem. |
| `Models.IsE164` | app/models.py:18-24 | The strict rule for `from` and `to`: an accepted number is `+` and at least one digit, is ASCII, and is also accepted by the pattern as written. |
| `Models.E164AsWritten` | app/models.py:22 | `re.match` with `^\+\d+$` accepts exactly the strings that are, after removing one final newline, `+` and one or more of the decimal digits `Models.IsPythonDecimal` lists. |
| `Models.IsIso8601Z` | app/models.py:26-32 | The strict rule for `ts`: an accepted timestamp is at least 20 characters, has `T` at position 10, ends in `Z`, is ASCII, and is also accepted by the pattern as written. |
| `Models.Iso8601AsWritten` | app/models.py:30 | `re.match` with the timestamp pattern accepts exactly the strings whose text, after removing one final newline, has the timestamp shape with the decimal digits `Models.IsPythonDecimal` lists. |
| `ModelsFacts.E164Examples` | app/models.py:18-24 | `+1234567890` is accepted. `1234567890`, a bare `+` and a number with a letter are rejected. |
| `ModelsFacts.TimestampExamples` | app/models.py:26-32 | Whole and fractional seconds with `Z` are accepted. A space separator, a fraction without digits and a missing `Z` are rejected. |
| `ModelsFacts.ValidPayloadAccepted` | app/models.py:9-16 | A well-formed payload is accepted with its text. It is also accepted without text, which then reads as absent. |
| `ModelsFacts.MissingPlusRejected` | app/models.py:18-24 | A sender without `+` is rejected, with exactly one violation, on `from`. |
| `ModelsFacts.SpaceSeparatedTimestampRejected` | app/models.py:26-32 | `2024-01-15 10:30:00` is rejected, with exactly one violation, on `ts`. |
| `ModelsFacts.TextLengthBoundary` | app/models.py:16 | A text of 4096 characters is accepted. One of 4097 is rejected as too long. |
| `ModelsFacts.AllViolationsReported` | app/models.py:12-16 | An empty `message_id` and a missing `from` are both reported, in field order. |
| `ModelsFacts.E164TrailingNewlineAccepted` | app/models.py:22 | The pattern as written accepts `"+123\n"`, which the strict full match rejects. |
| `ModelsFacts.E164UnicodeDigitAccepted` | app/models.py:22 | The pattern as written accepts Arabic-Indic digits after `+`, which the strict match rejects. |
| `ModelsFacts.TimestampTrailingNewlineAccepted` | app/models.py:30 | The timestamp pattern as written accepts a trailing newline. |
| `ModelsFacts.TimestampUnicodeDigitAccepted` | app/models.py:30 | The timestamp pattern as written accepts a full-width digit in the year. |
| `ModelsFacts.DigitClassesAgreeOnAscii` | app/models.py:22 | On ASCII text, Python's `\d` and `[0-9]` accept the same runs. |
| `ModelsFacts.FractionAgreesOnAscii` | app/models.py:30 | On ASCII text, the fraction part is accepted by both digit classes alike. |
| `ModelsFacts.E164StrictIsExactMatch` | app/models.py:22 | The strict E.164 check holds iff the pattern as written holds, the text is ASCII and it does not end in a newline. |
| `ModelsFacts.TimestampStrictIsExactMatch` | app/models.py:30 | The same equivalence for the timestamp check. |
| `ModelsFacts.RulesAgreeOnPlainFields` | app/models.py:18-32 | When `from`, `to` and `ts` are ASCII and do not end in a newline, validation by the patterns as written and by the strict rules give the same result. |
| `ModelsFacts.TrailingNewlineNumberValidates` | app/models.py:18-24 | A payload whose `from` is `"+123\n"` passes validation as written, and the newline is kept in the payload. |
| `ModelsFacts.TrailingNewlineStrictlyRefused` | app/models.py:18-24 | The strict rules refuse that payload with exactly one violation, on `from`. |
| `Storage.InsertOrIgnore` | app/storage.py:60-92 | A fault yields (False, False) and changes nothing. Otherwise the call succeeds. A duplicate is reported iff the id is already stored. Stored rows are never overwritten. A new id adds exactly its own row. |
| `Storage.Database.constructor` | app/storage.py:17-29 | Opening the store keeps any rows already there. |
| `Storage.Database.InsertMessage` | app/storage.py:60-92 | The returned pair and the new table are those of `InsertOrIgnore` on the old table. |
| `Storage.Like` | app/storage.py:120-122 | SQLite `LIKE` without ESCAPE. A pattern without `%` matches only texts of its own length. |
| `Storage.Matches` | app/storage.py:112-124 | The WHERE clause. With no filter given every row matches. A matching row has the requested sender. A row without text never matches a `q` filter. |
| `Storage.ByTsThenIdIsTotal` | app/storage.py:137 | Ordering by (ts, message_id) is a strict total order on stored keys. |
| `Storage.Listing` | app/storage.py:124-137 | The matching keys, each once, in increasing (ts, message_id) order. |
| `Storage.WindowStart` | app/storage.py:138-140 | The window starts at 0 for a negative OFFSET, at OFFSET itself when it lies within the list, and at the end of the list when OFFSET is past it. |
| `Storage.Window` | app/storage.py:138-140 | LIMIT/OFFSET is the contiguous slice starting at the clamped offset. Its length is LIMIT when enough rows remain and the rest otherwise. A negative LIMIT means no limit. |
| `Storage.GetMessages` | app/storage.py:94-143 | `total` counts every matching row. The page has at most `limit` rows, each a stored row that matches every given filter, in strictly increasing (ts, message_id) order. |
| `Storage.ByCountDescIsTotal` | app/storage.py:163 | "More messages first, then sender" is a strict total order. |
| `Storage.Ranked` | app/storage.py:159-163 | Every sender once, in decreasing count order. |
| `Storage.TopSendersOutrankRest` | app/storage.py:159-165 | The first ten ranked senders satisfy all of the following. They are distinct and carry their exact counts. Their counts do not increase. No unlisted sender has more messages than a listed one. |
| `Storage.TopSenders` | app/storage.py:159-165 | The top-senders list meets that promise. |
| `Storage.TsRange` | app/storage.py:168-173 | MIN and MAX of `ts` are both None exactly on an empty table. Otherwise they are a stored `ts` not above any other and one not below any other. |
| `Storage.GetStats` | app/storage.py:145-181 | The statistics hold all of these: the row count, the number of distinct senders, a valid top-ten list, and the least and greatest timestamp. |
| `StorageFacts.RetryIsDuplicate` | app/storage.py:78-90 | Re-inserting a stored id reports a duplicate and keeps the first row, including its original `created_at`. |
| `StorageFacts.NewMessageCounted` | app/storage.py:149-165 | A new message adds one to the total and one to its sender's count, and to no other sender's. |
| `StorageFacts.NewMessageSender` | app/storage.py:154-156 | A new message's sender joins the set of distinct senders. |
| `StorageFacts.LikePrefix` | app/storage.py:121-122 | A wildcard-free pattern followed by `%` matches exactly the texts that start with it, up to ASCII case. |
| `StorageFacts.LikeIsSubstringWithoutWildcards` | app/storage.py:120-122 | For a `q` without `%` or `_`, the filter holds iff `q` occurs in the text, ignoring ASCII case. |
| `StorageFacts.UnderscoreIsAWildcard` | app/storage.py:120-122 | A `_` in `q` matches any character: `a_c` finds `aXc`, which does not contain `a_c`. |
| `StorageFacts.FractionSortsFirst` | app/storage.py:116-118 | A timestamp with fractional seconds sorts before the whole second it lies in. |
| `StorageFacts.SinceExcludesLaterFraction` | app/storage.py:116-118 | So `since` set to a whole second excludes a message stamped a fraction later in that second. |
| `StorageFacts.SinceIsInclusive` | app/storage.py:116-118 | A message stamped exactly at `since` matches. |
| `StorageFacts.NoFilterKeepsAll` | app/storage.py:112-124 | Absent or empty filters select every row. |
| `StorageFacts.ListingIsDistinct` | app/storage.py:137 | The ordered result never repeats a message. |
| `StorageFacts.PageIsWindow` | app/storage.py:138-140 | A page is the rows under a LIMIT/OFFSET window of the full ordered listing. |
| `StorageFacts.WindowsTile` | app/storage.py:138-140 | Two consecutive windows of one size make up the window of twice that size. |
| `StorageFacts.ConsecutivePagesTile` | app/storage.py:137-140 | Pages `offset` and `offset + limit` together are the page of size `2 * limit`, so paging skips nothing. |
| `StorageFacts.ConsecutivePagesDisjoint` | app/storage.py:137-140 | Consecutive pages never share a message. |
| `StorageFacts.UnboundedPageListsAll` | app/storage.py:128-140 | Without LIMIT and OFFSET, every matching row is listed and the page size equals `total`. |
| `StorageFacts.FirstNotAfterLast` | app/storage.py:168-173 | On a non-empty table the first timestamp is not after the last. |
| `StorageFacts.BusiestSenderFirst` | app/storage.py:159-165 | No sender has more messages than the head of the top-senders list. |
| `Metrics.Bump` | app/metrics.py:15-23 | An increment adds exactly one to its key and leaves every other key's count alone. |
| `Metrics.Count` | app/metrics.py:12-13 | A `defaultdict(int)` read: a key never incremented reads 0, a stored key reads its stored count. |
| `Metrics.TotalBump` | app/metrics.py:15-23 | An increment raises the sum of a counter map by exactly one. |
| `Metrics.HttpKeyOrderOn` | app/metrics.py:32 | Python's tuple order on (method, path, status) is a strict total order. |
| `Metrics.NatToString` | app/metrics.py:34 | `str(count)` is a non-empty run of decimal digits. |
| `Metrics.HttpLines` | app/metrics.py:32-35 | One sample line per key, in the given order, each with that key's stored count. |
| `Metrics.WebhookLines` | app/metrics.py:40-41 | One sample line per result, in the given order, each with its stored count. |
| `Metrics.SortedHttpKeys` | app/metrics.py:32 | Every HTTP key once, in increasing tuple order. |
| `Metrics.SortedResults` | app/metrics.py:40 | Every result label once, in increasing string order. |
| `Metrics.Exposition` | app/metrics.py:43 | `"\n".join(lines) + "\n"`: the exposition text always ends with a newline. |
| `Metrics.Metrics.constructor` | app/metrics.py:11-13 | A new registry has both maps empty, so every key reads 0. |
| `Metrics.Metrics.IncrementHttpRequest` | app/metrics.py:15-18 | The HTTP map is bumped at (method, path, status). The webhook map is unchanged. Every stored count stays at least one. |
| `Metrics.Metrics.IncrementWebhookRequest` | app/metrics.py:20-23 | The webhook map is bumped at `result`. The HTTP map is unchanged. |
| `Metrics.Metrics.ExportPrometheus` | app/metrics.py:25-43 | The text is the exposition of the current maps. Having no `modifies` clause, it changes neither map. |
| `Metrics.RenderHttpBlock` | app/metrics.py:32-35 | The first export loop produces the HTTP sample lines in sorted key order. |
| `Metrics.RenderWebhookBlock` | app/metrics.py:40-41 | The second export loop produces the webhook sample lines in sorted result order. |
| `MetricsFacts.ParseNatToString` | app/metrics.py:34 | Reading a rendered count back gives the count. |
| `MetricsFacts.LastFieldAfterSpace` | app/metrics.py:34 | The text after the last space of `prefix + " " + digits` is the digits. |
| `MetricsFacts.LinesCarryCounts` | app/metrics.py:32-41 | The number after the last space of each sample line, as the two f-strings (`HttpLine`, `WebhookLine`) render it, is exactly the stored count for its key. |
| `MetricsFacts.JoinTerminated` | app/metrics.py:43 | `"\n".join(lines) + "\n"` is every line followed by a newline. |
| `MetricsFacts.SplitTerminated` | app/metrics.py:43 | Newline-free lines, each terminated, split back into the same lines. |
| `MetricsFacts.ExpositionSplitsIntoLines` | app/metrics.py:25-43 | When no label holds a newline, the text ends with a newline and splits into exactly the exposition lines. |
| `MetricsFacts.BlocksLayout` | app/metrics.py:29-41 | The HTTP header comes first, then the HTTP samples, then the webhook header, then the webhook samples. |
| `MetricsFacts.HttpKeyListed` | app/metrics.py:32-35 | Every HTTP key has a line, with its count, inside the HTTP block. |
| `MetricsFacts.ResultListed` | app/metrics.py:40-41 | Every result has a line, with its count, inside the webhook block, after the whole HTTP block. |
| `MetricsFacts.HttpLinesSorted` | app/metrics.py:32-35 | HTTP lines appear in strictly increasing key order. |
| `MetricsFacts.NoZeroSamples` | app/metrics.py:15-41 | Only incremented keys are stored, so the sample line of every stored key reads at least 1. |
| `Service.Hex` | app/main.py:79 | `hexdigest()` gives two lowercase hex digits per byte. |
| `Service.UnHexHex` | app/main.py:79 | Decoding a hex digest gives the digest back, so distinct digests have distinct hex forms. |
| `Service.HexIsAscii` | app/main.py:79-80 | A hex digest is ASCII. |
| `Service.VerifySignature` | app/main.py:73-80 | The check is true iff the header is present, non-empty and equal to the lowercase hex HMAC of the body under the secret. |
| `Service.VerifySignatureAsWritten` | app/main.py:73-80 | The comparison raises iff the header is non-empty and not ASCII. |
| `Service.Label` | app/main.py:106-166 | Each outcome is counted under one of the five result labels. |
| `Service.Process` | app/main.py:83-168 | The flow ends in exactly one of five outcomes. `invalid_signature` iff the signature fails. `validation_error` iff it passes and validation fails, carrying the violations. `db_error` iff both pass and the store faults. The table changes only on `success`, and then by exactly the new row. |
| `Service.ProcessAsWritten` | app/main.py:83-168 | The flow as written, with the raising signature comparison and the patterns as written: it raises iff the comparison raises, and otherwise ends in a validation error iff the signature passes and validation by the patterns as written fails. |
| `Service.Webhook` | app/main.py:83-168 | The handler ends with the table, the response and the counters of `Process`. Exactly one webhook result is counted, under that outcome's label. The HTTP counters are untouched. |
| `Service.CheckPaging` | app/main.py:173-174 | Defaults are 50 and 0. A request is accepted iff 1 ≤ limit ≤ 100 and offset ≥ 0. Every violated bound is reported. |
| `Service.MessagesEndpoint` | app/main.py:171-198 | Out-of-range bounds are refused with every violated bound. An accepted offset above 2^63 - 1 fails inside the store. Otherwise the answer echoes the accepted limit and offset, its rows are exactly `GetMessages`' page for them, and it carries the filtered total. |
| `Service.HealthReady` | app/main.py:226-243 | Ready iff the secret is non-empty and the database is healthy. |
| `ServiceFacts.OwnDigestAccepted` | app/main.py:73-80 | The hex of the body's own 32-byte HMAC is accepted. |
| `ServiceFacts.OtherSignaturesRefused` | app/main.py:73-80 | Any other header is refused, and so are a missing header and an empty one. |
| `ServiceFacts.SignatureChecksAgree` | app/main.py:80 | Where the comparison does not raise, the corrected check decides the same. |
| `ServiceFacts.NonAsciiSignatureRaises` | app/main.py:80 | The header `é` makes the source raise with nothing counted. The corrected flow answers `invalid_signature`. |
| `ServiceFacts.FlowsAgree` | app/main.py:83-168 | When `from`, `to` and `ts` are ASCII and do not end in a newline, wherever the source answers, it answers as the corrected flow does. |
| `ServiceFacts.TrailingNewlineDeliveryStored` | app/main.py:113-168 | A correctly signed new delivery whose `from` is `"+123\n"` is stored and ends in `success` as written. The corrected flow ends in a validation error on `from` and stores nothing. |
| `ServiceFacts.SignatureGatesEverything` | app/main.py:95-110 | With a bad signature, the body and the store do not affect the outcome, and nothing is stored. |
| `ServiceFacts.RedeliveryIsDuplicate` | app/main.py:129-168 | Redelivering a stored message gives `duplicate`, the same 200 answer and an unchanged table. |
| `ServiceFacts.OnlySuccessStores` | app/main.py:129-168 | The table changes iff the outcome is `success`, and then it grows by one row. |
| `ServiceFacts.LabelsDistinguishOutcomes` | app/main.py:155-166 | Distinct outcomes are counted under distinct labels. |
| `Service.ResponseFor` | app/main.py:107-168 | Every outcome except a validation failure gets a reply; a validation failure re-raises its violations. 200 goes to duplicate and success. A `detail` body goes exactly with the non-200 replies. A bad signature gets 401 `invalid signature`, a store failure 500 `database error`, and duplicate and success both get 200 `{"status": "ok"}`. |
| `ServiceFacts.PagingExamples` | app/main.py:173-174 | Defaults give (50, 0). Limits 1 and 100 are accepted. Limit 0, limit 101 and offset -1 are refused, each with its own problem. |
| `ServiceFacts.OffsetOverflowExamples` | app/main.py:174 | An offset of 2^63 passes `Query(ge=0)` but fails when bound in the store. An offset of 2^63 - 1 still gets a page. |
| `ServiceFacts.AcceptedPagingIsPlainSlice` | app/main.py:173-174 | Accepted paging never reaches SQLite's reading of a negative LIMIT or OFFSET. |
| `ServiceFacts.SecretCheckedFirst` | app/main.py:231-235 | An empty secret gives 503 "missing webhook secret" whatever the database's state. |
| `ServiceFacts.ReadinessFollowsDatabase` | app/main.py:237-243 | With a secret, a healthy database gives 200 ready and an unhealthy one gives 503 "database unavailable". |

## Left out

- Logging, request ids and latency timing (app/logging_utils.py) do not affect any outcome. They are not modelled.
- The HTTP middleware (app/main.py:38-70) counts every request through `increment_http_request`. The model has that increment but not the middleware around it.
- Configuration comes from environment variables. Only `is_ready` (the secret is non-empty) enters the model, as the `secret` argument of `HealthReady`.
- `Database.is_healthy` tries to open SQLite. Whether that succeeds is outside the model. It enters as the boolean `dbHealthy` of `HealthReady`.
- `GET /stats` (app/main.py:201-217) copies `Database.get_stats` field by field, so `Storage.GetStats` stands for both. `GET /health/live` always answers `{"status": "ok"}` and is not modelled. `GET /metrics` returns `ExportPrometheus`'s text.
- HMAC-SHA256 is a function parameter `mac`. Its internals are not modelled. Neither is the constant-time comparison of `hmac.compare_digest`, since timing cannot be expressed here.
- JSON decoding and Pydantic's binding are not modelled. The handler receives the parsed body as an `Envelope`, with malformed JSON as one case. Non-integer `limit` and `offset` query strings are not modelled either.
- The real `created_at` clock is the `createdAt` argument, and a storage failure is the `fault` argument. SQLite's engine, connections and indexes are not modelled.
- Concurrent deliveries are not modelled. Each call runs alone.
- `Models.IsPythonDecimal` lists only some of Unicode's decimal-digit blocks: ASCII, Arabic-Indic, Extended Arabic-Indic, Devanagari, Bengali and full-width. Python's `\d` accepts every Unicode decimal digit.
- `Service.ResponseFor`: a validation failure re-raises Pydantic's `ValidationError` (app/main.py:126), and the model records `Reraised` with the violations, not a status code. That error is not FastAPI's `RequestValidationError`, and FastAPI's default handlers cover only that and `HTTPException`. So it most likely reaches Starlette as an unhandled error and a 500, and the middleware's `increment_http_request` (app/main.py:64) is skipped for that request. The tests expect 422. Nothing was executed to settle this.
- `Service.MessagesEndpoint` and `Storage.GetMessages`: the only read-path error modelled is an offset above 2^63 - 1, which sqlite3 cannot bind. Any other SQLite error in `get_messages` or `get_stats` (app/storage.py:126-143, 147-181) is not caught there and becomes a 500. The model has no such failure.
- `Storage.TopSenders`: among senders with equal counts the source promises no order. The model breaks ties by sender. `Storage.IsTopSenderList`, the property proved, allows any tie order.
- `Metrics.HttpLine`: labels are written without escaping, as in the source. A label holding `"` or a newline yields malformed exposition text. `MetricsFacts.ExpositionSplitsIntoLines` therefore assumes labels without newlines.

## Findings

| source | as written | input that shows it | evidently intended | confidence | as-written member | corrected member |
|---|---|---|---|---|---|---|
| app/models.py:22 | `re.match` with `$` also matches before one final newline | `from = "+123\n"` is accepted and stored | only `+` and digits, nothing after | high (not executed) | `ModelsFacts.E164TrailingNewlineAccepted` | `ModelsFacts.E164StrictIsExactMatch` |
| app/models.py:22 | `\d` matches any Unicode decimal digit | `from = "+١٢"` (Arabic-Indic digits) is accepted | ASCII digits, as E.164 requires | medium (not executed) | `ModelsFacts.E164UnicodeDigitAccepted` | `ModelsFacts.E164StrictIsExactMatch` |
| app/models.py:30 | `$` also matches before one final newline | `ts = "2024-01-15T10:30:00Z\n"` is accepted and stored | the timestamp ends at `Z` | high (not executed) | `ModelsFacts.TimestampTrailingNewlineAccepted` | `ModelsFacts.TimestampStrictIsExactMatch` |
| app/models.py:30 | `\d` matches any Unicode decimal digit | `ts = "２024-01-15T10:30:00Z"` (full-width 2) is accepted | ASCII digits, so that text order is time order | medium (not executed) | `ModelsFacts.TimestampUnicodeDigitAccepted` | `ModelsFacts.TimestampStrictIsExactMatch` |
| app/main.py:80 | `hmac.compare_digest` on two `str` values raises TypeError when one is not ASCII | header `X-Signature: é` makes the request fail outside the handler's outcomes, and no webhook outcome is counted | 401 `invalid signature`, counted as `invalid_signature` | medium (not executed) | `ServiceFacts.NonAsciiSignatureRaises` | `Service.VerifySignature` |

The strict validators `Models.IsE164` and `Models.IsIso8601Z` are what `Models.Validate` uses. The corrected `Service.VerifySignature` is what `Service.Process` and `Service.Webhook` use. `Service.ProcessAsWritten` keeps the source's comparison and patterns, and `ServiceFacts.TrailingNewlineDeliveryStored` shows the first row's input reaching the store there.
