# ResourcesTable — a Dafny model of the resource store

This project models `ResourcesTable`, the store that records every network
exchange a browser session makes: one row per resource, 38 columns. The store
has two tiers. Rows queued by `save` and `insert` wait in an in-memory list of
pending inserts. Rows already flushed live in the SQLite table. The model keeps
both tiers as the fields of a class:

- `pending: seq<Row>` is the queue of pending inserts, in insertion order;
- `durable: map<int, Row>` is the table, keyed by the `id` primary key.

A row is a sequence of SQLite cells (`Null`, `Int`, `Text`, `Blob`), in the
order of the column list given to the table's constructor. A record
(`IResourcesRecord`) is the datatype `Records.Resource`, with one optional field
per column and the four flag columns as booleans. `Records.Encode` builds the
row `save` queues. `Records.Decode` turns a row back into a record, and
`Records.DecodeEncode` proves that the pair round-trips.

The operations are:

- the point reads `get`, `getResponse`, `getResourcePostDataById` and
  `getResourceBodyById`;
- the point updates `updateReceivedTime`, `updateSeenAtCommandId` and
  `updateBrowserRequestId`;
- the appends `save` and `insert`;
- the field-by-field merge `mergeWithExisting`, which also updates the
  caller's in-memory resource meta;
- the scans `filter` and `withResponseTimeInRange`, with the static helpers
  `toResourceSummary` and `getErrorString`.

`JSON.stringify` and `JSON.parse` are passed in as function parameters
(`Common.Stringify`, `Common.Parse`), and the model assumes nothing about them.
Header maps are `map<string, string>`.

Modules:

- `Common`: `Option`, the header map type, and the JSON parameter types.
- `Records`: the column list, cells and rows, the `Resource` record, and the
  row encoding and decoding.
- `Meta`: the caller-side resource meta, `getErrorString`, and the row built by
  `insert`.
- `Merge`: the pure part of `mergeWithExisting`, and what a sequence of merges
  does to a record.
- `Summary`: `toResourceSummary`, the `filter` row predicate and the time-range
  predicate.
- `Scan`: a generic scan that selects and projects the entries of a map.
- `ResourceStore`: the two tiers, read-your-writes, the `ResourcesTable` class
  and its methods.

`get`, `getResourcePostDataById` and `getResourceBodyById` consult the
pending queue before the table. `getResponse`, `filter` and `withResponseTimeInRange` query
the table only (core/models/ResourcesTable.ts:329-339, 348-353, 377-381), so
they do not see pending rows, and the model states them over `durable` alone.

The `filter` query does not select `browserLoadedTimestamp` or
`responseTimestamp`. Every summary it lists therefore has no timestamp
(`Summary.FilterSummary`).

`mergeWithExisting` replaces stored response headers only when the new
serialised headers are strictly longer than a stored string. A stored null is
never replaced, because `n > undefined` is false in JavaScript. Lengths are
JavaScript's `.length`, counted in UTF-16 code units (`Common.Utf16Length`).
`Merge.HeadersGrowToLongest` states what a run of merges does as a result.

## Model

| member | source | states |
|---|---|---|
| Records.Encode | core/models/ResourcesTable.ts:176-217 | the row `save` queues has one cell per column (38) and its first cell is the record's id |
| Records.EncodeAtFits | core/models/ResourcesTable.ts:14-53 | each encoded cell has its column's SQLite type, and every flag column holds 1 or 0 |
| Records.EncodeWellFormed | core/models/ResourcesTable.ts:176-217 | every row `save` builds is well formed: 38 cells of the declared column types, with flags 1/0 |
| Records.Decode | core/models/ResourcesTable.ts:93-98 | the record read back from a row carries the row's id |
| Records.DecodeEncode | core/models/ResourcesTable.ts:176-217 | reading back the row `save` queued gives the saved record, field for field (flags through truthiness) |
| Records.EncodeKeepsIdentityFields | core/models/ResourcesTable.ts:178-186 | columns 1-8 of the saved row hold devtoolsRequestId, tabId, frameId, socketId, protocol, type, receivedAtCommandId and seenAtCommandId |
| Records.EncodeKeepsRequestFields | core/models/ResourcesTable.ts:187-193 | columns 9-15 hold the request method, url, headers, trailers, timestamp, post data and redirect url |
| Records.EncodeKeepsResponseFields | core/models/ResourcesTable.ts:194-203 | columns 16-25 hold the status, response url, headers, trailers, timestamp, encoding, body, body size and resolved IP |
| Records.EncodeKeepsProcessingFields | core/models/ResourcesTable.ts:204-215 | columns 26-37 hold the processing details; each flag reads back as the boolean saved |
| Records.IndexOfColumn | core/models/ResourcesTable.ts:62 | `findIndex` gives the first column with that name, or -1 exactly when there is none |
| Records.BrowserLoadedTimestampIndex | core/models/ResourcesTable.ts:62 | the column `updateReceivedTime` looks up is position 32 |
| Records.NameDiffers | core/models/ResourcesTable.ts:47 | no other column is named `browserLoadedTimestamp` |
| Records.SetCellWellFormed | core/models/ResourcesTable.ts:63 | writing a value of the column's type into a non-id, non-flag column keeps the row well formed |
| Records.DecodeSetLoadedTimestamp | core/models/ResourcesTable.ts:63 | writing the timestamp cell changes only the record's browserLoadedTimestamp |
| Records.DecodeSetRequestId | core/models/ResourcesTable.ts:84-85 | writing cells 1 and 2 changes only devtoolsRequestId and tabId |
| Records.DecodeSetSeenAt | core/models/ResourcesTable.ts:73 | writing the seenAtCommandId cell changes only that field |
| Meta.ErrorFields | core/models/ResourcesTable.ts:441-446 | the object serialised for an error has name, stack and message, and the error's own properties override them |
| Meta.GetErrorString | core/models/ResourcesTable.ts:438-448 | a result exists iff the error is truthy; a string error comes back unchanged; an error object is serialised with its fields |
| Meta.ContentEncoding | core/models/ResourcesTable.ts:276-281 | no encoding without response headers; otherwise `Content-Encoding`, falling back to `content-encoding` |
| Meta.InsertRecord | core/models/ResourcesTable.ts:266-322 | the record `insert` queues: the given tab, null seenAtCommandId, serialised header maps defaulting to `{}`, response columns only when the meta has a response, encoding, error string, post data and flags |
| Common.Utf16Length | core/models/ResourcesTable.ts:246 | JavaScript's `.length` of a string: between one and two code units per character |
| Common.Utf16LengthOfBmp | core/models/ResourcesTable.ts:246 | a string without characters outside the Basic Multilingual Plane has one code unit per character |
| Common.Utf16LengthConcat | core/models/ResourcesTable.ts:246 | code units add up over concatenation |
| Merge.AstralHeadersKept | core/models/ResourcesTable.ts:244-249 | three stored characters outside the Basic Multilingual Plane (6 code units) are kept against a 4-character serialisation |
| Merge.KeepLonger | core/models/ResourcesTable.ts:244-256 | stored headers change only when the new serialisation has strictly more UTF-16 code units than a stored string; a null stays null and the result never gets shorter |
| Merge.MergeRecord | core/models/ResourcesTable.ts:226-259 | type, devtoolsRequestId, redirectedToUrl, statusCode, statusMessage, browserLoadedTimestamp and frameId are filled only when null; blocked reason, canceled and load failure come from the latest event; both header rules; httpError set exactly when an error is passed; nothing else changes |
| Merge.MergeMeta | core/models/ResourcesTable.ts:229-261 | the caller's meta gets its type filled when missing, a response if it had none, the new headers exactly when the stored headers were replaced, and the latest load failure; nothing else changes |
| Merge.MetaHeadersFollowRecord | core/models/ResourcesTable.ts:244-249 | the meta's headers change iff the record's stored headers were replaced |
| Merge.MergeIdempotent | core/models/ResourcesTable.ts:226-259 | merging the same details twice gives the same record as merging once |
| Merge.LongerHeadersWin | core/models/ResourcesTable.ts:244-249 | with stored headers, the record keeps the serialisation that is longer, the stored one on a tie |
| Merge.MergeAll | core/models/ResourcesTable.ts:219-264 | a run of merges never changes the record's id |
| Merge.FirstSome | core/models/ResourcesTable.ts:234 | the first present value of a sequence exists iff one of its entries is present, and it is the entry at the first present position |
| Merge.StatusCodesSeen | core/models/ResourcesTable.ts:234 | the status codes the merge events carry, event by event |
| Merge.RedirectsSeen | core/models/ResourcesTable.ts:233 | the redirect urls the failure events carry, event by event |
| Merge.FirstObservedWins | core/models/ResourcesTable.ts:233-234 | after any run of merges, statusCode and redirectedToUrl are the first values ever observed |
| Merge.StatusCodeNeverCleared | core/models/ResourcesTable.ts:234 | once a status code is stored, no merge changes it |
| Merge.LongestHeaders | core/models/ResourcesTable.ts:244-249 | the longest header serialisation over a run bounds the stored length and each event's own, and is one of them |
| Merge.HeadersGrowToLongest | core/models/ResourcesTable.ts:244-249 | over a run of merges, null stored headers stay null, and stored headers end as long as the longest serialisation seen |
| Merge.TransientFieldsFromLastEvent | core/models/ResourcesTable.ts:231-236 | after a run, blocked reason, canceled and load failure are those of the last event, even when null |
| Merge.ErrorIsPermanent | core/models/ResourcesTable.ts:257-259 | once an error is stored or any merge passes one, httpError stays set |
| Summary.ToResourceSummary | core/models/ResourcesTable.ts:417-436 | the summary copies id, frame, tab, request url, method, type, status and redirect; its time is browserLoadedTimestamp ?? responseTimestamp; hasResponse iff the header string is truthy; content type from the parsed headers (`Content-Type`, then `content-type`) |
| Summary.FilterKeeps | core/models/ResourcesTable.ts:345-366 | with no filter every row is kept; with `hasResponse`, a row needs a body or a redirect (the where clause) and a header string other than empty or `'{}'`; with `isGetOrDocument`, a kept row is a GET request or else a document |
| Summary.InTimeRange | core/models/ResourcesTable.ts:333-336 | a row is selected iff it is on the tab and its time `browserLoadedTimestamp ?? responseTimestamp` is present and within the window |
| Summary.FilterSummary | core/models/ResourcesTable.ts:350-351 | a summary `filter` lists never carries a timestamp |
| Summary.FilterSummaryOmitsOnlyTime | core/models/ResourcesTable.ts:350-368 | apart from the timestamp, `filter` lists the same summary as `toResourceSummary` |
| Summary.RangeSummaryInWindow | core/models/ResourcesTable.ts:331-339 | a record the range query selects shows the tab and a time inside the window |
| Summary.FilteredHaveResponse | core/models/ResourcesTable.ts:345-359 | with `hasResponse`, every summary kept reports hasResponse |
| Summary.FilterListsHaveResponse | core/models/ResourcesTable.ts:342-369 | a `hasResponse` listing of kept records contains only summaries with hasResponse |
| Summary.RangeListsInWindow | core/models/ResourcesTable.ts:324-340 | every summary in a range listing shows the tab and a time within the window |
| Scan.GatherOne | core/models/ResourcesTable.ts:355-368 | adding one more kept record to a partial scan keeps the scan's invariant |
| Scan.ListsKept | core/models/ResourcesTable.ts:355-368 | a listing built position by position from kept records, covering every kept record, holds exactly the projections of the kept records |
| Scan.Select | core/models/ResourcesTable.ts:355-368 | the scan lists the projection of each kept entry, each entry once, lists every kept entry, and lists nothing else |
| ResourceStore.LastIndexOf | core/models/ResourcesTable.ts:59-61 | the position of the last pending row with that id, or none iff no pending row has it |
| ResourceStore.ReadRecord | core/models/ResourcesTable.ts:93-98 | a record read for an id carries that id |
| ResourceStore.ReadRecordSpec | core/models/ResourcesTable.ts:93-98 | `get` finds a record iff a pending or a written row has the id; the last pending row wins, and the table is read only when none is pending |
| ResourceStore.ReadAfterAppend | core/models/ResourcesTable.ts:176-177 | after a row is queued, a read of its id gives the row and other ids read as before |
| ResourceStore.ReadAfterPendingWrite | core/models/ResourcesTable.ts:59-64 | rewriting a pending row with the same id keeps the last-row positions and changes only what that row is read as |
| ResourceStore.ReadAfterDurableWrite | core/models/ResourcesTable.ts:66-68 | rewriting a written row changes reads only of that id, and only when no row for it is pending |
| ResourceStore.AppendPoint | core/models/ResourcesTable.ts:177 | a queued row is what its id reads as; every other id reads as before |
| ResourceStore.PendingPointWrite | core/models/ResourcesTable.ts:81-86 | rewriting the last pending row of an id changes the read of that id from the old row to the new one and no other read |
| ResourceStore.DurablePointWrite | core/models/ResourcesTable.ts:88-90 | with nothing pending for the id, rewriting its written row changes its read from the old row to the new one and no other read |
| ResourceStore.SetDurableCell | core/models/ResourcesTable.ts:66-68 | `update ... set <col>=? where id=?` changes that one cell of the row keyed by the id, if there is one, and no other row |
| ResourceStore.SeenAtCommandIdAsWritten | core/models/ResourcesTable.ts:71-75 | the statement as bound writes `id` as the seenAtCommandId of the row keyed `seenAtCommandId`, changes no other field or row, and keeps the table well formed |
| ResourceStore.SeenAtCommandIdIntended | core/models/ResourcesTable.ts:71-75 | the row keyed `id` gets seenAtCommandId and nothing else changes |
| ResourceStore.SeenAtCommandIdSwapped | core/models/ResourcesTable.ts:71-75 | as bound, the statement leaves row `id` unchanged (so it misses the intended value) and overwrites row `seenAtCommandId` instead |
| ResourceStore.FirstTruthy | core/models/ResourcesTable.ts:389 | `find` gives the first pending row of the id whose cell is truthy, or none iff there is no such row |
| ResourceStore.LongerHeaders | core/models/ResourcesTable.ts:244-256 | the two-step header update leaves the stored headers as the longer-wins rule says |
| ResourceStore.MergeStoredFields | core/models/ResourcesTable.ts:226-259 | the header blocks, the error and the field assignments on the fetched record give the merged record |
| ResourceStore.MergeCallerMeta | core/models/ResourcesTable.ts:229-261 | the updates of the caller's meta give the merged meta |
| ResourceStore.DecodedRows | core/models/ResourcesTable.ts:329-353 | the table read as records has the same ids, each record carrying its key |
| ResourceStore.FilterListing | core/models/ResourcesTable.ts:342-369 | a scan that lists the summaries of distinct kept records, and every kept record, is what `filter` returns |
| ResourceStore.RangeListing | core/models/ResourcesTable.ts:324-340 | a scan that lists the summaries of distinct records in the window, and every one of them, is what `withResponseTimeInRange` returns |
| ResourceStore.FilterRecords | core/models/ResourcesTable.ts:342-369 | lists every kept record's summary once and nothing else; with `hasResponse` every summary has a response, and none has a time |
| ResourceStore.RangeRecords | core/models/ResourcesTable.ts:324-340 | lists once each the summary of every record of the tab within the window, and nothing else; each shows the tab and a time in the window |
| ResourceStore.ResourcesTable.constructor | core/models/ResourcesTable.ts:10-56 | a new store has no pending rows over the existing table |
| ResourceStore.ResourcesTable.Get | core/models/ResourcesTable.ts:93-98 | `get` finds a record exactly when a queued or a written row has the id, and the record carries that id |
| ResourceStore.ResourcesTable.UpdateReceivedTime | core/models/ResourcesTable.ts:58-69 | the last pending row of the id gets the timestamp in place, with no table write; otherwise the written row does; only that record's browserLoadedTimestamp changes, and the queue keeps its length |
| ResourceStore.ResourcesTable.UpdateSeenAtCommandId | core/models/ResourcesTable.ts:71-75 | writes the table only (the queue is untouched); the row keyed by the id gets seenAtCommandId; no other id reads differently |
| ResourceStore.ResourcesTable.UpdateBrowserRequestId | core/models/ResourcesTable.ts:77-91 | the last pending row of the id gets devtoolsRequestId and tabId in place, with no table write; otherwise the written row does; nothing else changes and the queue keeps its length |
| ResourceStore.ResourcesTable.QueueRow | core/models/ResourcesTable.ts:177 | queuing appends exactly one row; its id then reads as that row and no other read changes |
| ResourceStore.ResourcesTable.Save | core/models/ResourcesTable.ts:176-217 | appends exactly the encoded record; `get` of its id then returns the record; other ids unchanged |
| ResourceStore.ResourcesTable.Insert | core/models/ResourcesTable.ts:266-322 | appends exactly the row of the insert record; `get` of the meta's id returns that record; other ids unchanged |
| ResourceStore.ResourcesTable.MergeWithExisting | core/models/ResourcesTable.ts:219-264 | queues exactly one row, the merge of the stored record; `get` then returns it; the caller's meta comes back merged; other ids unchanged |
| ResourceStore.ResourcesTable.FindPending | core/models/ResourcesTable.ts:387-389 | the loop finds the first pending row of the id with a truthy cell |
| ResourceStore.ResourcesTable.GetResourcePostDataById | core/models/ResourcesTable.ts:386-398 | post data from the first pending row that has some, else from the written row; null unless truthy |
| ResourceStore.ResourcesTable.GetResourceBodyById | core/models/ResourcesTable.ts:400-415 | not found iff no pending row has a body and no row is written; body and encoding from the first pending row with a body, else the written row; raw exactly when decompression is off |
| ResourceStore.ResourcesTable.GetResponse | core/models/ResourcesTable.ts:371-384 | a result iff the id is in the table, with its encoding, headers, status code and body |
| ResourceStore.ResourcesTable.Filter | core/models/ResourcesTable.ts:342-369 | returns exactly the `filter` listing of the written records |
| ResourceStore.ResourcesTable.WithResponseTimeInRange | core/models/ResourcesTable.ts:324-340 | returns exactly the time-range listing of the written records |

## Left out

- `getMeta` (core/models/ResourcesTable.ts:100-174) is not modelled. It awaits `decompressBuffer`, parses the stored headers with `JSON.parse` and rebuilds `Buffer`s. All of that is library behaviour. Apart from the url fallback `responseUrl ?? requestUrl` (line 145) and the redirect flag `!!redirectedToUrl` (line 148), the rest copies columns.
- Decompression is not modelled. `GetResourceBodyById` returns a `Decompress(data, encoding)` tag in place of the awaited `decompressBuffer` result.
- SQLite is not modelled. The table is a map from id to row, and no SQL is evaluated. The `SqliteTable` base class is not part of this model. Its `queuePendingInsert`, `findPendingInserts` and `findPendingRecords` are modelled as an append and scans over `pending`. Its row-to-record conversion is `Records.Decode`.
- Flushing is not modelled, nor the durability and concurrent-access behaviour that comes with it: pending rows never move into the table in this model.
- `JSON.stringify` and `JSON.parse` are uninterpreted parameters. Nothing is assumed about round trips or parse failures.
- Header values are strings. Multi-valued headers and non-string values are not modelled.
- Timestamps are integers. The source's floating-point millisecond times are not modelled, and neither is the `DATETIME` column affinity.
- Post data is a string, the result of `postData?.toString()`. `Buffer.from` on the way out is not modelled.
- In `mergeWithExisting`, `existingResource.response` can end up as the same object as `newResourceDetails.response`. Aliasing between the caller's meta and the details is not modelled: both are values.
- `ResourceStore.ResourcesTable.MergeWithExisting`: requires a stored record for the id and a response in the new details. Without a stored record the source throws a TypeError at line 228 (`existingDbRecord.type`). Without a response it throws at line 234, 235 or 236. Lines 234 and 235 dereference the response only when the stored status code or message is null, since `??=` evaluates its right side only then; line 236 dereferences it unconditionally. By then line 229 has already filled the type of the caller's meta, an effect the model does not capture. Neither throwing call is modelled.
- `Merge.MergeAll`: states only that a run of merges keeps the id. What a run does to each field is stated by the lemmas about it.
- `Merge.StatusCodesSeen`, `Merge.RedirectsSeen`: these are helper projections for the lemmas about runs of merges.
- `ResourceStore.ResourcesTable.Filter`, `ResourceStore.ResourcesTable.WithResponseTimeInRange`: these list the records in an unspecified order. SQLite's row order, which the source does not fix with `order by`, is not modelled. Length is stated through distinct ids, not as a set cardinality.
- `ResourceStore.ResourcesTable.UpdateSeenAtCommandId`: it models the statement with its arguments in the intended order. The statement as bound is `ResourceStore.SeenAtCommandIdAsWritten` (see Findings).

## Findings

| source | as written | input that shows it | evidently intended | confidence | as-written member | corrected member |
|---|---|---|---|---|---|---|
| core/models/ResourcesTable.ts:71-75 | `update ... set seenAtCommandId=? where id=?` is run with `(id, seenAtCommandId)`, so the value `id` is written into the row keyed `seenAtCommandId` | rows 1 and 2 written, `updateSeenAtCommandId(1, 2)`: row 1 keeps its seenAtCommandId, row 2 gets seenAtCommandId 1 | row `id` gets seenAtCommandId `seenAtCommandId` | not executed | ResourceStore.SeenAtCommandIdSwapped | ResourceStore.SeenAtCommandIdIntended |
