/** The resource store: a two-tier table of captured network exchanges. Rows
    waiting to be written sit in an ordered in-memory queue (`pending`); rows
    already written are keyed by id (`durable`). Point reads and updates look
    at the queue first; the scans read only the written rows. */
module ResourceStore {
  import opened Common
  import opened Records
  import opened Meta
  import opened Merge
  import opened Summary
  import opened Scan

  /** Every queued row is well formed. */
  ghost predicate PendingTier(pending: seq<Row>) {
    forall k :: 0 <= k < |pending| ==> WellFormed(pending[k])
  }

  /** Every written row is well formed and keyed by its own id. */
  ghost predicate DurableTier(durable: map<int, Row>) {
    forall id :: id in durable ==> WellFormed(durable[id]) && RowId(durable[id]) == id
  }

  /** The position of the last queued row for `id` (`findPendingInserts(x =>
      x[0] === id).pop()`). */
  function LastIndexOf(rows: seq<Row>, id: int): (r: Option<nat>)
    ensures r.Some? ==> r.value < |rows| && RowId(rows[r.value]) == id
    ensures r.Some? ==> forall j :: r.value < j < |rows| ==> RowId(rows[j]) != id
    ensures r.None? ==> forall j :: 0 <= j < |rows| ==> RowId(rows[j]) != id
  {
    if |rows| == 0 then None
    else if RowId(rows[|rows| - 1]) == id then Some(|rows| - 1)
    else LastIndexOf(rows[..|rows| - 1], id)
  }

  /** `get(id)`: the record of the last queued row for `id` if there is one,
      otherwise the written row, otherwise nothing. */
  function ReadRecord(pending: seq<Row>, durable: map<int, Row>, id: int): (r: Option<Resource>)
    requires PendingTier(pending) && DurableTier(durable)
    ensures r.Some? ==> r.value.id == id
  {
    match LastIndexOf(pending, id)
    case Some(k) => Some(Decode(pending[k]))
    case None => if id in durable then Some(Decode(durable[id])) else None
  }

  /** The read of an id: present exactly when some row for it is queued or
      written; when one is queued, it is the last such row that is read, and
      only otherwise the written row. */
  lemma ReadRecordSpec(pending: seq<Row>, durable: map<int, Row>, id: int)
    requires PendingTier(pending) && DurableTier(durable)
    ensures ReadRecord(pending, durable, id).Some? <==> id in durable || exists k :: 0 <= k < |pending| && RowId(pending[k]) == id
    ensures (exists k :: 0 <= k < |pending| && RowId(pending[k]) == id) ==>
              exists k :: && 0 <= k < |pending| && RowId(pending[k]) == id
                          && (forall j :: k < j < |pending| ==> RowId(pending[j]) != id)
                          && ReadRecord(pending, durable, id) == Some(Decode(pending[k]))
    ensures (forall k :: 0 <= k < |pending| ==> RowId(pending[k]) != id) && id in durable ==>
              ReadRecord(pending, durable, id) == Some(Decode(durable[id]))
  {
  }

  /** Queueing a row makes it the one read for its id and leaves every other
      id's read unchanged. */
  lemma ReadAfterAppend(pending: seq<Row>, durable: map<int, Row>, row: Row, id: int)
    requires PendingTier(pending) && DurableTier(durable) && WellFormed(row)
    ensures PendingTier(pending + [row])
    ensures ReadRecord(pending + [row], durable, id) ==
              if RowId(row) == id then Some(Decode(row)) else ReadRecord(pending, durable, id)
  {
    var p := pending + [row];
    assert p[..|p| - 1] == pending;
  }

  /** Rewriting a queued row in place, keeping its id, changes the read of
      that id only when it is the last queued row for it. */
  lemma ReadAfterPendingWrite(pending: seq<Row>, durable: map<int, Row>, k: nat, row: Row, id: int)
    requires PendingTier(pending) && DurableTier(durable) && WellFormed(row)
    requires k < |pending| && RowId(row) == RowId(pending[k])
    ensures PendingTier(pending[k := row])
    ensures LastIndexOf(pending[k := row], id) == LastIndexOf(pending, id)
    ensures ReadRecord(pending[k := row], durable, id) ==
              if LastIndexOf(pending, id) == Some(k) then Some(Decode(row)) else ReadRecord(pending, durable, id)
  {
    var p := pending[k := row];
    assert forall j :: 0 <= j < |p| ==> RowId(p[j]) == RowId(pending[j]);
  }

  /** Rewriting a written row, keeping its id, changes the read of that id only
      when no row for it is queued. */
  lemma ReadAfterDurableWrite(pending: seq<Row>, durable: map<int, Row>, key: int, row: Row, id: int)
    requires PendingTier(pending) && DurableTier(durable) && WellFormed(row)
    requires key in durable && RowId(row) == key
    ensures DurableTier(durable[key := row])
    ensures ReadRecord(pending, durable[key := row], id) ==
              if id == key && LastIndexOf(pending, id).None? then Some(Decode(row)) else ReadRecord(pending, durable, id)
  {
  }

  /** Queueing a row changes the read of its id to that row and no other
      read. */
  lemma AppendPoint(pending: seq<Row>, durable: map<int, Row>, row: Row)
    requires PendingTier(pending) && DurableTier(durable) && WellFormed(row)
    ensures PendingTier(pending + [row])
    ensures ReadRecord(pending + [row], durable, RowId(row)) == Some(Decode(row))
    ensures forall q :: q != RowId(row) ==> ReadRecord(pending + [row], durable, q) == ReadRecord(pending, durable, q)
  {
    ReadAfterAppend(pending, durable, row, RowId(row));
    forall q | q != RowId(row)
      ensures ReadRecord(pending + [row], durable, q) == ReadRecord(pending, durable, q)
    {
      ReadAfterAppend(pending, durable, row, q);
    }
  }

  /** Rewriting the last queued row for `id` (keeping its id) changes the
      read of `id` to the new row and no other read. */
  lemma PendingPointWrite(pending: seq<Row>, durable: map<int, Row>, id: int, k: nat, row: Row)
    requires PendingTier(pending) && DurableTier(durable) && WellFormed(row)
    requires LastIndexOf(pending, id) == Some(k) && RowId(row) == id
    ensures PendingTier(pending[k := row])
    ensures ReadRecord(pending, durable, id) == Some(Decode(pending[k]))
    ensures ReadRecord(pending[k := row], durable, id) == Some(Decode(row))
    ensures forall q :: q != id ==> ReadRecord(pending[k := row], durable, q) == ReadRecord(pending, durable, q)
  {
    ReadAfterPendingWrite(pending, durable, k, row, id);
    forall q | q != id
      ensures ReadRecord(pending[k := row], durable, q) == ReadRecord(pending, durable, q)
    {
      ReadAfterPendingWrite(pending, durable, k, row, q);
    }
  }

  /** With no row for `id` queued, rewriting its written row (keeping its id)
      changes the read of `id` to the new row and no other read. */
  lemma DurablePointWrite(pending: seq<Row>, durable: map<int, Row>, id: int, row: Row)
    requires PendingTier(pending) && DurableTier(durable) && WellFormed(row)
    requires id in durable && RowId(row) == id && LastIndexOf(pending, id).None?
    ensures DurableTier(durable[id := row])
    ensures ReadRecord(pending, durable, id) == Some(Decode(durable[id]))
    ensures ReadRecord(pending, durable[id := row], id) == Some(Decode(row))
    ensures forall q :: q != id ==> ReadRecord(pending, durable[id := row], q) == ReadRecord(pending, durable, q)
  {
    ReadAfterDurableWrite(pending, durable, id, row, id);
    forall q | q != id
      ensures ReadRecord(pending, durable[id := row], q) == ReadRecord(pending, durable, q)
    {
      ReadAfterDurableWrite(pending, durable, id, row, q);
    }
  }

  /** `update ... set <col>=? where id=?` on the written rows: the row keyed
      `key`, if any, gets cell `c` in column `col`. */
  function SetDurableCell(durable: map<int, Row>, key: int, col: int, c: Cell): (r: map<int, Row>)
    requires 0 <= col
    requires key in durable ==> col < |durable[key]|
    ensures r.Keys == durable.Keys
    ensures forall id :: id in durable && id != key ==> r[id] == durable[id]
    ensures key in durable ==> r[key] == durable[key][col := c]
  {
    if key in durable then durable[key := durable[key][col := c]] else durable
  }

  /** `updateSeenAtCommandId` as written: it binds `(id, seenAtCommandId)` to
      `set seenAtCommandId=? where id=?`, so the value `id` goes into the row
      keyed `seenAtCommandId`. */
  function SeenAtCommandIdAsWritten(durable: map<int, Row>, id: int, seenAtCommandId: int): (r: map<int, Row>)
    requires DurableTier(durable)
    ensures DurableTier(r)
    ensures r.Keys == durable.Keys
    ensures seenAtCommandId in durable ==>
              Decode(r[seenAtCommandId]) == Decode(durable[seenAtCommandId]).(seenAtCommandId := Some(id))
    ensures forall other :: other in durable && other != seenAtCommandId ==> r[other] == durable[other]
  {
    if seenAtCommandId in durable then
      SetCellWellFormed(durable[seenAtCommandId], SeenAtCommandIdCol, Int(id));
      DecodeSetSeenAt(durable[seenAtCommandId], id);
      SetDurableCell(durable, seenAtCommandId, SeenAtCommandIdCol, Int(id))
    else durable
  }

  /** What `updateSeenAtCommandId` is evidently meant to do: record
      `seenAtCommandId` on the written row `id`. */
  function SeenAtCommandIdIntended(durable: map<int, Row>, id: int, seenAtCommandId: int): (r: map<int, Row>)
    requires DurableTier(durable)
    ensures DurableTier(r)
    ensures r.Keys == durable.Keys
    ensures id in durable ==> Decode(r[id]) == Decode(durable[id]).(seenAtCommandId := Some(seenAtCommandId))
    ensures forall other :: other in durable && other != id ==> r[other] == durable[other]
  {
    if id in durable then
      SetCellWellFormed(durable[id], SeenAtCommandIdCol, Int(seenAtCommandId));
      DecodeSetSeenAt(durable[id], seenAtCommandId);
      SetDurableCell(durable, id, SeenAtCommandIdCol, Int(seenAtCommandId))
    else durable
  }

  /** The swapped arguments miss their row: for any two different ids, the row
      `id` is left as it was, and when a row keyed `seenAtCommandId` exists it
      is the one that records `id`, although `id` names a resource, not a
      command. */
  lemma SeenAtCommandIdSwapped(durable: map<int, Row>, id: int, seenAtCommandId: int)
    requires DurableTier(durable) && id in durable && id != seenAtCommandId
    ensures SeenAtCommandIdAsWritten(durable, id, seenAtCommandId)[id] == durable[id]
    ensures Decode(durable[id]).seenAtCommandId != Some(seenAtCommandId) ==>
              SeenAtCommandIdAsWritten(durable, id, seenAtCommandId)[id] != SeenAtCommandIdIntended(durable, id, seenAtCommandId)[id]
    ensures seenAtCommandId in durable ==>
              Decode(SeenAtCommandIdAsWritten(durable, id, seenAtCommandId)[seenAtCommandId]).seenAtCommandId == Some(id)
  {
    if seenAtCommandId in durable {
      DecodeSetSeenAt(durable[seenAtCommandId], id);
    }
  }

  /** The first queued row for `id` whose column `col` is truthy
      (`findPendingRecords(x => x[0] === id).find(x => !!x.<col>)`). */
  predicate Matches(row: Row, id: int, col: nat) {
    RowId(row) == id && col < |row| && Truthy(row[col])
  }

  function FirstTruthy(rows: seq<Row>, id: int, col: nat): (r: Option<nat>)
    ensures r.Some? ==> r.value < |rows| && Matches(rows[r.value], id, col)
    ensures r.Some? ==> forall j :: 0 <= j < r.value ==> !Matches(rows[j], id, col)
    ensures r.None? ==> forall j :: 0 <= j < |rows| ==> !Matches(rows[j], id, col)
  {
    if |rows| == 0 then None
    else if Matches(rows[0], id, col) then Some(0)
    else
      var k := FirstTruthy(rows[1..], id, col);
      if k.Some? then Some(k.value + 1) else None
  }

  /** What `getResourceBodyById` resolves to: no record at all, the stored
      body as it is, or the result of `decompressBuffer` on the stored body
      and encoding (the decompression itself is not modelled). */
  datatype BodyRead =
    | NotFound
    | Raw(data: Option<Bytes>)
    | Decompress(data: Option<Bytes>, encoding: Option<string>)

  /** The columns `getResponse` selects. */
  datatype StoredResponse = StoredResponse(
    responseEncoding: Option<string>,
    responseHeaders: Option<string>,
    statusCode: Option<int>,
    responseData: Option<Bytes>
  )

  /** One header block of `mergeWithExisting`: the incoming header set, when
      present, replaces the stored serialisation if its own is longer. */
  method LongerHeaders(stored: Option<string>, incoming: Option<StringMap>, stringify: Stringify)
    returns (r: Option<string>)
    ensures r == KeepLonger(stored, incoming, stringify)
  {
    r := stored;
    if incoming.Some? {
      var serialised := stringify(incoming.value);
      if stored.Some? && Utf16Length(serialised) > Utf16Length(stored.value) {
        r := Some(serialised);
      }
    }
  }

  /** The record half of `mergeWithExisting`. The two header blocks and the
      error are worked out first; every assignment of the source touches a
      different field, so they are then made together in one update. */
  method MergeStoredFields(stored: Resource, details: ResourceMeta, failed: ProcessingDetails,
                           error: Option<ErrorValue>, stringify: Stringify) returns (rec: Resource)
    requires details.response.Some?
    ensures rec == MergeRecord(stored, details, failed, error, stringify)
  {
    var response := details.response.value;
    var responseHeaders := LongerHeaders(stored.responseHeaders, response.headers, stringify);
    var originalHeaders := LongerHeaders(stored.responseOriginalHeaders, failed.responseOriginalHeaders, stringify);
    var httpError := stored.httpError;
    if ErrorIsTruthy(error) {
      httpError := GetErrorString(error, stringify);
    }
    rec := stored.(
      resourceType := OrElse(stored.resourceType, details.resourceType),
      devtoolsRequestId := OrElse(stored.devtoolsRequestId, failed.browserRequestId),
      browserBlockedReason := failed.browserBlockedReason,
      browserCanceled := failed.browserCanceled,
      redirectedToUrl := OrElse(stored.redirectedToUrl, failed.redirectedToUrl),
      statusCode := OrElse(stored.statusCode, response.statusCode),
      statusMessage := OrElse(stored.statusMessage, response.statusMessage),
      browserLoadFailure := response.browserLoadFailure,
      browserLoadedTimestamp := OrElse(stored.browserLoadedTimestamp, response.timestamp),
      frameId := OrElse(stored.frameId, details.frameId),
      responseHeaders := responseHeaders,
      responseOriginalHeaders := originalHeaders,
      httpError := httpError);
  }

  /** The caller's-meta half of `mergeWithExisting`; `stored` is the record
      before the merge, whose headers decide whether the meta's change. */
  method MergeCallerMeta(existing: ResourceMeta, stored: Resource, details: ResourceMeta, stringify: Stringify)
    returns (merged: ResourceMeta)
    requires details.response.Some?
    ensures merged == MergeMeta(existing, stored, details, stringify)
  {
    var response := details.response.value;
    merged := existing;
    merged := merged.(resourceType := OrElse(merged.resourceType, details.resourceType));
    if merged.response.None? {
      merged := merged.(response := details.response);
    }
    if response.headers.Some? {
      var responseHeaders := stringify(response.headers.value);
      if stored.responseHeaders.Some? && Utf16Length(responseHeaders) > Utf16Length(stored.responseHeaders.value) {
        merged := merged.(response := Some(merged.response.value.(headers := response.headers)));
      }
    }
    merged := merged.(response := Some(merged.response.value.(browserLoadFailure := response.browserLoadFailure)));
  }

  /** Every written row decoded, by id. */
  function DecodedRows(durable: map<int, Row>): (m: map<int, Resource>)
    requires DurableTier(durable)
    ensures m.Keys == durable.Keys
    ensures forall id :: id in m ==> m[id].id == id
  {
    map id | id in durable :: Decode(durable[id])
  }

  /** What `filter` lists for the written records `records`: the summary of
      every record it keeps and nothing else, each resource once, every one
      with a response when asked for that, and none with a time. */
  ghost predicate ListsFiltered(records: map<int, Resource>, r: seq<ResourceSummary>,
                                hasResponse: bool, isGetOrDocument: bool, parse: Parse)
  {
    && (forall s :: s in r ==>
          exists id :: id in records && FilterKeeps(records[id], hasResponse, isGetOrDocument)
                       && s == FilterSummary(records[id], parse))
    && (forall id :: id in records && FilterKeeps(records[id], hasResponse, isGetOrDocument) ==>
          FilterSummary(records[id], parse) in r)
    && (forall i, j :: 0 <= i < j < |r| ==> r[i].id != r[j].id)
    && (hasResponse ==> forall s :: s in r ==> s.hasResponse)
    && (forall s :: s in r ==> s.timestamp.None?)
  }

  /** What `withResponseTimeInRange` lists for the written records `records`:
      the summary of every record of the tab in the window and nothing else,
      each resource once, every one showing the tab and a time in the window. */
  ghost predicate ListsInRange(records: map<int, Resource>, r: seq<ResourceSummary>,
                               tabId: int, startTime: int, endTime: int, parse: Parse)
  {
    && (forall s :: s in r ==>
          exists id :: id in records && InTimeRange(records[id], tabId, startTime, endTime)
                       && s == ToResourceSummary(records[id], parse))
    && (forall id :: id in records && InTimeRange(records[id], tabId, startTime, endTime) ==>
          ToResourceSummary(records[id], parse) in r)
    && (forall i, j :: 0 <= i < j < |r| ==> r[i].id != r[j].id)
    && (forall s :: s in r ==>
          s.tabId == Some(tabId) && s.timestamp.Some? && startTime <= s.timestamp.value <= endTime)
  }

  /** A `filter` scan whose entries are, position by position, the summaries
      of distinct kept records, and which lists every kept record, lists what
      `filter` promises. */
  lemma FilterListing(records: map<int, Resource>, r: seq<ResourceSummary>, ids: seq<int>,
                      hasResponse: bool, isGetOrDocument: bool, parse: Parse)
    requires forall id :: id in records ==> records[id].id == id
    requires |ids| == |r|
    requires forall i :: 0 <= i < |r| ==>
               ids[i] in records && FilterKeeps(records[ids[i]], hasResponse, isGetOrDocument)
               && r[i] == FilterSummary(records[ids[i]], parse)
    requires forall i, j :: 0 <= i < j < |ids| ==> ids[i] != ids[j]
    requires forall id :: id in records && FilterKeeps(records[id], hasResponse, isGetOrDocument) ==> id in ids
    ensures ListsFiltered(records, r, hasResponse, isGetOrDocument, parse)
  {
    forall s | s in r
      ensures exists id :: id in records && FilterKeeps(records[id], hasResponse, isGetOrDocument)
                           && s == FilterSummary(records[id], parse)
    {
      var i :| 0 <= i < |r| && r[i] == s;
      assert ids[i] in records;
    }
    forall id | id in records && FilterKeeps(records[id], hasResponse, isGetOrDocument)
      ensures FilterSummary(records[id], parse) in r
    {
      var i :| 0 <= i < |ids| && ids[i] == id;
      assert r[i] == FilterSummary(records[id], parse);
    }
    forall i, j | 0 <= i < j < |r|
      ensures r[i].id != r[j].id
    {
      assert r[i].id == ids[i] && r[j].id == ids[j];
    }
    if hasResponse {
      FilterListsHaveResponse(records, r, isGetOrDocument, parse);
    }
  }

  /** The same for a time-range scan. */
  lemma RangeListing(records: map<int, Resource>, r: seq<ResourceSummary>, ids: seq<int>,
                     tabId: int, startTime: int, endTime: int, parse: Parse)
    requires forall id :: id in records ==> records[id].id == id
    requires |ids| == |r|
    requires forall i :: 0 <= i < |r| ==>
               ids[i] in records && InTimeRange(records[ids[i]], tabId, startTime, endTime)
               && r[i] == ToResourceSummary(records[ids[i]], parse)
    requires forall i, j :: 0 <= i < j < |ids| ==> ids[i] != ids[j]
    requires forall id :: id in records && InTimeRange(records[id], tabId, startTime, endTime) ==> id in ids
    ensures ListsInRange(records, r, tabId, startTime, endTime, parse)
  {
    forall s | s in r
      ensures exists id :: id in records && InTimeRange(records[id], tabId, startTime, endTime)
                           && s == ToResourceSummary(records[id], parse)
    {
      var i :| 0 <= i < |r| && r[i] == s;
      assert ids[i] in records;
    }
    forall id | id in records && InTimeRange(records[id], tabId, startTime, endTime)
      ensures ToResourceSummary(records[id], parse) in r
    {
      var i :| 0 <= i < |ids| && ids[i] == id;
      assert r[i] == ToResourceSummary(records[id], parse);
    }
    forall i, j | 0 <= i < j < |r|
      ensures r[i].id != r[j].id
    {
      assert r[i].id == ids[i] && r[j].id == ids[j];
    }
    RangeListsInWindow(records, r, tabId, startTime, endTime, parse);
  }

  /** The scan behind `filter`, over records keyed by their own ids. */
  method FilterRecords(records: map<int, Resource>, hasResponse: bool, isGetOrDocument: bool, parse: Parse)
    returns (r: seq<ResourceSummary>)
    requires forall id :: id in records ==> records[id].id == id
    ensures ListsFiltered(records, r, hasResponse, isGetOrDocument, parse)
  {
    ghost var ids;
    var keep := rec => FilterKeeps(rec, hasResponse, isGetOrDocument);
    var project := rec => FilterSummary(rec, parse);
    r, ids := Select(records, keep, project);
    forall i | 0 <= i < |r|
      ensures ids[i] in records && FilterKeeps(records[ids[i]], hasResponse, isGetOrDocument)
              && r[i] == FilterSummary(records[ids[i]], parse)
    {
      assert keep(records[ids[i]]) && r[i] == project(records[ids[i]]);
    }
    forall id | id in records && FilterKeeps(records[id], hasResponse, isGetOrDocument)
      ensures id in ids
    {
      assert keep(records[id]);
    }
    FilterListing(records, r, ids, hasResponse, isGetOrDocument, parse);
  }

  /** The scan behind `withResponseTimeInRange`, over records keyed by their
      own ids. */
  method RangeRecords(records: map<int, Resource>, tabId: int, startTime: int, endTime: int, parse: Parse)
    returns (r: seq<ResourceSummary>)
    requires forall id :: id in records ==> records[id].id == id
    ensures ListsInRange(records, r, tabId, startTime, endTime, parse)
  {
    ghost var ids;
    var keep := rec => InTimeRange(rec, tabId, startTime, endTime);
    var project := rec => ToResourceSummary(rec, parse);
    r, ids := Select(records, keep, project);
    forall i | 0 <= i < |r|
      ensures ids[i] in records && InTimeRange(records[ids[i]], tabId, startTime, endTime)
              && r[i] == ToResourceSummary(records[ids[i]], parse)
    {
      assert keep(records[ids[i]]) && r[i] == project(records[ids[i]]);
    }
    forall id | id in records && InTimeRange(records[id], tabId, startTime, endTime)
      ensures id in ids
    {
      assert keep(records[id]);
    }
    RangeListing(records, r, ids, tabId, startTime, endTime, parse);
  }

  class ResourcesTable {
    /** Rows queued for insertion, oldest first. */
    var pending: seq<Row>
    /** Rows already written, by id. */
    var durable: map<int, Row>

    ghost predicate Valid()
      reads this
    {
      PendingTier(pending) && DurableTier(durable)
    }

    /** A table over the rows already written to the database. */
    constructor (stored: map<int, Row>)
      requires DurableTier(stored)
      ensures Valid() && pending == [] && durable == stored
    {
      pending := [];
      durable := stored;
    }

    /** `get(id)`: a record exactly when a queued or a written row has the id. */
    function Get(id: int): (r: Option<Resource>)
      reads this
      requires Valid()
      ensures r.Some? ==> r.value.id == id
      ensures r.Some? <==> id in durable || exists k :: 0 <= k < |pending| && RowId(pending[k]) == id
    {
      ReadRecordSpec(pending, durable, id);
      ReadRecord(pending, durable, id)
    }

    /** `updateReceivedTime`: sets `browserLoadedTimestamp` on the last queued
        row for `id`, found by the column's name; with no queued row, on the
        written row. */
    method UpdateReceivedTime(id: int, timestamp: int)
      requires Valid()
      modifies this
      ensures Valid()
      ensures |pending| == |old(pending)|
      ensures LastIndexOf(old(pending), id).Some? ==>
                var k := LastIndexOf(old(pending), id).value;
                && pending == old(pending)[k := old(pending)[k][BrowserLoadedTimestampCol := Int(timestamp)]]
                && durable == old(durable)
      ensures LastIndexOf(old(pending), id).None? ==>
                && pending == old(pending)
                && durable == SetDurableCell(old(durable), id, BrowserLoadedTimestampCol, Int(timestamp))
      ensures Get(id) == if old(Get(id)).Some? then Some(old(Get(id)).value.(browserLoadedTimestamp := Some(timestamp))) else None
      ensures forall other :: other != id ==> Get(other) == old(Get(other))
    {
      var found := LastIndexOf(pending, id);
      if found.Some? {
        var index := IndexOfColumn(Columns, "browserLoadedTimestamp");
        BrowserLoadedTimestampIndex();
        var k := found.value;
        var row := pending[k][index := Int(timestamp)];
        SetCellWellFormed(pending[k], index, Int(timestamp));
        DecodeSetLoadedTimestamp(pending[k], timestamp);
        PendingPointWrite(pending, durable, id, k, row);
        pending := pending[k := row];
      } else if id in durable {
        var row := durable[id][BrowserLoadedTimestampCol := Int(timestamp)];
        SetCellWellFormed(durable[id], BrowserLoadedTimestampCol, Int(timestamp));
        DecodeSetLoadedTimestamp(durable[id], timestamp);
        DurablePointWrite(pending, durable, id, row);
        durable := durable[id := row];
      }
    }

    /** `updateSeenAtCommandId`, corrected: records the command at which the
        page saw resource `id` on its written row (the source binds the two
        arguments the other way round; see `SeenAtCommandIdAsWritten`). It
        never looks at the queue. */
    method UpdateSeenAtCommandId(id: int, seenAtCommandId: int)
      requires Valid()
      modifies this
      ensures Valid()
      ensures pending == old(pending)
      ensures durable == SeenAtCommandIdIntended(old(durable), id, seenAtCommandId)
      ensures LastIndexOf(pending, id).None? && id in durable ==>
                Get(id) == Some(old(Get(id)).value.(seenAtCommandId := Some(seenAtCommandId)))
      ensures forall other :: other != id ==> Get(other) == old(Get(other))
    {
      if id in durable {
        var row := durable[id][SeenAtCommandIdCol := Int(seenAtCommandId)];
        SetCellWellFormed(durable[id], SeenAtCommandIdCol, Int(seenAtCommandId));
        DecodeSetSeenAt(durable[id], seenAtCommandId);
        if LastIndexOf(pending, id).None? {
          DurablePointWrite(pending, durable, id, row);
        }
        forall q | q != id
          ensures ReadRecord(pending, durable[id := row], q) == ReadRecord(pending, durable, q)
        {
          ReadAfterDurableWrite(pending, durable, id, row, q);
        }
        durable := durable[id := row];
      }
    }

    /** `updateBrowserRequestId`: sets `devtoolsRequestId` and `tabId` on the
        last queued row for `id`; with no queued row, on the written row. */
    method UpdateBrowserRequestId(id: int, tabId: int, browserRequestId: string)
      requires Valid()
      modifies this
      ensures Valid()
      ensures |pending| == |old(pending)|
      ensures LastIndexOf(old(pending), id).Some? ==>
                var k := LastIndexOf(old(pending), id).value;
                && pending == old(pending)[k := old(pending)[k][DevtoolsRequestIdCol := Text(browserRequestId)][TabIdCol := Int(tabId)]]
                && durable == old(durable)
      ensures LastIndexOf(old(pending), id).None? ==>
                && pending == old(pending)
                && durable == SetDurableCell(SetDurableCell(old(durable), id, TabIdCol, Int(tabId)),
                                             id, DevtoolsRequestIdCol, Text(browserRequestId))
      ensures Get(id) == if old(Get(id)).Some? then Some(old(Get(id)).value.(devtoolsRequestId := Some(browserRequestId), tabId := Some(tabId))) else None
      ensures forall other :: other != id ==> Get(other) == old(Get(other))
    {
      var found := LastIndexOf(pending, id);
      if found.Some? {
        var k := found.value;
        var row := pending[k][DevtoolsRequestIdCol := Text(browserRequestId)][TabIdCol := Int(tabId)];
        SetCellWellFormed(pending[k], DevtoolsRequestIdCol, Text(browserRequestId));
        SetCellWellFormed(pending[k][DevtoolsRequestIdCol := Text(browserRequestId)], TabIdCol, Int(tabId));
        DecodeSetRequestId(pending[k], tabId, browserRequestId);
        PendingPointWrite(pending, durable, id, k, row);
        pending := pending[k := row];
      } else if id in durable {
        var row := durable[id][DevtoolsRequestIdCol := Text(browserRequestId)][TabIdCol := Int(tabId)];
        assert row == durable[id][TabIdCol := Int(tabId)][DevtoolsRequestIdCol := Text(browserRequestId)];
        SetCellWellFormed(durable[id], DevtoolsRequestIdCol, Text(browserRequestId));
        SetCellWellFormed(durable[id][DevtoolsRequestIdCol := Text(browserRequestId)], TabIdCol, Int(tabId));
        DecodeSetRequestId(durable[id], tabId, browserRequestId);
        DurablePointWrite(pending, durable, id, row);
        durable := durable[id := row];
      }
    }

    /** `queuePendingInsert`: appends one row to the queue, where it becomes
        the row read for its id. */
    method QueueRow(row: Row)
      requires Valid() && WellFormed(row)
      modifies this
      ensures Valid()
      ensures pending == old(pending) + [row] && durable == old(durable)
      ensures Get(RowId(row)) == Some(Decode(row))
      ensures forall other :: other != RowId(row) ==> Get(other) == old(Get(other))
    {
      AppendPoint(pending, durable, row);
      pending := pending + [row];
    }

    /** `save`: queues exactly one row, the record's columns in order with its
        booleans written as 1 or 0. */
    method Save(record: Resource)
      requires Valid()
      modifies this
      ensures Valid()
      ensures pending == old(pending) + [Encode(record)] && durable == old(durable)
      ensures Get(record.id) == Some(record)
      ensures forall other :: other != record.id ==> Get(other) == old(Get(other))
    {
      EncodeWellFormed(record);
      DecodeEncode(record);
      QueueRow(Encode(record));
    }

    /** `insert`: queues exactly one row for an exchange seen on `tabId`. */
    method Insert(tabId: int, meta: ResourceMeta, postData: Option<string>, body: Option<Bytes>,
                  extras: ProcessingDetails, error: Option<ErrorValue>, stringify: Stringify)
      requires Valid()
      modifies this
      ensures Valid()
      ensures pending == old(pending) + [Encode(InsertRecord(tabId, meta, postData, body, extras, error, stringify))]
      ensures durable == old(durable)
      ensures Get(meta.id) == Some(InsertRecord(tabId, meta, postData, body, extras, error, stringify))
      ensures forall other :: other != meta.id ==> Get(other) == old(Get(other))
    {
      var record := InsertRecord(tabId, meta, postData, body, extras, error, stringify);
      EncodeWellFormed(record);
      DecodeEncode(record);
      QueueRow(Encode(record));
    }

    /** `mergeWithExisting`: folds a late response or failure into the record
        read for `resourceId`, field by field, and queues the result; returns
        the caller's meta as the merge leaves it. The record must exist and the
        late meta must carry a response, both of which the source dereferences
        unguarded. */
    method MergeWithExisting(resourceId: int, existing: ResourceMeta, details: ResourceMeta,
                             failed: ProcessingDetails, error: Option<ErrorValue>, stringify: Stringify)
      returns (merged: ResourceMeta)
      requires Valid()
      requires Get(resourceId).Some? && details.response.Some?
      modifies this
      ensures Valid()
      ensures pending == old(pending) + [Encode(MergeRecord(old(Get(resourceId)).value, details, failed, error, stringify))]
      ensures durable == old(durable)
      ensures Get(resourceId) == Some(MergeRecord(old(Get(resourceId)).value, details, failed, error, stringify))
      ensures forall other :: other != resourceId ==> Get(other) == old(Get(other))
      ensures merged == MergeMeta(existing, old(Get(resourceId)).value, details, stringify)
    {
      var stored := Get(resourceId).value;
      var rec := MergeStoredFields(stored, details, failed, error, stringify);
      merged := MergeCallerMeta(existing, stored, details, stringify);
      Save(rec);
    }

    /** The queued row `findPendingRecords(...).find(...)` picks: the first
        one for `id` whose column `col` is truthy. */
    method FindPending(id: int, col: nat) returns (r: Option<nat>)
      ensures r == FirstTruthy(pending, id, col)
    {
      var k := 0;
      while k < |pending|
        invariant 0 <= k <= |pending|
        invariant forall j :: 0 <= j < k ==> !Matches(pending[j], id, col)
      {
        if Matches(pending[k], id, col) {
          return Some(k);
        }
        k := k + 1;
      }
      return None;
    }

    /** `getResourcePostDataById`: the first queued row for the id with a
        non-empty request body, else the written row's body when non-empty. */
    method GetResourcePostDataById(resourceId: int) returns (r: Option<string>)
      requires Valid()
      ensures TruthyText(r) || r.None?
      ensures FirstTruthy(pending, resourceId, RequestPostDataCol).Some? ==>
                r == Decode(pending[FirstTruthy(pending, resourceId, RequestPostDataCol).value]).requestPostData
      ensures FirstTruthy(pending, resourceId, RequestPostDataCol).None? ==>
                r == if resourceId in durable && TruthyText(Decode(durable[resourceId]).requestPostData)
                     then Decode(durable[resourceId]).requestPostData else None
    {
      var found := FindPending(resourceId, RequestPostDataCol);
      var cell := Null;
      if found.Some? {
        cell := pending[found.value][RequestPostDataCol];
        assert Fits(cell, ColumnType(RequestPostDataCol));
      } else if resourceId in durable {
        cell := durable[resourceId][RequestPostDataCol];
        assert Fits(cell, ColumnType(RequestPostDataCol));
      }
      r := if Truthy(cell) then TextAt(cell) else None;
    }

    /** `getResourceBodyById`: the first queued row for the id that has a body,
        else the written row; without `decompress` the stored bytes come back
        as they are. */
    method GetResourceBodyById(resourceId: int, decompress: bool) returns (r: BodyRead)
      requires Valid()
      ensures r.NotFound? <==> FirstTruthy(pending, resourceId, ResponseDataCol).None? && resourceId !in durable
      ensures !decompress ==> !r.Decompress?
      ensures decompress ==> !r.Raw?
      ensures FirstTruthy(pending, resourceId, ResponseDataCol).Some? ==>
                var rec := Decode(pending[FirstTruthy(pending, resourceId, ResponseDataCol).value]);
                && rec.responseData.Some? && r.data == rec.responseData
                && (r.Decompress? ==> r.encoding == rec.responseEncoding)
      ensures FirstTruthy(pending, resourceId, ResponseDataCol).None? && resourceId in durable ==>
                var rec := Decode(durable[resourceId]);
                && r.data == rec.responseData
                && (r.Decompress? ==> r.encoding == rec.responseEncoding)
    {
      var found := FindPending(resourceId, ResponseDataCol);
      var rec: Resource;
      if found.Some? {
        rec := Decode(pending[found.value]);
        assert Fits(pending[found.value][ResponseDataCol], ColumnType(ResponseDataCol));
      } else if resourceId in durable {
        rec := Decode(durable[resourceId]);
      } else {
        return NotFound;
      }
      if !decompress {
        return Raw(rec.responseData);
      }
      return Decompress(rec.responseData, rec.responseEncoding);
    }

    /** `getResponse`: four columns of the written row, if there is one; queued
        rows are not consulted. */
    function GetResponse(resourceId: int): (r: Option<StoredResponse>)
      reads this
      requires Valid()
      ensures r.Some? <==> resourceId in durable
      ensures r.Some? ==>
                var rec := Decode(durable[resourceId]);
                && r.value.statusCode == rec.statusCode && r.value.responseHeaders == rec.responseHeaders
                && r.value.responseEncoding == rec.responseEncoding && r.value.responseData == rec.responseData
    {
      if resourceId in durable then
        var rec := Decode(durable[resourceId]);
        Some(StoredResponse(rec.responseEncoding, rec.responseHeaders, rec.statusCode, rec.responseData))
      else None
    }

    /** `filter`: summaries of the written rows that pass the requested
        filters. */
    method Filter(hasResponse: bool, isGetOrDocument: bool, parse: Parse) returns (r: seq<ResourceSummary>)
      requires Valid()
      ensures ListsFiltered(DecodedRows(durable), r, hasResponse, isGetOrDocument, parse)
    {
      r := FilterRecords(DecodedRows(durable), hasResponse, isGetOrDocument, parse);
    }

    /** `withResponseTimeInRange`: summaries of the written rows of the tab
        whose time falls within `[startTime, endTime]`. */
    method WithResponseTimeInRange(tabId: int, startTime: int, endTime: int, parse: Parse)
      returns (r: seq<ResourceSummary>)
      requires Valid()
      ensures ListsInRange(DecodedRows(durable), r, tabId, startTime, endTime, parse)
    {
      r := RangeRecords(DecodedRows(durable), tabId, startTime, endTime, parse);
    }
  }
}
