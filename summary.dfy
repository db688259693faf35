/** The read-only projections of the table: the summary a record is listed
    as, and the row predicates of `filter` and `withResponseTimeInRange`. */
module Summary {
  import opened Common
  import opened Records

  /** IResourceSummary. */
  datatype ResourceSummary = ResourceSummary(
    id: int,
    frameId: Option<int>,
    tabId: Option<int>,
    url: Option<string>,
    httpMethod: Option<string>,
    resourceType: Option<string>,
    statusCode: Option<int>,
    redirectedToUrl: Option<string>,
    timestamp: Option<int>,
    hasResponse: bool,
    contentType: Option<string>
  )

  /** A stored string is truthy when it is present and not empty. */
  predicate TruthyText(s: Option<string>) {
    s.Some? && s.value != ""
  }

  /** `ResourcesTable.toResourceSummary`. The url is the request url (so that
      redirects stay visible), the time is when the browser loaded the
      resource or else when the response arrived, and the content type comes
      from the parsed response headers. */
  function ToResourceSummary(rec: Resource, parse: Parse): (s: ResourceSummary)
    ensures s.id == rec.id && s.frameId == rec.frameId && s.tabId == rec.tabId
    ensures s.url == rec.requestUrl && s.httpMethod == rec.requestMethod
    ensures s.resourceType == rec.resourceType && s.statusCode == rec.statusCode
    ensures s.redirectedToUrl == rec.redirectedToUrl
    ensures rec.browserLoadedTimestamp.Some? ==> s.timestamp == rec.browserLoadedTimestamp
    ensures rec.browserLoadedTimestamp.None? ==> s.timestamp == rec.responseTimestamp
    ensures s.hasResponse <==> TruthyText(rec.responseHeaders)
    ensures rec.responseHeaders.None? ==> s.contentType.None?
    ensures rec.responseHeaders.Some? && "Content-Type" in parse(rec.responseHeaders.value) ==>
              s.contentType == Some(parse(rec.responseHeaders.value)["Content-Type"])
    ensures rec.responseHeaders.Some? && "Content-Type" !in parse(rec.responseHeaders.value) ==>
              s.contentType == Lookup(parse(rec.responseHeaders.value), "content-type")
  {
    var headers := if rec.responseHeaders.Some? then parse(rec.responseHeaders.value) else map[];
    ResourceSummary(
      id := rec.id,
      frameId := rec.frameId,
      tabId := rec.tabId,
      url := rec.requestUrl,
      httpMethod := rec.requestMethod,
      resourceType := rec.resourceType,
      statusCode := rec.statusCode,
      redirectedToUrl := rec.redirectedToUrl,
      timestamp := OrElse(rec.browserLoadedTimestamp, rec.responseTimestamp),
      hasResponse := TruthyText(rec.responseHeaders),
      contentType := OrElse(Lookup(headers, "Content-Type"), Lookup(headers, "content-type"))
    )
  }

  /** The rows `filter` keeps. With `hasResponse`, the query keeps rows with a
      body or a redirect and the scan then drops rows whose response headers
      are empty or `'{}'`; with `isGetOrDocument`, rows that are not GET
      requests are dropped unless they are documents. */
  predicate FilterKeeps(rec: Resource, hasResponse: bool, isGetOrDocument: bool): (keep: bool)
    // with no filter asked for, every row is listed
    ensures !hasResponse && !isGetOrDocument ==> keep
    // the where clause: without a body and a redirect, no row passes `hasResponse`
    ensures hasResponse && rec.responseData.None? && rec.redirectedToUrl.None? ==> !keep
    // the callback: a kept row has real response headers ...
    ensures keep && hasResponse ==> rec.responseHeaders.Some? && rec.responseHeaders.value != "" && rec.responseHeaders.value != "{}"
    // ... and is a GET request or else a document
    ensures keep && isGetOrDocument && rec.requestMethod != Some("GET") ==> rec.resourceType == Some("Document")
  {
    && (hasResponse ==>
          && (rec.responseData.Some? || rec.redirectedToUrl.Some?)
          && TruthyText(rec.responseHeaders)
          && rec.responseHeaders != Some("{}"))
    && (isGetOrDocument ==> rec.requestMethod == Some("GET") || rec.resourceType == Some("Document"))
  }

  /** The summary `filter` lists for a record. Its query does not select
      `browserLoadedTimestamp` or `responseTimestamp`, so both read as
      undefined when the summary is built. */
  function FilterSummary(rec: Resource, parse: Parse): (s: ResourceSummary)
    ensures s.timestamp.None?
  {
    ToResourceSummary(rec.(browserLoadedTimestamp := None, responseTimestamp := None), parse)
  }

  /** Apart from the time, `filter` lists the same summary as the other
      queries do. */
  lemma FilterSummaryOmitsOnlyTime(rec: Resource, parse: Parse)
    ensures FilterSummary(rec, parse) == ToResourceSummary(rec, parse).(timestamp := None)
  {
  }

  /** The rows `withResponseTimeInRange` selects: on the tab, and loaded by the
      browser within the window, or, when the browser load time is null, with
      a response within the window. A null compares as false in SQL. */
  predicate InTimeRange(rec: Resource, tabId: int, startTime: int, endTime: int): (inRange: bool)
    // the query tests the time `browserLoadedTimestamp ?? responseTimestamp`
    ensures inRange <==>
              && rec.tabId == Some(tabId)
              && OrElse(rec.browserLoadedTimestamp, rec.responseTimestamp).Some?
              && startTime <= OrElse(rec.browserLoadedTimestamp, rec.responseTimestamp).value <= endTime
  {
    && rec.tabId == Some(tabId)
    && if rec.browserLoadedTimestamp.None? then
         rec.responseTimestamp.Some? && startTime <= rec.responseTimestamp.value <= endTime
       else
         startTime <= rec.browserLoadedTimestamp.value <= endTime
  }

  /** Every summary listed for a time range carries that tab and a timestamp
      inside the window: the query tests exactly the time the summary shows. */
  lemma RangeSummaryInWindow(rec: Resource, tabId: int, startTime: int, endTime: int, parse: Parse)
    requires InTimeRange(rec, tabId, startTime, endTime)
    ensures var s := ToResourceSummary(rec, parse);
            s.tabId == Some(tabId) && s.timestamp.Some? && startTime <= s.timestamp.value <= endTime
  {
  }

  /** Every summary `filter` lists when asked for resources with a response
      does report a response. */
  lemma FilteredHaveResponse(rec: Resource, isGetOrDocument: bool, parse: Parse)
    requires FilterKeeps(rec, true, isGetOrDocument)
    ensures FilterSummary(rec, parse).hasResponse
  {
  }

  /** Every summary a `filter` scan lists when asked for resources with a
      response reports one. */
  lemma FilterListsHaveResponse(records: map<int, Resource>, r: seq<ResourceSummary>,
                                isGetOrDocument: bool, parse: Parse)
    requires forall s :: s in r ==>
               exists id :: id in records && FilterKeeps(records[id], true, isGetOrDocument)
                            && s == FilterSummary(records[id], parse)
    ensures forall s :: s in r ==> s.hasResponse
  {
    forall s | s in r
      ensures s.hasResponse
    {
      var id :| id in records && FilterKeeps(records[id], true, isGetOrDocument)
                && s == FilterSummary(records[id], parse);
      FilteredHaveResponse(records[id], isGetOrDocument, parse);
    }
  }

  /** Every summary a time-range scan lists carries the tab and a time inside
      the window. */
  lemma RangeListsInWindow(records: map<int, Resource>, r: seq<ResourceSummary>,
                           tabId: int, startTime: int, endTime: int, parse: Parse)
    requires forall s :: s in r ==>
               exists id :: id in records && InTimeRange(records[id], tabId, startTime, endTime)
                            && s == ToResourceSummary(records[id], parse)
    ensures forall s :: s in r ==>
              s.tabId == Some(tabId) && s.timestamp.Some? && startTime <= s.timestamp.value <= endTime
  {
    forall s | s in r
      ensures s.tabId == Some(tabId) && s.timestamp.Some? && startTime <= s.timestamp.value <= endTime
    {
      var id :| id in records && InTimeRange(records[id], tabId, startTime, endTime)
                && s == ToResourceSummary(records[id], parse);
      RangeSummaryInWindow(records[id], tabId, startTime, endTime, parse);
    }
  }
}
