/** What the network layer hands the store: the resource's meta (request and
    response), the processing details of the exchange and an optional error;
    and the record `insert` builds from them. */
module Meta {
  import opened Common
  import opened Records

  datatype RequestMeta = RequestMeta(
    url: Option<string>,
    httpMethod: Option<string>,
    headers: Option<StringMap>,
    trailers: Option<StringMap>,
    timestamp: Option<int>
  )

  datatype ResponseMeta = ResponseMeta(
    url: Option<string>,
    statusCode: Option<int>,
    statusMessage: Option<string>,
    headers: Option<StringMap>,
    trailers: Option<StringMap>,
    timestamp: Option<int>,
    bodyBytes: Option<int>,
    browserLoadedTime: Option<int>,
    browserServedFromCache: Option<string>,
    browserLoadFailure: Option<string>
  )

  /** IResourceMeta. The request is always present; the response is absent
      until it has been received. */
  datatype ResourceMeta = ResourceMeta(
    id: int,
    frameId: Option<int>,
    resourceType: Option<string>,
    receivedAtCommandId: Option<int>,
    documentUrl: Option<string>,
    request: RequestMeta,
    response: Option<ResponseMeta>
  )

  /** IResourceProcessingDetails: what the browser and the proxy reported about
      the exchange. Each boolean holds the truthiness of the reported flag. */
  datatype ProcessingDetails = ProcessingDetails(
    browserRequestId: Option<string>,
    socketId: Option<int>,
    protocol: Option<string>,
    redirectedToUrl: Option<string>,
    dnsResolvedIp: Option<string>,
    isHttp2Push: bool,
    wasCached: bool,
    wasIntercepted: bool,
    originalHeaders: Option<StringMap>,
    responseOriginalHeaders: Option<StringMap>,
    browserBlockedReason: Option<string>,
    browserCanceled: bool
  )

  /** An error passed to the store: either a plain string or an Error object
      with its name, message, stack and own enumerable properties. */
  datatype ErrorValue =
    | Message(text: string)
    | ErrorObject(name: string, message: string, stack: string, own: StringMap)

  /** `if (error)`: an Error object is always truthy, a string only when it is
      not empty. */
  predicate ErrorIsTruthy(error: Option<ErrorValue>) {
    error.Some? && error.value != Message("")
  }

  /** The object `{ name, stack, message, ...error }`: the spread comes last,
      so the error's own properties override the three named ones. */
  function ErrorFields(e: ErrorValue): (m: StringMap)
    requires e.ErrorObject?
    ensures m.Keys == e.own.Keys + {"name", "stack", "message"}
    ensures forall k :: k in e.own ==> Lookup(m, k) == Some(e.own[k])
    ensures "name" !in e.own ==> Lookup(m, "name") == Some(e.name)
    ensures "stack" !in e.own ==> Lookup(m, "stack") == Some(e.stack)
    ensures "message" !in e.own ==> Lookup(m, "message") == Some(e.message)
  {
    map["name" := e.name, "stack" := e.stack, "message" := e.message] + e.own
  }

  /** `ResourcesTable.getErrorString`: nothing for a falsy error, a string
      error unchanged, an Error object serialised with its fields. */
  function GetErrorString(error: Option<ErrorValue>, stringify: Stringify): (r: Option<string>)
    ensures r.Some? <==> ErrorIsTruthy(error)
    ensures ErrorIsTruthy(error) && error.value.Message? ==> r == Some(error.value.text)
    ensures ErrorIsTruthy(error) && error.value.ErrorObject? ==> r == Some(stringify(ErrorFields(error.value)))
  {
    if !ErrorIsTruthy(error) then None
    else match error.value
      case Message(text) => Some(text)
      case ErrorObject(_, _, _, _) => Some(stringify(ErrorFields(error.value)))
  }

  /** The encoding `insert` records: `Content-Encoding`, else
      `content-encoding`, and only when the response and its headers exist. */
  function ContentEncoding(meta: ResourceMeta): (r: Option<string>)
    ensures meta.response.None? || meta.response.value.headers.None? ==> r.None?
    ensures meta.response.Some? && meta.response.value.headers.Some? ==>
      var h := meta.response.value.headers.value;
      && ("Content-Encoding" in h ==> r == Some(h["Content-Encoding"]))
      && ("Content-Encoding" !in h ==> r == Lookup(h, "content-encoding"))
  {
    if meta.response.Some? && meta.response.value.headers.Some? then
      var h := meta.response.value.headers.value;
      OrElse(Lookup(h, "Content-Encoding"), Lookup(h, "content-encoding"))
    else None
  }

  /** The record `insert` queues for an exchange seen on `tabId`. `postData`
      is the request body as text and `body` the response body. */
  function InsertRecord(tabId: int, meta: ResourceMeta, postData: Option<string>, body: Option<Bytes>,
                        extras: ProcessingDetails, error: Option<ErrorValue>, stringify: Stringify): (r: Resource)
    ensures r.id == meta.id && r.tabId == Some(tabId)
    // the command at which the page saw the resource is not known yet
    ensures r.seenAtCommandId.None?
    // request-side header columns are always filled, with `{}` when absent
    ensures r.requestHeaders == Some(stringify(meta.request.headers.GetOr(map[])))
    ensures r.requestTrailers == Some(stringify(meta.request.trailers.GetOr(map[])))
    ensures r.requestOriginalHeaders == Some(stringify(extras.originalHeaders.GetOr(map[])))
    ensures r.responseOriginalHeaders == Some(stringify(extras.responseOriginalHeaders.GetOr(map[])))
    // without a response, every response column is null
    ensures meta.response.None? ==>
      && r.statusCode.None? && r.statusMessage.None? && r.responseUrl.None?
      && r.responseHeaders.None? && r.responseTrailers.None? && r.responseTimestamp.None?
      && r.responseEncoding.None? && r.responseData.None? && r.responseDataBytes.None?
      && r.browserLoadedTimestamp.None? && r.browserServedFromCache.None? && r.browserLoadFailure.None?
    // with a response, the body and the serialised headers are stored
    ensures meta.response.Some? ==>
      && r.responseData == body
      && r.responseHeaders == Some(stringify(meta.response.value.headers.GetOr(map[])))
      && r.responseTrailers == Some(stringify(meta.response.value.trailers.GetOr(map[])))
      && r.statusCode == meta.response.value.statusCode
    ensures r.responseEncoding == ContentEncoding(meta)
    ensures r.httpError == GetErrorString(error, stringify)
    ensures r.requestPostData == postData
    ensures r.isHttp2Push == extras.isHttp2Push && r.usedArtificialCache == extras.wasCached
    ensures r.responseIntercepted == extras.wasIntercepted && r.browserCanceled == extras.browserCanceled
  {
    var response := meta.response;
    Resource(
      id := meta.id,
      devtoolsRequestId := extras.browserRequestId,
      tabId := Some(tabId),
      frameId := meta.frameId,
      socketId := extras.socketId,
      protocol := extras.protocol,
      resourceType := meta.resourceType,
      receivedAtCommandId := meta.receivedAtCommandId,
      seenAtCommandId := None,
      requestMethod := meta.request.httpMethod,
      requestUrl := meta.request.url,
      requestHeaders := Some(stringify(meta.request.headers.GetOr(map[]))),
      requestTrailers := Some(stringify(meta.request.trailers.GetOr(map[]))),
      requestTimestamp := meta.request.timestamp,
      requestPostData := postData,
      redirectedToUrl := extras.redirectedToUrl,
      statusCode := if response.Some? then response.value.statusCode else None,
      statusMessage := if response.Some? then response.value.statusMessage else None,
      responseUrl := if response.Some? then response.value.url else None,
      responseHeaders := if response.Some? then Some(stringify(response.value.headers.GetOr(map[]))) else None,
      responseTrailers := if response.Some? then Some(stringify(response.value.trailers.GetOr(map[]))) else None,
      responseTimestamp := if response.Some? then response.value.timestamp else None,
      responseEncoding := ContentEncoding(meta),
      responseData := if response.Some? then body else None,
      responseDataBytes := if response.Some? then response.value.bodyBytes else None,
      dnsResolvedIp := extras.dnsResolvedIp,
      isHttp2Push := extras.isHttp2Push,
      usedArtificialCache := extras.wasCached,
      responseIntercepted := extras.wasIntercepted,
      requestOriginalHeaders := Some(stringify(extras.originalHeaders.GetOr(map[]))),
      responseOriginalHeaders := Some(stringify(extras.responseOriginalHeaders.GetOr(map[]))),
      httpError := GetErrorString(error, stringify),
      browserLoadedTimestamp := if response.Some? then response.value.browserLoadedTime else None,
      browserServedFromCache := if response.Some? then response.value.browserServedFromCache else None,
      browserLoadFailure := if response.Some? then response.value.browserLoadFailure else None,
      browserBlockedReason := extras.browserBlockedReason,
      browserCanceled := extras.browserCanceled,
      documentUrl := meta.documentUrl
    )
  }
}
