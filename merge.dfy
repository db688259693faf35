/** Reconciliation of a resource whose request and response (or failure)
    arrive as separate events: the per-field rules of `mergeWithExisting`,
    for the stored record and for the caller's in-memory meta, and what they
    guarantee over any sequence of late events. */
module Merge {
  import opened Common
  import opened Records
  import opened Meta

  /** `stored ??= incoming`: the first non-null value is kept. */
  predicate KeepsFirst<T(==)>(stored: Option<T>, incoming: Option<T>, r: Option<T>) {
    (stored.Some? ==> r == stored) && (stored.None? ==> r == incoming)
  }

  /** When a header set replaces a stored serialisation: it must be present
      and serialise to a string strictly longer than the stored one, lengths
      counted in UTF-16 code units as JavaScript's `.length` does. A missing
      stored value has length `undefined`, and `n > undefined` is false, so a
      missing stored value is never replaced. */
  predicate Replaces(stored: Option<string>, incoming: Option<StringMap>, stringify: Stringify) {
    incoming.Some? && stored.Some? && Utf16Length(stringify(incoming.value)) > Utf16Length(stored.value)
  }

  /** The header rule applied to one stored column. */
  function KeepLonger(stored: Option<string>, incoming: Option<StringMap>, stringify: Stringify): (r: Option<string>)
    ensures r.Some? <==> stored.Some?
    ensures stored.Some? ==> Utf16Length(r.value) >= Utf16Length(stored.value)
    ensures r != stored <==> Replaces(stored, incoming, stringify)
    ensures Replaces(stored, incoming, stringify) ==> r == Some(stringify(incoming.value))
  {
    if Replaces(stored, incoming, stringify) then Some(stringify(incoming.value)) else stored
  }

  /** Lengths are JavaScript's: a stored serialisation of three characters
      outside the Basic Multilingual Plane is six code units long, so it is
      kept against a four-character one. */
  lemma AstralHeadersKept(incoming: StringMap, stringify: Stringify)
    requires stringify(incoming) == "abcd"
    ensures KeepLonger(Some("\U{1F600}\U{1F600}\U{1F600}"), Some(incoming), stringify) == Some("\U{1F600}\U{1F600}\U{1F600}")
  {
    assert Utf16Length("\U{1F600}\U{1F600}\U{1F600}") == 6;
    Utf16LengthOfBmp("abcd");
  }

  /** The record `mergeWithExisting` saves: `rec` is the stored record, `details`
      the late meta (its response is dereferenced unguarded, so it must be
      present), `failed` the processing details of the event. */
  function MergeRecord(rec: Resource, details: ResourceMeta, failed: ProcessingDetails,
                       error: Option<ErrorValue>, stringify: Stringify): (r: Resource)
    requires details.response.Some?
    // first non-null value wins
    ensures KeepsFirst(rec.resourceType, details.resourceType, r.resourceType)
    ensures KeepsFirst(rec.devtoolsRequestId, failed.browserRequestId, r.devtoolsRequestId)
    ensures KeepsFirst(rec.redirectedToUrl, failed.redirectedToUrl, r.redirectedToUrl)
    ensures KeepsFirst(rec.statusCode, details.response.value.statusCode, r.statusCode)
    ensures KeepsFirst(rec.statusMessage, details.response.value.statusMessage, r.statusMessage)
    ensures KeepsFirst(rec.browserLoadedTimestamp, details.response.value.timestamp, r.browserLoadedTimestamp)
    ensures KeepsFirst(rec.frameId, details.frameId, r.frameId)
    // transient fields always take the latest value, even a null one
    ensures r.browserBlockedReason == failed.browserBlockedReason
    ensures r.browserCanceled == failed.browserCanceled
    ensures r.browserLoadFailure == details.response.value.browserLoadFailure
    // headers only ever grow, and only to a strictly longer serialisation
    ensures r.responseHeaders != rec.responseHeaders <==> Replaces(rec.responseHeaders, details.response.value.headers, stringify)
    ensures r.responseHeaders != rec.responseHeaders ==> r.responseHeaders == Some(stringify(details.response.value.headers.value))
    ensures r.responseOriginalHeaders != rec.responseOriginalHeaders <==> Replaces(rec.responseOriginalHeaders, failed.responseOriginalHeaders, stringify)
    ensures r.responseOriginalHeaders != rec.responseOriginalHeaders ==> r.responseOriginalHeaders == Some(stringify(failed.responseOriginalHeaders.value))
    // an error is recorded exactly when one is passed
    ensures ErrorIsTruthy(error) ==> r.httpError == GetErrorString(error, stringify) && r.httpError.Some?
    ensures !ErrorIsTruthy(error) ==> r.httpError == rec.httpError
    // nothing else changes
    ensures r == rec.(resourceType := r.resourceType, devtoolsRequestId := r.devtoolsRequestId,
                      browserBlockedReason := r.browserBlockedReason, browserCanceled := r.browserCanceled,
                      redirectedToUrl := r.redirectedToUrl, statusCode := r.statusCode,
                      statusMessage := r.statusMessage, browserLoadFailure := r.browserLoadFailure,
                      browserLoadedTimestamp := r.browserLoadedTimestamp, frameId := r.frameId,
                      responseHeaders := r.responseHeaders, responseOriginalHeaders := r.responseOriginalHeaders,
                      httpError := r.httpError)
  {
    var response := details.response.value;
    rec.(
      resourceType := OrElse(rec.resourceType, details.resourceType),
      devtoolsRequestId := OrElse(rec.devtoolsRequestId, failed.browserRequestId),
      browserBlockedReason := failed.browserBlockedReason,
      browserCanceled := failed.browserCanceled,
      redirectedToUrl := OrElse(rec.redirectedToUrl, failed.redirectedToUrl),
      statusCode := OrElse(rec.statusCode, response.statusCode),
      statusMessage := OrElse(rec.statusMessage, response.statusMessage),
      browserLoadFailure := response.browserLoadFailure,
      browserLoadedTimestamp := OrElse(rec.browserLoadedTimestamp, response.timestamp),
      frameId := OrElse(rec.frameId, details.frameId),
      responseHeaders := KeepLonger(rec.responseHeaders, response.headers, stringify),
      responseOriginalHeaders := KeepLonger(rec.responseOriginalHeaders, failed.responseOriginalHeaders, stringify),
      httpError := if ErrorIsTruthy(error) then GetErrorString(error, stringify) else rec.httpError
    )
  }

  /** The caller's meta after `mergeWithExisting`: its type is filled if
      missing, a missing response becomes the late response, its headers
      follow the stored headers' replacement and its load failure is the
      latest one. `rec` is the stored record before the merge. */
  function MergeMeta(existing: ResourceMeta, rec: Resource, details: ResourceMeta, stringify: Stringify): (m: ResourceMeta)
    requires details.response.Some?
    ensures KeepsFirst(existing.resourceType, details.resourceType, m.resourceType)
    ensures m.response.Some?
    ensures m.response.value.browserLoadFailure == details.response.value.browserLoadFailure
    ensures Replaces(rec.responseHeaders, details.response.value.headers, stringify) ==>
              m.response.value.headers == details.response.value.headers
    ensures existing.response.None? ==> m.response == details.response
    ensures existing.response.Some? && !Replaces(rec.responseHeaders, details.response.value.headers, stringify) ==>
              m.response.value.headers == existing.response.value.headers
    ensures existing.response.Some? ==>
              m.response.value == existing.response.value.(headers := m.response.value.headers,
                                                           browserLoadFailure := m.response.value.browserLoadFailure)
    ensures m == existing.(resourceType := m.resourceType, response := m.response)
  {
    var response := details.response.value;
    var base := existing.response.GetOr(response);
    var headers := if Replaces(rec.responseHeaders, response.headers, stringify) then response.headers else base.headers;
    existing.(
      resourceType := OrElse(existing.resourceType, details.resourceType),
      response := Some(base.(headers := headers, browserLoadFailure := response.browserLoadFailure))
    )
  }

  /** The caller's meta shows new headers exactly when the stored headers were
      replaced by them. */
  lemma MetaHeadersFollowRecord(existing: ResourceMeta, rec: Resource, details: ResourceMeta,
                                failed: ProcessingDetails, error: Option<ErrorValue>, stringify: Stringify)
    requires details.response.Some? && existing.response.Some?
    requires existing.response.value.headers != details.response.value.headers
    ensures var m := MergeMeta(existing, rec, details, stringify);
            var r := MergeRecord(rec, details, failed, error, stringify);
            (m.response.value.headers == details.response.value.headers) <==> (r.responseHeaders != rec.responseHeaders)
  {
  }

  /** Delivering the same event twice has the effect of delivering it once. */
  lemma MergeIdempotent(rec: Resource, details: ResourceMeta, failed: ProcessingDetails,
                        error: Option<ErrorValue>, stringify: Stringify)
    requires details.response.Some?
    ensures var once := MergeRecord(rec, details, failed, error, stringify);
            MergeRecord(once, details, failed, error, stringify) == once
  {
  }

  /** A stored header set is replaced by one that serialises longer, and kept
      against one that serialises no longer. */
  lemma LongerHeadersWin(rec: Resource, details: ResourceMeta, failed: ProcessingDetails,
                         error: Option<ErrorValue>, stringify: Stringify, h1: StringMap, h2: StringMap)
    requires details.response.Some? && details.response.value.headers == Some(h2)
    requires rec.responseHeaders == Some(stringify(h1))
    ensures var r := MergeRecord(rec, details, failed, error, stringify);
            && (Utf16Length(stringify(h1)) < Utf16Length(stringify(h2)) ==> r.responseHeaders == Some(stringify(h2)))
            && (Utf16Length(stringify(h2)) <= Utf16Length(stringify(h1)) ==> r.responseHeaders == Some(stringify(h1)))
  {
  }

  /** One late event: the meta, the processing details and the error it
      carries. */
  datatype MergeEvent = MergeEvent(details: ResourceMeta, failed: ProcessingDetails, error: Option<ErrorValue>)

  /** Every event carries a response, as `mergeWithExisting` requires. */
  predicate HasResponses(events: seq<MergeEvent>) {
    forall i :: 0 <= i < |events| ==> events[i].details.response.Some?
  }

  /** The record after merging the events in order. */
  function MergeAll(rec: Resource, events: seq<MergeEvent>, stringify: Stringify): (r: Resource)
    requires HasResponses(events)
    ensures r.id == rec.id
    decreases |events|
  {
    if |events| == 0 then rec
    else
      var e := events[0];
      MergeAll(MergeRecord(rec, e.details, e.failed, e.error, stringify), events[1..], stringify)
  }

  /** The first value present in `xs`, if any. */
  function FirstSome<T>(xs: seq<Option<T>>): (r: Option<T>)
    ensures r.Some? <==> exists i :: 0 <= i < |xs| && xs[i].Some?
    ensures r.Some? ==> exists i :: 0 <= i < |xs| && xs[i] == r && forall j :: 0 <= j < i ==> xs[j].None?
  {
    if |xs| == 0 then None
    else if xs[0].Some? then xs[0]
    else FirstSome(xs[1..])
  }

  /** The status codes the events report, in order. */
  function StatusCodesSeen(events: seq<MergeEvent>): (r: seq<Option<int>>)
    requires HasResponses(events)
    ensures |r| == |events|
    ensures forall i :: 0 <= i < |events| ==> r[i] == events[i].details.response.value.statusCode
  {
    if |events| == 0 then [] else [events[0].details.response.value.statusCode] + StatusCodesSeen(events[1..])
  }

  /** The redirect targets the events report, in order. */
  function RedirectsSeen(events: seq<MergeEvent>): (r: seq<Option<string>>)
    ensures |r| == |events|
    ensures forall i :: 0 <= i < |events| ==> r[i] == events[i].failed.redirectedToUrl
  {
    if |events| == 0 then [] else [events[0].failed.redirectedToUrl] + RedirectsSeen(events[1..])
  }

  /** After any sequence of merges the status code and the redirect target are
      the first ones ever observed, starting with the stored ones. */
  lemma {:induction false} FirstObservedWins(rec: Resource, events: seq<MergeEvent>, stringify: Stringify)
    requires HasResponses(events)
    ensures MergeAll(rec, events, stringify).statusCode == FirstSome([rec.statusCode] + StatusCodesSeen(events))
    ensures MergeAll(rec, events, stringify).redirectedToUrl == FirstSome([rec.redirectedToUrl] + RedirectsSeen(events))
    decreases |events|
  {
    if |events| > 0 {
      var e := events[0];
      var next := MergeRecord(rec, e.details, e.failed, e.error, stringify);
      FirstObservedWins(next, events[1..], stringify);
      assert StatusCodesSeen(events) == [e.details.response.value.statusCode] + StatusCodesSeen(events[1..]);
      assert RedirectsSeen(events) == [e.failed.redirectedToUrl] + RedirectsSeen(events[1..]);
      assert ([rec.statusCode] + StatusCodesSeen(events))[1..] == StatusCodesSeen(events);
      assert ([next.statusCode] + StatusCodesSeen(events[1..]))[1..] == StatusCodesSeen(events[1..]);
      assert ([rec.redirectedToUrl] + RedirectsSeen(events))[1..] == RedirectsSeen(events);
      assert ([next.redirectedToUrl] + RedirectsSeen(events[1..]))[1..] == RedirectsSeen(events[1..]);
      assert StatusCodesSeen(events)[1..] == StatusCodesSeen(events[1..]);
      assert RedirectsSeen(events)[1..] == RedirectsSeen(events[1..]);
    }
  }

  /** A status code once set is never overwritten, by null or otherwise. */
  lemma StatusCodeNeverCleared(rec: Resource, events: seq<MergeEvent>, stringify: Stringify)
    requires HasResponses(events) && rec.statusCode.Some?
    ensures MergeAll(rec, events, stringify).statusCode == rec.statusCode
  {
    FirstObservedWins(rec, events, stringify);
  }

  /** The longest header serialisation among a stored length `n` and the
      events' response headers. */
  function LongestHeaders(n: nat, events: seq<MergeEvent>, stringify: Stringify): (r: nat)
    requires HasResponses(events)
    ensures r >= n
    ensures forall i :: 0 <= i < |events| && events[i].details.response.value.headers.Some? ==>
              r >= Utf16Length(stringify(events[i].details.response.value.headers.value))
    ensures r == n || exists i :: 0 <= i < |events| && events[i].details.response.value.headers.Some?
                                  && r == Utf16Length(stringify(events[i].details.response.value.headers.value))
    decreases |events|
  {
    if |events| == 0 then n
    else
      var h := events[0].details.response.value.headers;
      var m := if h.Some? && Utf16Length(stringify(h.value)) > n then Utf16Length(stringify(h.value)) else n;
      LongestHeaders(m, events[1..], stringify)
  }

  /** Stored response headers end as the longest serialisation observed; a
      record stored without response headers never gains any through merges. */
  lemma {:induction false} HeadersGrowToLongest(rec: Resource, events: seq<MergeEvent>, stringify: Stringify)
    requires HasResponses(events)
    ensures rec.responseHeaders.None? ==> MergeAll(rec, events, stringify).responseHeaders.None?
    ensures rec.responseHeaders.Some? ==>
              && MergeAll(rec, events, stringify).responseHeaders.Some?
              && Utf16Length(MergeAll(rec, events, stringify).responseHeaders.value) == LongestHeaders(Utf16Length(rec.responseHeaders.value), events, stringify)
    decreases |events|
  {
    if |events| > 0 {
      var e := events[0];
      var next := MergeRecord(rec, e.details, e.failed, e.error, stringify);
      HeadersGrowToLongest(next, events[1..], stringify);
    }
  }

  /** After a non-empty sequence of merges the transient fields are those of
      the last event. */
  lemma {:induction false} TransientFieldsFromLastEvent(rec: Resource, events: seq<MergeEvent>, stringify: Stringify)
    requires HasResponses(events) && |events| > 0
    ensures var r := MergeAll(rec, events, stringify);
            var last := events[|events| - 1];
            && r.browserCanceled == last.failed.browserCanceled
            && r.browserBlockedReason == last.failed.browserBlockedReason
            && r.browserLoadFailure == last.details.response.value.browserLoadFailure
    decreases |events|
  {
    var e := events[0];
    var next := MergeRecord(rec, e.details, e.failed, e.error, stringify);
    if |events| > 1 {
      TransientFieldsFromLastEvent(next, events[1..], stringify);
    }
  }

  /** Once an error has been recorded, later merges never clear it. */
  lemma {:induction false} ErrorIsPermanent(rec: Resource, events: seq<MergeEvent>, stringify: Stringify)
    requires HasResponses(events)
    requires rec.httpError.Some? || exists i :: 0 <= i < |events| && ErrorIsTruthy(events[i].error)
    ensures MergeAll(rec, events, stringify).httpError.Some?
    decreases |events|
  {
    if |events| > 0 {
      var e := events[0];
      var next := MergeRecord(rec, e.details, e.failed, e.error, stringify);
      if !next.httpError.Some? {
        var i :| 0 <= i < |events| && ErrorIsTruthy(events[i].error);
        assert events[1..][i - 1] == events[i];
      }
      ErrorIsPermanent(next, events[1..], stringify);
    }
  }
}
