/**
 * The per-request context of the REST layer: the paging state (start index and limit), the
 * requested representation and the request itself, with the validated limit setter and the
 * derivation of the "next" and "prev" paging links.
 */
module RestWeb {
  import opened Wrappers
  import opened JavaInt
  import opened Decimal
  import opened QueryString
  import opened Paging

  /** The requested detail level of a response; stored and returned, never inspected here. */
  datatype Representation = DefaultRepresentation | RefRepresentation | FullRepresentation | CustomRepresentation(description: string)

  /** The exception the limit setter throws, with its message. */
  datatype ApiException = ApiException(message: string)

  const NON_POSITIVE_LIMIT_MESSAGE: string := "If you specify a number of results to return, it must be >0 and not null"
  const ABSOLUTE_LIMIT_MESSAGE: string := "Administrator has set absolute limit at "

  /**
   * The verdict of the limit setter on `value` (absent for Java's null) under the configured
   * `absoluteLimit`: accepted exactly when present, positive and at most the absolute limit.
   */
  function CheckLimit(value: Option<Int32>, absoluteLimit: Int32): (r: Outcome<ApiException>)
    ensures r.Pass? <==> value.Some? && 0 < value.value <= absoluteLimit
    ensures value.None? || value.value <= 0 ==> r == Fail(ApiException(NON_POSITIVE_LIMIT_MESSAGE))
    ensures value.Some? && 0 < value.value && absoluteLimit < value.value ==>
      r.Fail? && |ABSOLUTE_LIMIT_MESSAGE| <= |r.error.message| &&
      r.error.message[..|ABSOLUTE_LIMIT_MESSAGE|] == ABSOLUTE_LIMIT_MESSAGE
  {
    if value.None? || value.value <= 0 then Fail(ApiException(NON_POSITIVE_LIMIT_MESSAGE))
    else if value.value > absoluteLimit then Fail(ApiException(ABSOLUTE_LIMIT_MESSAGE + IntToString(absoluteLimit)))
    else Pass
  }

  /** A limit above the absolute limit is refused with a message from which the absolute limit can be read back. */
  lemma LimitMessageNamesAbsoluteLimit(value: Option<Int32>, absoluteLimit: Int32)
    requires value.Some? && 0 < value.value && absoluteLimit < value.value
    ensures CheckLimit(value, absoluteLimit).Fail?
    ensures var message := CheckLimit(value, absoluteLimit).error.message;
      |ABSOLUTE_LIMIT_MESSAGE| <= |message| &&
      ParseInt(message[|ABSOLUTE_LIMIT_MESSAGE|..]) == Some(absoluteLimit as int)
  {
    var message := CheckLimit(value, absoluteLimit).error.message;
    assert message[|ABSOLUTE_LIMIT_MESSAGE|..] == IntToString(absoluteLimit);
    IntToStringRoundTrip(absoluteLimit);
  }

  class RequestContext {
    /** The request being served; absent until set (Java's null). */
    var request: Option<Request>
    var representation: Representation
    var startIndex: Int32
    var limit: Int32

    /** The name of the start-index query parameter. */
    const startIndexKey: string
    /** The value encoder of the query builder (UTF-8 form-urlencoding). */
    const encode: string -> string

    /** A new context: no request, the default representation, start index 0 and the configured default limit. */
    constructor (defaultLimit: Int32, startIndexKey: string, encode: string -> string)
      ensures request == None && representation == DefaultRepresentation
      ensures startIndex == 0 && limit == defaultLimit
      ensures this.startIndexKey == startIndexKey && this.encode == encode
    {
      request := None;
      representation := DefaultRepresentation;
      startIndex := 0;
      limit := defaultLimit;
      this.startIndexKey := startIndexKey;
      this.encode := encode;
    }

    /** The limit lies in the range the setter accepts. */
    predicate LimitWithin(absoluteLimit: Int32)
      reads this
    {
      0 < limit <= absoluteLimit
    }

    method GetRequest() returns (r: Option<Request>)
      ensures r == request
    {
      r := request;
    }

    method SetRequest(r: Option<Request>)
      modifies this`request
      ensures request == r
      ensures representation == old(representation) && startIndex == old(startIndex) && limit == old(limit)
    {
      request := r;
    }

    method GetRepresentation() returns (r: Representation)
      ensures r == representation
    {
      r := representation;
    }

    method SetRepresentation(r: Representation)
      modifies this`representation
      ensures representation == r
      ensures request == old(request) && startIndex == old(startIndex) && limit == old(limit)
    {
      representation := r;
    }

    method GetLimit() returns (r: Int32)
      ensures r == limit
    {
      r := limit;
    }

    /**
     * Stores `value` as the limit if it is present, positive and at most `absoluteLimit`;
     * otherwise fails and keeps the previous limit. Only the limit may change.
     */
    method SetLimit(value: Option<Int32>, absoluteLimit: Int32) returns (outcome: Outcome<ApiException>)
      modifies this`limit
      ensures outcome == CheckLimit(value, absoluteLimit)
      ensures outcome.Pass? ==> limit == value.value && LimitWithin(absoluteLimit)
      ensures outcome.Fail? ==> limit == old(limit)
      ensures old(LimitWithin(absoluteLimit)) ==> LimitWithin(absoluteLimit)
      ensures request == old(request) && representation == old(representation) && startIndex == old(startIndex)
    {
      if value.None? || value.value <= 0 {
        return Fail(ApiException(NON_POSITIVE_LIMIT_MESSAGE));
      }
      if value.value > absoluteLimit {
        return Fail(ApiException(ABSOLUTE_LIMIT_MESSAGE + IntToString(absoluteLimit)));
      } else {
        limit := value.value;
      }
      outcome := Pass;
    }

    method GetStartIndex() returns (r: Int32)
      ensures r == startIndex
    {
      r := startIndex;
    }

    /** Stores the start index as given, unvalidated; only the start index changes. */
    method SetStartIndex(value: Int32)
      modifies this`startIndex
      ensures startIndex == value
      ensures request == old(request) && representation == old(representation) && limit == old(limit)
    {
      startIndex := value;
    }

    /** The "next" page link: the request URL, the rebuilt query and `startIndex + limit`. Reads only. */
    method GetNextLink() returns (link: Hyperlink)
      requires request.Some?
      ensures link == NextLink(request.value, startIndexKey, encode, startIndex, limit)
    {
      var query := GetQueryWithoutStartIndex();
      query := query + (startIndexKey + "=" + IntToString(Add(startIndex, limit)));
      link := Hyperlink("next", request.value.url + query);
    }

    /** The "prev" page link: the start index `startIndex - limit` raised to 0, and left out when 0. Reads only. */
    method GetPreviousLink() returns (link: Hyperlink)
      requires request.Some?
      ensures link == PrevLink(request.value, startIndexKey, encode, startIndex, limit)
    {
      var query := GetQueryWithoutStartIndex();
      var prevStart := Sub(startIndex, limit);
      if prevStart < 0 {
        prevStart := 0;
      }
      if prevStart > 0 {
        query := query + (startIndexKey + "=" + IntToString(prevStart));
      }
      link := Hyperlink("prev", request.value.url + query);
    }

    /**
     * The request's query string rebuilt in a buffer: `?`, then `key=value&` for every value
     * (encoded) of every parameter in map order, skipping the start-index parameter.
     */
    method GetQueryWithoutStartIndex() returns (query: string)
      requires request.Some?
      ensures query == QueryWithout(request.value.params, startIndexKey, encode)
    {
      var params, skip, enc := request.value.params, startIndexKey, encode;
      query := "?";
      SegmentsStart(params, skip, enc);
      for i := 0 to |params|
        invariant query == "?" + Render(Segments(params[..i], skip, enc))
      {
        var e := params[i];
        if e.key == skip {
          SegmentsStepSkipped(params, i, skip, enc);
          continue;
        }
        ghost var head := query;
        for j := 0 to |e.values|
          invariant query == head + Render(ParamPairs(e.key, e.values[..j], enc))
        {
          RenderStep(head, e.key, e.values, j, enc);
          query := query + (e.key + "=" + enc(e.values[j]) + "&");
        }
        SegmentsStepKept(params, i, skip, enc);
      }
      SegmentsEnd(params, skip, enc);
    }
  }
}
