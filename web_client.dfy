/**
 * MicroserviceWebClient: the adapter over Spring's reactive WebClient. It
 * holds a retry policy the caller can replace; each call completes the
 * request's own header object in place, runs the request to a blocking
 * result with the adapter's status predicate, and maps what comes back.
 */
module WebClientAdapter {
  import opened Wrappers
  import opened JavaLang
  import opened Headers
  import opened Tmf
  import opened Transport
  import opened ClientException
  import opened Dispatch
  import HttpStatus

  /**
   * A Reactor retry policy. The adapter only stores it and hands it to the
   * transport, so any policy is allowed and nothing about its inside is modelled.
   */
  type RetryPolicy

  const NULL_HTTP_RESPONSE: string := "Null HTTP response"

  /** What a null response entity turns into: a client error with no cause. */
  const NULL_RESPONSE: Fault := ClientFault(NewClientError(Some(NULL_HTTP_RESPONSE)))

  class MicroserviceWebClient {
    var retryPolicy: RetryPolicy
    var mapper: Mapper
    var converter: Converter

    /**
     * A new adapter starts with the stub policy (a backoff with no retries and
     * no retryable error) and the given default mapper and converter.
     */
    constructor (stubPolicy: RetryPolicy, defaultMapper: Mapper, defaultConverter: Converter)
      ensures retryPolicy == stubPolicy && mapper == defaultMapper && converter == defaultConverter
    {
      retryPolicy := stubPolicy;
      mapper := defaultMapper;
      converter := defaultConverter;
    }

    /** withRetry: replaces the policy and returns the same adapter. */
    method WithRetry(retryPolicy: RetryPolicy) returns (self: MicroserviceWebClient)
      modifies this
      ensures self == this && this.retryPolicy == retryPolicy
      ensures mapper == old(mapper) && converter == old(converter)
    {
      this.retryPolicy := retryPolicy;
      self := this;
    }

    /** setMapper */
    method SetMapper(mapper: Mapper)
      modifies this
      ensures this.mapper == mapper && converter == old(converter) && retryPolicy == old(retryPolicy)
    {
      this.mapper := mapper;
    }

    /** setConverter */
    method SetConverter(converter: Converter)
      modifies this
      ensures this.converter == converter && mapper == old(mapper) && retryPolicy == old(retryPolicy)
    {
      this.converter := converter;
    }

    /**
     * setHttpHeaders: appends the caller's headers (none for a null map) to
     * the headers the request already has, then sets Content-Type to
     * application/json if there is no content type; returns the same object.
     */
    static method SetHttpHeaders(httpHeaders: HttpHeaders, headers: Option<HeaderMap>) returns (same: HttpHeaders)
      requires httpHeaders.Valid()
      modifies httpHeaders
      ensures same == httpHeaders && httpHeaders.Valid()
      ensures httpHeaders.entries == Prepared(old(httpHeaders.entries), headers)
    {
      if headers.Some? {
        httpHeaders.AddAllFrom(headers.value);
      } else {
        httpHeaders.AddAllFrom([]);
      }
      if httpHeaders.ContentType().None? {
        httpHeaders.SetContentType(APPLICATION_JSON);
      }
      same := httpHeaders;
    }

    /**
     * doRequestInternal. The request spec comes from a supplier that either
     * raises `specFault` or yields a spec whose own header object is
     * `specHeaders`. `exchange` stands for retrieve, onRawStatus with the
     * given status predicate, toEntity, retryWhen with the given policy, and
     * block: a rejected status raises the response-carrying exception inside
     * the chain, before the policy sees it, so a retrying policy may retry it
     * and end in a fault of its own. A fault of the supplier skips the header
     * step and is mapped like any other; otherwise the headers are completed
     * in place and the request, its body attached only when present, is run
     * with the adapter's status predicate and the current policy.
     */
    method DoRequestInternal<B, T>(httpMethod: HttpMethod, uri: string, specFault: Option<Fault>, specHeaders: HttpHeaders,
                                   requestBody: Option<B>, headers: Option<HeaderMap>,
                                   exchange: (Request<B>, Int32 -> bool, RetryPolicy) -> Exchange<T>) returns (r: CallResult<T>)
      requires specHeaders.Valid()
      modifies specHeaders
      ensures specFault.Some? ==> (specHeaders.entries == old(specHeaders.entries) &&
        r == Outcome(Raised(specFault.value), mapper, converter, NULL_RESPONSE))
      ensures specFault.None? ==> (specHeaders.entries == Prepared(old(specHeaders.entries), headers) &&
        r == Outcome(exchange(Request(httpMethod, uri, specHeaders.entries, requestBody), HttpStatus.HasError, retryPolicy),
                     mapper, converter, NULL_RESPONSE))
    {
      var responseEntity: Exchange<T>;
      if specFault.Some? {
        responseEntity := Raised(specFault.value);
      } else {
        var _ := SetHttpHeaders(specHeaders, headers);
        var requestSpec := Request(httpMethod, uri, specHeaders.entries, requestBody);
        responseEntity := exchange(requestSpec, HttpStatus.HasError, retryPolicy);
      }
      r := Outcome(responseEntity, mapper, converter, NULL_RESPONSE);
    }

    /** doRequest(URI, ...): the internal call with the URI as given. */
    method DoRequest<B, T>(uri: string, httpMethod: HttpMethod, headers: Option<HeaderMap>, requestBody: Option<B>,
                           specFault: Option<Fault>, specHeaders: HttpHeaders,
                           exchange: (Request<B>, Int32 -> bool, RetryPolicy) -> Exchange<T>) returns (r: CallResult<T>)
      requires specHeaders.Valid()
      modifies specHeaders
      ensures specFault.Some? ==> (specHeaders.entries == old(specHeaders.entries) &&
        r == Outcome(Raised(specFault.value), mapper, converter, NULL_RESPONSE))
      ensures specFault.None? ==> (specHeaders.entries == Prepared(old(specHeaders.entries), headers) &&
        r == Outcome(exchange(Request(httpMethod, uri, specHeaders.entries, requestBody), HttpStatus.HasError, retryPolicy),
                     mapper, converter, NULL_RESPONSE))
    {
      r := DoRequestInternal(httpMethod, uri, specFault, specHeaders, requestBody, headers, exchange);
    }

    /** doRequest(uriTemplate, ..., params): the internal call with the expanded template. */
    method DoRequestTemplate<B, T, P>(uriTemplate: string, httpMethod: HttpMethod, headers: Option<HeaderMap>,
                                      requestBody: Option<B>, params: P, expand: (string, P) -> string,
                                      specFault: Option<Fault>, specHeaders: HttpHeaders,
                                      exchange: (Request<B>, Int32 -> bool, RetryPolicy) -> Exchange<T>) returns (r: CallResult<T>)
      requires specHeaders.Valid()
      modifies specHeaders
      ensures specFault.Some? ==> (specHeaders.entries == old(specHeaders.entries) &&
        r == Outcome(Raised(specFault.value), mapper, converter, NULL_RESPONSE))
      ensures specFault.None? ==> (specHeaders.entries == Prepared(old(specHeaders.entries), headers) &&
        r == Outcome(exchange(Request(httpMethod, expand(uriTemplate, params), specHeaders.entries, requestBody),
                              HttpStatus.HasError, retryPolicy),
                     mapper, converter, NULL_RESPONSE))
    {
      r := DoRequestInternal(httpMethod, expand(uriTemplate, params), specFault, specHeaders, requestBody, headers, exchange);
    }
  }

  /**
   * A null entity raises the client error "Null HTTP response" without a
   * cause, and it is not remapped: it leaves the call as it was raised.
   */
  lemma NullResponseRaisesClientError<T>(mapper: Mapper, converter: Converter)
    ensures var r := Outcome<T>(NullEntity, mapper, converter, NULL_RESPONSE);
      && r.Threw? && r.fault.ClientFault?
      && r.fault.error == ClientError(REST_CALL_ERROR, Some("Null HTTP response"), None)
  {
  }

  /**
   * The headers the request carries keep every header it had before the
   * call, in front of the caller's, under any spelling of the name; only an
   * empty or missing content type is replaced by application/json.
   */
  lemma {:induction false} ExistingHeadersKept(existing: HeaderList, headers: Option<HeaderMap>, k: string)
    requires UniqueNamesIgnoringCase(existing)
    ensures var r := Prepared(existing, headers);
      !SameName(k, CONTENT_TYPE) ==>
        && |ValuesOf(r, k)| >= |ValuesOf(existing, k)|
        && ValuesOf(r, k)[..|ValuesOf(existing, k)|] == ValuesOf(existing, k)
        && (HasName(existing, k) ==> HasName(r, k))
  {
    PreparedLookup(existing, headers, k);
    if !SameName(k, CONTENT_TYPE) {
      var r := Prepared(existing, headers);
      assert ValuesOf(r, k) == ValuesOf(existing, k) + ValuesFor(headers.GetOr([]), k);
    }
  }
}
