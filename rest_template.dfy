/**
 * MicroserviceRestTemplate: the adapter over Spring's RestTemplate. Its
 * constructor installs the status predicate on the template it is given; each
 * call builds the outgoing headers, hands the request to the template and maps
 * what comes back.
 */
module RestTemplateAdapter {
  import opened Wrappers
  import opened JavaLang
  import opened Headers
  import opened Tmf
  import opened Transport
  import opened Dispatch
  import HttpStatus

  /** Spring's RestTemplate, as far as the adapter changes it: the status predicate of its error handler. */
  class RestTemplate {
    var hasError: Int32 -> bool

    constructor (hasError: Int32 -> bool)
      ensures this.hasError == hasError
    {
      this.hasError := hasError;
    }

    /** setErrorHandler */
    method SetErrorHandler(hasError: Int32 -> bool)
      modifies this
      ensures this.hasError == hasError
    {
      this.hasError := hasError;
    }
  }

  /** What dereferencing a null response entity raises. */
  const NULL_POINTER: Fault := OtherFault("java.lang.NullPointerException", None)

  class MicroserviceRestTemplate {
    const restTemplate: RestTemplate
    var mapper: Mapper
    var converter: Converter

    /**
     * The constructor: keeps the template and installs the adapter's status
     * predicate in its error handler. The default ObjectMapper and TMF
     * converter are given as parameters.
     */
    constructor (restTemplate: RestTemplate, defaultMapper: Mapper, defaultConverter: Converter)
      modifies restTemplate
      ensures this.restTemplate == restTemplate && restTemplate.hasError == HttpStatus.HasError
      ensures mapper == defaultMapper && converter == defaultConverter
    {
      this.restTemplate := restTemplate;
      mapper := defaultMapper;
      converter := defaultConverter;
      new;
      restTemplate.SetErrorHandler(HttpStatus.HasError);
    }

    /** setMapper */
    method SetMapper(mapper: Mapper)
      modifies this
      ensures this.mapper == mapper && converter == old(converter)
    {
      this.mapper := mapper;
    }

    /** setConverter */
    method SetConverter(converter: Converter)
      modifies this
      ensures this.converter == converter && mapper == old(mapper)
    {
      this.converter := converter;
    }

    /**
     * setHttpHeaders: a new header object receiving the caller's headers (none
     * for a null map), then Content-Type application/json if it has no
     * content type.
     */
    static method SetHttpHeaders(headers: Option<HeaderMap>) returns (httpHeaders: HttpHeaders)
      ensures fresh(httpHeaders) && httpHeaders.Valid()
      ensures httpHeaders.entries == Prepared([], headers)
    {
      httpHeaders := new HttpHeaders();
      if headers.Some? {
        httpHeaders.AddAllFrom(headers.value);
      } else {
        httpHeaders.AddAllFrom([]);
      }
      if httpHeaders.ContentType().None? {
        httpHeaders.SetContentType(APPLICATION_JSON);
      }
    }

    /**
     * doRequest(URI, ...): the template exchanges the request carrying the
     * prepared headers and the body (None: no body), applying its installed
     * status predicate; the outcome is then mapped. `exchange` stands for the
     * template's exchange call.
     */
    method DoRequest<B, T>(uri: string, httpMethod: HttpMethod, headers: Option<HeaderMap>, requestBody: Option<B>,
                           exchange: Request<B> -> Exchange<T>) returns (r: CallResult<T>)
      ensures r == Outcome(Classify(exchange(Request(httpMethod, uri, Prepared([], headers), requestBody)), restTemplate.hasError),
                           mapper, converter, NULL_POINTER)
    {
      var httpHeaders := SetHttpHeaders(headers);
      var requestEntity := Request(httpMethod, uri, httpHeaders.entries, requestBody);
      var responseEntity := Classify(exchange(requestEntity), restTemplate.hasError);
      r := Outcome(responseEntity, mapper, converter, NULL_POINTER);
    }

    /**
     * doRequest(uriTemplate, ..., params): expands the template with the
     * parameters and delegates to the URI form with everything else
     * unchanged. `expand` stands for the template's URI template handler.
     */
    method DoRequestTemplate<B, T, P>(uriTemplate: string, httpMethod: HttpMethod, headers: Option<HeaderMap>,
                                      requestBody: Option<B>, params: P, expand: (string, P) -> string,
                                      exchange: Request<B> -> Exchange<T>) returns (r: CallResult<T>)
      ensures r == Outcome(Classify(exchange(Request(httpMethod, expand(uriTemplate, params), Prepared([], headers), requestBody)),
                                    restTemplate.hasError),
                           mapper, converter, NULL_POINTER)
    {
      r := DoRequest(expand(uriTemplate, params), httpMethod, headers, requestBody, exchange);
    }
  }

  /**
   * The request a freshly constructed adapter sends holds every caller header
   * (under any spelling of its name, values in order) and a content type:
   * the caller's when the caller gives a non-empty one, application/json
   * otherwise.
   */
  lemma {:induction false} OutgoingHeaders(headers: Option<HeaderMap>, k: string)
    ensures var r := Prepared([], headers);
      var c := headers.GetOr([]);
      && HasContentType(r)
      && (!SameName(k, CONTENT_TYPE) ==> ValuesOf(r, k) == ValuesFor(c, k) && (HasName(r, k) <==> Mentions(c, k)))
      && (SameName(k, CONTENT_TYPE) && HasContentType(MergeAll([], c)) ==> ValuesOf(r, k) == ValuesFor(c, k))
      && (SameName(k, CONTENT_TYPE) && !HasContentType(MergeAll([], c)) ==> ValuesOf(r, k) == [APPLICATION_JSON])
  {
    var e: HeaderList := [];
    assert ValuesOf(e, k) == [] && !HasName(e, k);
    PreparedLookup(e, headers, k);
  }
}
