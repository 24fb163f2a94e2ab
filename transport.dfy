/**
 * What passes between an adapter and the HTTP transport it wraps (RestTemplate
 * or WebClient): the request the adapter hands over, the response that comes
 * back, and the exceptions the adapters catch.
 */
module Transport {
  import opened Wrappers
  import opened JavaLang
  import opened Headers

  /** The client's own HTTP method enumeration. */
  datatype HttpMethod = GET | HEAD | POST | PUT | PATCH | DELETE | OPTIONS | TRACE

  /** The request as the transport sees it; `body` None means no body is attached. */
  datatype Request<B> = Request(httpMethod: HttpMethod, uri: string, headers: HeaderList, body: Option<B>)

  /** A response entity: body converted to T (None for null), raw status, headers. */
  datatype Response<T> = Response(body: Option<T>, status: Int32, headers: HeaderMap)

  /**
   * The transport exceptions the adapters catch.
   * ResponseException: RestClientResponseException / WebClientResponseException,
   *   raised for a response whose status the error predicate rejects (or thrown
   *   by the transport for any other reason) and carrying that response.
   * RequestException: any other RestClientException / WebClientException.
   */
  datatype TransportException =
    | ResponseException(message: Option<string>, rawStatus: Int32, responseBody: seq<Byte>, responseHeaders: HeaderMap)
    | RequestException(message: Option<string>)
}
