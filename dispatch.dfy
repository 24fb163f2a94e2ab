/**
 * The outcome mapping both adapters share: how a transport outcome becomes
 * either a response entity or a thrown exception. A response whose status the
 * error predicate rejects turns into a response-carrying transport exception;
 * a response-carrying transport exception becomes a response error, decoded
 * from a TMF envelope when possible and otherwise wrapping the original; any
 * other transport exception becomes a plain client error; everything else
 * propagates unchanged.
 */
module Dispatch {
  import opened Wrappers
  import opened JavaLang
  import opened Headers
  import opened Tmf
  import opened Transport
  import opened ClientException
  import opened ResponseException
  import opened ResponseEntity
  import HttpStatus

  /** Something thrown out of the transport call. */
  datatype Fault =
    | TransportFault(exception: TransportException)     // a RestClientException / WebClientException
    | ClientFault(error: RestClientError)               // a MicroserviceRestClientException
    | OtherFault(className: string, message: Option<string>)  // any other unchecked exception

  /** What the transport call gives back, before the status check. */
  datatype Exchange<T> =
    | Answered(response: Response<T>, rawBody: seq<Byte>, errorMessage: Option<string>)
    | NullEntity                                        // the call returned null
    | Raised(fault: Fault)

  /** What a doRequest call ends with. */
  datatype CallResult<T> = Returned(entity: RestClientResponseEntity<T>) | Threw(fault: Fault)

  /**
   * The status check the transport applies on the adapter's behalf: a
   * rejected status becomes the response-carrying transport exception, with
   * the raw body bytes and the response headers.
   */
  function Classify<T>(x: Exchange<T>, isError: Int32 -> bool): (r: Exchange<T>)
    ensures x.Answered? && !isError(x.response.status) ==> r == x
    ensures x.Answered? && isError(x.response.status) ==>
      r == Raised(TransportFault(ResponseException(x.errorMessage, x.response.status, x.rawBody, x.response.headers)))
    ensures !x.Answered? ==> r == x
  {
    match x
    case Answered(response, rawBody, errorMessage) =>
      if isError(response.status)
      then Raised(TransportFault(ResponseException(errorMessage, response.status, rawBody, response.headers)))
      else x
    case _ => x
  }

  /** The entity built from a successful response. */
  function ToEntity<T>(response: Response<T>): (e: RestClientResponseEntity<T>)
    ensures e.responseBody == response.body && e.httpStatus == response.status
    ensures ToMap(e.headers) == ToMap(response.headers)
  {
    NewEntityWithHeaders(response.body, response.status, response.headers)
  }

  /**
   * The decode-or-fallback step for a response-carrying transport exception:
   * a TMF envelope that both decodes and converts gives the remote exception's
   * message and the remote exception as cause; any failure of either step
   * gives the original message and the original exception as cause.
   */
  function ResponseErrorFrom(e: TransportException, mapper: Mapper, converter: Converter): RestClientError
    requires e.ResponseException?
  {
    var fallback := NewResponseErrorWithCause(e.message, Some(FromTransport(e)), e.rawStatus, e.responseBody, e.responseHeaders);
    match mapper(e.responseBody)
    case None => fallback
    case Some(tmf) =>
      match converter(tmf)
      case None => fallback
      case Some(remote) =>
        NewResponseErrorWithCause(remote.message, Some(FromRemote(remote)), e.rawStatus, e.responseBody, e.responseHeaders)
  }

  /** Whether the response body decodes and converts to a remote exception. */
  function Decoded(body: seq<Byte>, mapper: Mapper, converter: Converter): Option<RemoteCodeException> {
    match mapper(body)
    case None => None
    case Some(tmf) => converter(tmf)
  }

  /** The catch clauses of the adapters, on a transport exception. */
  function MapTransportException(e: TransportException, mapper: Mapper, converter: Converter): (r: RestClientError)
    ensures r.errorCode == REST_CALL_ERROR && r.cause.Some?
    ensures r.ResponseError? <==> e.ResponseException?
  {
    if e.ResponseException? then ResponseErrorFrom(e, mapper, converter)
    else NewClientErrorWithCause(e.message, Some(FromTransport(e)))
  }

  /**
   * A response-carrying exception keeps its status, raw body and headers in
   * the response error. With a decodable envelope, message and cause come
   * from the remote exception; otherwise they are the original exception's
   * message and the original exception itself.
   */
  lemma ResponseExceptionMapping(e: TransportException, mapper: Mapper, converter: Converter)
    requires e.ResponseException?
    ensures var r := MapTransportException(e, mapper, converter);
      && r.ResponseError? && r.errorCode == REST_CALL_ERROR
      && r.httpStatus == e.rawStatus && r.responseBody == e.responseBody && r.responseHeaders == e.responseHeaders
      && (Decoded(e.responseBody, mapper, converter).Some? ==>
            var remote := Decoded(e.responseBody, mapper, converter).value;
            r.Detail() == remote.message && r.cause == Some(FromRemote(remote)))
      && (Decoded(e.responseBody, mapper, converter).None? ==>
            r.Detail() == e.message && r.cause == Some(FromTransport(e)))
  {
  }

  /** Any other transport exception becomes a plain client error with its message and itself as cause. */
  lemma RequestExceptionMapping(e: TransportException, mapper: Mapper, converter: Converter)
    requires e.RequestException?
    ensures var r := MapTransportException(e, mapper, converter);
      r == ClientError(REST_CALL_ERROR, e.message, Some(FromTransport(e)))
  {
  }

  /**
   * The catch-based mapping around the transport call: a response gives the
   * entity, a transport exception the mapped client error, anything else
   * passes through; `onNull` is what a null entity turns into.
   */
  function Outcome<T>(x: Exchange<T>, mapper: Mapper, converter: Converter, onNull: Fault): (r: CallResult<T>)
    ensures x.Answered? <==> r.Returned?
    ensures r.Threw? && r.fault.TransportFault? ==> x.NullEntity?
  {
    match x
    case Answered(response, _, _) => Returned(ToEntity(response))
    case NullEntity => Threw(onNull)
    case Raised(TransportFault(e)) => Threw(ClientFault(MapTransportException(e, mapper, converter)))
    case Raised(f) => Threw(f)
  }

  /**
   * Status routing over a transport answer with the adapters' error
   * predicate: the call returns exactly when the status class is 1xx, 2xx or
   * 3xx, with the response's own body, status and headers; any other status
   * (4xx, 5xx, or a code outside 100..599 such as 999) throws a response
   * error carrying that status, the raw body and the headers.
   */
  lemma StatusRouting<T>(response: Response<T>, rawBody: seq<Byte>, errorMessage: Option<string>,
                         mapper: Mapper, converter: Converter, onNull: Fault)
    ensures var r := Outcome(Classify(Answered(response, rawBody, errorMessage), HttpStatus.HasError), mapper, converter, onNull);
      && (r.Returned? <==> 1 <= Quotient(response.status, 100) <= 3)
      && (r.Returned? ==> r.entity == RestClientResponseEntity(response.body, response.status, response.headers))
      && (r.Threw? ==>
            && r.fault.ClientFault? && r.fault.error.ResponseError?
            && r.fault.error.httpStatus == response.status
            && r.fault.error.responseBody == rawBody
            && r.fault.error.responseHeaders == response.headers)
  {
    HttpStatus.HasErrorIff(response.status);
    if HttpStatus.HasError(response.status) {
      ResponseExceptionMapping(ResponseException(errorMessage, response.status, rawBody, response.headers), mapper, converter);
    }
  }

  /**
   * What each kind of throw becomes: a transport exception, raised by the
   * transport or by the status check, is replaced by the client error the
   * mapping builds from it; any other fault passes through unchanged; a null
   * entity becomes `onNull`. So no transport exception escapes a call unless
   * `onNull` is one.
   */
  lemma NoTransportExceptionEscapes<T>(x: Exchange<T>, isError: Int32 -> bool,
                                       mapper: Mapper, converter: Converter, onNull: Fault)
    ensures var c := Classify(x, isError);
      var r := Outcome(c, mapper, converter, onNull);
      && (c.Raised? && c.fault.TransportFault? ==>
            r == Threw(ClientFault(MapTransportException(c.fault.exception, mapper, converter))))
      && (x.Raised? && !x.fault.TransportFault? ==> r == Threw(x.fault))
      && (x.NullEntity? ==> r == Threw(onNull))
      && (r.Threw? && r.fault.TransportFault? ==> x.NullEntity? && r.fault == onNull)
  {
    var c := Classify(x, isError);
    match c
    case Answered(_, _, _) =>
    case NullEntity =>
    case Raised(f) =>
      if f.TransportFault? {
        assert Outcome(c, mapper, converter, onNull) == Threw(ClientFault(MapTransportException(f.exception, mapper, converter)));
      }
  }
}
