/**
 * The client's error taxonomy. MicroserviceRestClientException (`ClientError`)
 * signals a failure without a usable response; its subclass
 * MicroserviceRestClientResponseException (`ResponseError`) also carries the
 * raw status, the raw body bytes and the response headers. Both carry the same
 * fixed error code.
 */
module ClientException {
  import opened Wrappers
  import opened JavaLang
  import opened Headers
  import opened Tmf
  import opened Transport

  const REST_CALL_ERROR: ErrorCode := ErrorCode("CORE-LIB-MRA-0001", "Exception occurred performing REST call")

  /** The cause of a client error: a caught transport exception or a decoded remote error. */
  datatype Cause = FromTransport(transport: TransportException) | FromRemote(remote: RemoteCodeException)

  datatype RestClientError =
    | ClientError(errorCode: ErrorCode, message: Option<string>, cause: Option<Cause>)
    | ResponseError(errorCode: ErrorCode, message: Option<string>, cause: Option<Cause>,
                    httpStatus: Int32, responseBody: seq<Byte>, responseHeaders: HeaderMap)
  {
    /** getDetail(): the message the error was built with. */
    function Detail(): Option<string> {
      message
    }
  }

  /** new MicroserviceRestClientException(msg, cause) */
  function NewClientErrorWithCause(msg: Option<string>, cause: Option<Cause>): (e: RestClientError)
    ensures e.ClientError? && e.errorCode == REST_CALL_ERROR
    ensures e.Detail() == msg && e.cause == cause
  {
    ClientError(REST_CALL_ERROR, msg, cause)
  }

  /** new MicroserviceRestClientException(msg): delegates with a null cause. */
  function NewClientError(msg: Option<string>): (e: RestClientError)
    ensures e.ClientError? && e.errorCode == REST_CALL_ERROR
    ensures e.Detail() == msg && e.cause.None?
  {
    NewClientErrorWithCause(msg, None)
  }
}
