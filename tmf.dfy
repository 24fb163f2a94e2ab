/**
 * The remote-error vocabulary the client consumes but does not define: the TMF
 * error envelope, the error-code holder, and the RemoteCodeException that the
 * converter builds from an envelope. Decoding (Jackson) and conversion are
 * foreign code; the adapters hold them as partial functions.
 */
module Tmf {
  import opened Wrappers
  import opened JavaLang

  /** An error code and its human-readable title. */
  datatype ErrorCode = ErrorCode(code: string, title: string)

  /** The TMF error envelope: every field is an optional string. */
  datatype TmfErrorResponse = TmfErrorResponse(
    id: Option<string>, code: Option<string>, reason: Option<string>,
    detail: Option<string>, status: Option<string>, errorType: Option<string>)

  /** The exception the converter builds from a decoded envelope. */
  datatype RemoteCodeException = RemoteCodeException(
    errorCode: ErrorCode, status: Option<int>, message: Option<string>)

  /** ObjectMapper.readValue(bytes, TmfErrorResponse.class); None: it threw. */
  type Mapper = seq<Byte> -> Option<TmfErrorResponse>

  /** TmfErrorResponseConverter.buildErrorCodeException; None: it threw. */
  type Converter = TmfErrorResponse -> Option<RemoteCodeException>
}
