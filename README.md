# A verified model of the microservice REST client

The library puts one REST-client interface in front of two Spring transports,
the blocking RestTemplate and the reactive WebClient. This project models its
core in Dafny and proves properties of the model:

- **Outgoing headers.** Both adapters merge the caller's headers into a
  case-insensitive header object, then default `Content-Type` to
  `application/json` only when no content type is present
  (`Headers`, `HttpHeaders` class).
- **Status classification.** A status is an error exactly when Spring's
  `HttpStatus.Series.resolve` gives no series, or gives the client-error or
  server-error series (`HttpStatus`).
- **Outcome mapping.** A success gives a response entity. A response-carrying
  transport exception becomes a response error, decoded from a TMF error
  envelope when possible, otherwise wrapping the original. Any other transport
  exception becomes a plain client error. Anything else propagates unchanged
  (`Dispatch`, `RestTemplateAdapter`, `WebClientAdapter`).
- **Errors.** A client error has an error code, a message and an optional
  cause. A response error also carries the raw status, body and headers. The
  charset of the body is resolved best-effort from the `content-type` header
  (`ClientException`, `ResponseException`).
- **Entity equality.** Equality of the response entity coincides with
  equality of bodies, statuses and header maps (`ResponseEntity`).

Java semantics are written out where they matter (`JavaLang`):

- 32-bit `int` and signed bytes.
- Division rounding toward zero.
- `Integer.toString`.
- `String.trim`.
- `String.equalsIgnoreCase`.
- `String.split` with a one-character separator, which drops trailing empty strings.

A Java map is an association list in iteration order, with unique keys.
A Java `null` is `None`.

Foreign code is a function-typed parameter, never something the model imitates:

- the transport call;
- Jackson's `readValue`;
- the TMF converter;
- `Charset.forName`;
- byte decoding;
- URI template expansion.

A partial foreign call returns `None` where the Java code throws.

1xx and 3xx are not errors: `Series.resolve` gives them the INFORMATIONAL and
REDIRECTION series, and the error predicate rejects neither. So 1xx, 2xx and
3xx all return an entity (`HttpStatus.HasErrorIff`).

## Model

| member | source | states |
|---|---|---|
| HttpStatus.Resolve | microservice-restclient-resttemplate/src/main/java/org/qubership/cloud/restclient/resttemplate/MicroserviceRestTemplate.java:57 | a series exists exactly when status/100 (rounded toward zero) is 1..5, and its value is that quotient |
| HttpStatus.HasErrorIff | microservice-restclient-resttemplate/src/main/java/org/qubership/cloud/restclient/resttemplate/MicroserviceRestTemplate.java:55-59 | a status is an error iff status/100 is not 1, 2 or 3, iff it lies outside 100..399 |
| HttpStatus.HasErrorExamples | microservice-restclient-webclient/src/main/java/org/qubership/cloud/restclient/webclient/MicroserviceWebClient.java:117-120 | 999, 404, 500 and -200 are errors; 200, 101, 302 and 399 are not |
| JavaLang.Quotient | microservice-restclient-resttemplate/src/main/java/org/qubership/cloud/restclient/resttemplate/MicroserviceRestTemplate.java:57 | Java int division: the quotient rounds toward zero |
| JavaLang.IntToStringRoundTrip | microservice-restclient-api/src/main/java/org/qubership/cloud/restclient/exception/MicroserviceRestClientResponseException.java:82 | the decimal rendering of an int reads back as the same int |
| JavaLang.Trim | microservice-restclient-api/src/main/java/org/qubership/cloud/restclient/exception/MicroserviceRestClientResponseException.java:60 | the result has no blank ends, is an infix of the input, and only blanks follow it |
| JavaLang.TrimKeepsUnblankEnds | microservice-restclient-api/src/main/java/org/qubership/cloud/restclient/exception/MicroserviceRestClientResponseException.java:60 | a string with non-blank ends trims to itself |
| JavaLang.EqualsIgnoreCaseIffFolded | microservice-restclient-api/src/main/java/org/qubership/cloud/restclient/exception/MicroserviceRestClientResponseException.java:50 | equalsIgnoreCase holds iff the case-folded strings are equal |
| JavaLang.Split | microservice-restclient-api/src/main/java/org/qubership/cloud/restclient/exception/MicroserviceRestClientResponseException.java:56 | no piece contains the separator; without a separator the result is the whole string (so the empty string gives one empty piece); otherwise the last piece is non-empty, and the pieces joined by the separator, plus the dropped trailing separators, give back the input |
| JavaLang.SplitTwo | microservice-restclient-api/src/main/java/org/qubership/cloud/restclient/exception/MicroserviceRestClientResponseException.java:59 | key, separator, non-empty value (both free of the separator) split into exactly key and value |
| Headers.Get | microservice-restclient-api/src/main/java/org/qubership/cloud/restclient/entity/RestClientResponseEntity.java:48 | a missing key gives None; with unique keys, the value list stored under the key |
| Headers.ToMap | microservice-restclient-api/src/main/java/org/qubership/cloud/restclient/entity/RestClientResponseEntity.java:46-48 | the map has exactly the list's keys and each maps to its value list |
| Headers.NameSetSize | microservice-restclient-api/src/main/java/org/qubership/cloud/restclient/entity/RestClientResponseEntity.java:46 | a map with unique keys has as many keys as entries |
| Headers.EntriesMatchIffSameMap | microservice-restclient-api/src/main/java/org/qubership/cloud/restclient/entity/RestClientResponseEntity.java:46-48 | same size plus every entry found under its key holds iff the two maps are equal, whatever the order |
| Headers.IndexIgnoringCase | microservice-restclient-resttemplate/src/main/java/org/qubership/cloud/restclient/resttemplate/MicroserviceRestTemplate.java:71 | the first entry whose name equals the key ignoring case, or None when there is none |
| Headers.FirstIgnoresCase | microservice-restclient-resttemplate/src/main/java/org/qubership/cloud/restclient/resttemplate/MicroserviceRestTemplate.java:71 | getFirst gives the same value for every spelling of a name |
| Headers.FirstAfterSetValue | microservice-restclient-resttemplate/src/main/java/org/qubership/cloud/restclient/resttemplate/MicroserviceRestTemplate.java:71-72 | after set(name, values) with a non-empty list, getFirst of any spelling of the name is the first of those values |
| Headers.SameNameLookup | microservice-restclient-resttemplate/src/main/java/org/qubership/cloud/restclient/resttemplate/MicroserviceRestTemplate.java:67 | names equal ignoring case find the same entry and values |
| Headers.AddValues | microservice-restclient-resttemplate/src/main/java/org/qubership/cloud/restclient/resttemplate/MicroserviceRestTemplate.java:67 | adding values keeps names unique ignoring case and adds an entry only for a new name |
| Headers.AddValuesLookup | microservice-restclient-resttemplate/src/main/java/org/qubership/cloud/restclient/resttemplate/MicroserviceRestTemplate.java:67 | after addAll(name, values) the name holds its old values followed by the new ones; other names are unchanged |
| Headers.MergeAll | microservice-restclient-resttemplate/src/main/java/org/qubership/cloud/restclient/resttemplate/MicroserviceRestTemplate.java:67 | merging keeps names unique ignoring case and adds at most one entry per merged header |
| Headers.MergeAllLookup | microservice-restclient-webclient/src/main/java/org/qubership/cloud/restclient/webclient/MicroserviceWebClient.java:74 | after merging, every name holds its existing values followed by the merged ones, and is present iff it was before or is mentioned |
| Headers.SetValue | microservice-restclient-resttemplate/src/main/java/org/qubership/cloud/restclient/resttemplate/MicroserviceRestTemplate.java:72 | setting a value keeps names unique ignoring case and adds an entry only for a new name |
| Headers.SetValueLookup | microservice-restclient-resttemplate/src/main/java/org/qubership/cloud/restclient/resttemplate/MicroserviceRestTemplate.java:72 | after set, the name holds exactly the new values and every other name is unchanged |
| Headers.WithDefaultContentType | microservice-restclient-resttemplate/src/main/java/org/qubership/cloud/restclient/resttemplate/MicroserviceRestTemplate.java:71-73 | the result has a content type and unique names |
| Headers.Prepared | microservice-restclient-webclient/src/main/java/org/qubership/cloud/restclient/webclient/MicroserviceWebClient.java:72-82 | the outgoing headers have unique names and always a content type |
| Headers.PreparedLookup | microservice-restclient-webclient/src/main/java/org/qubership/cloud/restclient/webclient/MicroserviceWebClient.java:72-81 | non-Content-Type names hold existing then caller values; Content-Type keeps a present value, else becomes application/json alone |
| Headers.HttpHeaders.ContentType | microservice-restclient-resttemplate/src/main/java/org/qubership/cloud/restclient/resttemplate/MicroserviceRestTemplate.java:71 | getContentType is the first Content-Type value when that is non-empty, and null when there is no value or an empty one |
| Headers.HttpHeaders.AddAll | microservice-restclient-resttemplate/src/main/java/org/qubership/cloud/restclient/resttemplate/MicroserviceRestTemplate.java:67 | addAll(name, values) on the object: its entries become AddValues of the old entries |
| Headers.HttpHeaders.AddAllFrom | microservice-restclient-webclient/src/main/java/org/qubership/cloud/restclient/webclient/MicroserviceWebClient.java:74 | addAll of a whole map, entry by entry in a loop: the entries become the merge of the old entries with the map |
| Headers.HttpHeaders.SetContentType | microservice-restclient-resttemplate/src/main/java/org/qubership/cloud/restclient/resttemplate/MicroserviceRestTemplate.java:72 | setContentType replaces every Content-Type value, and getContentType then gives the new media type |
| ClientException.NewClientErrorWithCause | microservice-restclient-api/src/main/java/org/qubership/cloud/restclient/exception/MicroserviceRestClientException.java:11-13 | error code CORE-LIB-MRA-0001 with its title; message and cause kept; the detail is the message |
| ClientException.NewClientError | microservice-restclient-api/src/main/java/org/qubership/cloud/restclient/exception/MicroserviceRestClientException.java:7-9 | the same, with no cause |
| ResponseException.NewResponseErrorWithCause | microservice-restclient-api/src/main/java/org/qubership/cloud/restclient/exception/MicroserviceRestClientResponseException.java:34-43 | a response error with the fixed code, message, cause, and the status, body and headers unchanged |
| ResponseException.NewResponseError | microservice-restclient-api/src/main/java/org/qubership/cloud/restclient/exception/MicroserviceRestClientResponseException.java:24-32 | the same without a cause |
| ResponseException.ContentTypeKey | microservice-restclient-api/src/main/java/org/qubership/cloud/restclient/exception/MicroserviceRestClientResponseException.java:48-51 | the first key equal to content-type ignoring case; None only when no key matches |
| ResponseException.ContentTypeKeyIsFirst | microservice-restclient-api/src/main/java/org/qubership/cloud/restclient/exception/MicroserviceRestClientResponseException.java:48-51 | the key chosen is the first matching one in iteration order |
| ResponseException.ResolveCharset | microservice-restclient-api/src/main/java/org/qubership/cloud/restclient/exception/MicroserviceRestClientResponseException.java:46-52 | without a content-type key in any case the charset is ISO-8859-1 |
| ResponseException.GetResponseCharset | microservice-restclient-api/src/main/java/org/qubership/cloud/restclient/exception/MicroserviceRestClientResponseException.java:45-71 | the loop over the segments, with its early exit on a rejected name, yields the resolved charset |
| ResponseException.ContentTypeEntryDecides | microservice-restclient-api/src/main/java/org/qubership/cloud/restclient/exception/MicroserviceRestClientResponseException.java:52-55 | the first matching entry's first value decides; an empty list or empty first value gives ISO-8859-1 |
| ResponseException.CharsetParameterShape | microservice-restclient-api/src/main/java/org/qubership/cloud/restclient/exception/MicroserviceRestClientResponseException.java:58-60 | a segment names a charset only as key=value (then only '='s), key trimming to charset ignoring case; the name is the trimmed value |
| ResponseException.CharsetParameterOf | microservice-restclient-api/src/main/java/org/qubership/cloud/restclient/exception/MicroserviceRestClientResponseException.java:59-61 | conversely, any such key=value names its trimmed value |
| ResponseException.LastCharsetParameterWins | microservice-restclient-api/src/main/java/org/qubership/cloud/restclient/exception/MicroserviceRestClientResponseException.java:57-62 | with every name supported, the last charset parameter decides, else the charset so far stays |
| ResponseException.RejectedNameEndsScan | microservice-restclient-api/src/main/java/org/qubership/cloud/restclient/exception/MicroserviceRestClientResponseException.java:61-70 | a rejected charset name ends the search with the charset found before it |
| ResponseException.CharsetBeforeMediaTypeExample | microservice-restclient-api/src/main/java/org/qubership/cloud/restclient/exception/MicroserviceRestClientResponseException.java:56-62 | the value charset=UTF-8;xyz resolves to UTF-8 when UTF-8 is supported |
| ResponseException.RenderLayout | microservice-restclient-api/src/main/java/org/qubership/cloud/restclient/exception/MicroserviceRestClientResponseException.java:78-85 | the rendering is the class prefix, the message, the status as decimal text that reads back, then the body filling everything between the body label and the closing '}' |
| ResponseException.ResponseBodyAsString | microservice-restclient-api/src/main/java/org/qubership/cloud/restclient/exception/MicroserviceRestClientResponseException.java:73-76 | with no content-type key the body is decoded as ISO-8859-1 |
| ResponseException.GetResponseBodyAsString | microservice-restclient-api/src/main/java/org/qubership/cloud/restclient/exception/MicroserviceRestClientResponseException.java:73-76 | runs the charset search, then decodes the body with the charset it found |
| ResponseException.ToString | microservice-restclient-api/src/main/java/org/qubership/cloud/restclient/exception/MicroserviceRestClientResponseException.java:78-85 | the message, a status that reads back, and exactly the getResponseBodyAsString text, between the class prefix and '}' |
| ResponseException.ToStringExample | microservice-restclient-api/src/main/java/org/qubership/cloud/restclient/exception/MicroserviceRestClientResponseException.java:79-84 | message test, status 200 and a body decoding to resp render as MicroserviceRestClientResponseException{message=test, httpStatus=200, responseBody=resp} |
| ResponseEntity.NewEntity | microservice-restclient-api/src/main/java/org/qubership/cloud/restclient/entity/RestClientResponseEntity.java:12-16 | the two-argument constructor keeps body and status, with an empty header map |
| ResponseEntity.NewEntityWithHeaders | microservice-restclient-api/src/main/java/org/qubership/cloud/restclient/entity/RestClientResponseEntity.java:18-24 | the three-argument constructor keeps its fields |
| ResponseEntity.Equals | microservice-restclient-api/src/main/java/org/qubership/cloud/restclient/entity/RestClientResponseEntity.java:32-39 | the same object is equal; a non-entity is not; a null body fails against another entity |
| ResponseEntity.EqualsIffSameContents | microservice-restclient-api/src/main/java/org/qubership/cloud/restclient/entity/RestClientResponseEntity.java:43-48 | with a body, equal iff bodies, statuses and header maps (as maps, order ignored) are equal |
| ResponseEntity.EqualsSymmetric | microservice-restclient-api/src/main/java/org/qubership/cloud/restclient/entity/RestClientResponseEntity.java:43-48 | equality between entities with bodies is symmetric |
| ResponseEntity.EqualsTransitive | microservice-restclient-api/src/main/java/org/qubership/cloud/restclient/entity/RestClientResponseEntity.java:43-48 | equality between entities with bodies is transitive |
| ResponseEntity.SameArgumentsEqual | microservice-restclient-api/src/main/java/org/qubership/cloud/restclient/entity/RestClientResponseEntity.java:18-24 | entities built from the same arguments are equal |
| ResponseEntity.MissingHeaderNotEqual | microservice-restclient-api/src/main/java/org/qubership/cloud/restclient/entity/RestClientResponseEntity.java:48 | a header key missing from the other map makes the entities unequal |
| Dispatch.ToEntity | microservice-restclient-resttemplate/src/main/java/org/qubership/cloud/restclient/resttemplate/MicroserviceRestTemplate.java:103-105 | the entity holds exactly the response's body, status and headers |
| Dispatch.MapTransportException | microservice-restclient-resttemplate/src/main/java/org/qubership/cloud/restclient/resttemplate/MicroserviceRestTemplate.java:107-122 | the fixed error code and a cause; a response error exactly for a response-carrying exception |
| Dispatch.ResponseExceptionMapping | microservice-restclient-webclient/src/main/java/org/qubership/cloud/restclient/webclient/MicroserviceWebClient.java:136-152 | status, body and headers are kept; a decodable envelope gives the remote message and cause, else the original message and exception |
| Dispatch.RequestExceptionMapping | microservice-restclient-webclient/src/main/java/org/qubership/cloud/restclient/webclient/MicroserviceWebClient.java:153-155 | any other transport exception gives a plain client error with its message and itself as cause |
| Dispatch.StatusRouting | microservice-restclient-resttemplate/src/main/java/org/qubership/cloud/restclient/resttemplate/MicroserviceRestTemplate.java:53-60 | with the installed predicate, a call returns exactly for 1xx..3xx with the response's data, else throws a response error with that status, body and headers |
| Dispatch.NoTransportExceptionEscapes | microservice-restclient-webclient/src/main/java/org/qubership/cloud/restclient/webclient/MicroserviceWebClient.java:109-133 | a transport exception, raised by the transport or by the status check, becomes exactly the client error the mapping builds from it; any other fault passes through unchanged; a null entity throws the null fault; so no transport exception escapes |
| RestTemplateAdapter.RestTemplate.SetErrorHandler | microservice-restclient-resttemplate/src/main/java/org/qubership/cloud/restclient/resttemplate/MicroserviceRestTemplate.java:53 | installs the status predicate on the template |
| RestTemplateAdapter.MicroserviceRestTemplate.constructor | microservice-restclient-resttemplate/src/main/java/org/qubership/cloud/restclient/resttemplate/MicroserviceRestTemplate.java:51-61 | keeps the template, installs the status predicate on it and starts with the default mapper and converter |
| RestTemplateAdapter.MicroserviceRestTemplate.SetMapper | microservice-restclient-resttemplate/src/main/java/org/qubership/cloud/restclient/resttemplate/MicroserviceRestTemplate.java:41-43 | replaces the mapper only |
| RestTemplateAdapter.MicroserviceRestTemplate.SetConverter | microservice-restclient-resttemplate/src/main/java/org/qubership/cloud/restclient/resttemplate/MicroserviceRestTemplate.java:44-46 | replaces the converter only |
| RestTemplateAdapter.MicroserviceRestTemplate.SetHttpHeaders | microservice-restclient-resttemplate/src/main/java/org/qubership/cloud/restclient/resttemplate/MicroserviceRestTemplate.java:64-75 | a fresh header object holding the prepared headers for the caller's map |
| RestTemplateAdapter.MicroserviceRestTemplate.DoRequest | microservice-restclient-resttemplate/src/main/java/org/qubership/cloud/restclient/resttemplate/MicroserviceRestTemplate.java:90-123 | the result is the mapped outcome of exchanging the request with the prepared headers under the template's predicate |
| RestTemplateAdapter.MicroserviceRestTemplate.DoRequestTemplate | microservice-restclient-resttemplate/src/main/java/org/qubership/cloud/restclient/resttemplate/MicroserviceRestTemplate.java:77-88 | the same as the URI form on the expanded template |
| RestTemplateAdapter.OutgoingHeaders | microservice-restclient-resttemplate/src/main/java/org/qubership/cloud/restclient/resttemplate/MicroserviceRestTemplate.java:64-73 | the request holds every caller header and a content type, the caller's when non-empty, else application/json |
| WebClientAdapter.MicroserviceWebClient.constructor | microservice-restclient-webclient/src/main/java/org/qubership/cloud/restclient/webclient/MicroserviceWebClient.java:40-52 | starts with the stub retry policy and the default mapper and converter |
| WebClientAdapter.MicroserviceWebClient.WithRetry | microservice-restclient-webclient/src/main/java/org/qubership/cloud/restclient/webclient/MicroserviceWebClient.java:67-70 | replaces the retry policy and returns the same client |
| WebClientAdapter.MicroserviceWebClient.SetMapper | microservice-restclient-webclient/src/main/java/org/qubership/cloud/restclient/webclient/MicroserviceWebClient.java:42-45 | replaces the mapper only |
| WebClientAdapter.MicroserviceWebClient.SetConverter | microservice-restclient-webclient/src/main/java/org/qubership/cloud/restclient/webclient/MicroserviceWebClient.java:46-48 | replaces the converter only |
| WebClientAdapter.MicroserviceWebClient.SetHttpHeaders | microservice-restclient-webclient/src/main/java/org/qubership/cloud/restclient/webclient/MicroserviceWebClient.java:72-82 | the request's own header object becomes the prepared headers over its old entries |
| WebClientAdapter.MicroserviceWebClient.DoRequestInternal | microservice-restclient-webclient/src/main/java/org/qubership/cloud/restclient/webclient/MicroserviceWebClient.java:105-134 | a supplier fault is mapped with the headers untouched; otherwise the headers are prepared in place and the result is the mapped outcome of the transport run with the status predicate inside it (before the retry policy) and the current retry policy |
| WebClientAdapter.MicroserviceWebClient.DoRequest | microservice-restclient-webclient/src/main/java/org/qubership/cloud/restclient/webclient/MicroserviceWebClient.java:95-103 | the internal call with the URI |
| WebClientAdapter.MicroserviceWebClient.DoRequestTemplate | microservice-restclient-webclient/src/main/java/org/qubership/cloud/restclient/webclient/MicroserviceWebClient.java:84-93 | the internal call with the expanded template |
| WebClientAdapter.NullResponseRaisesClientError | microservice-restclient-webclient/src/main/java/org/qubership/cloud/restclient/webclient/MicroserviceWebClient.java:125-127 | a null entity throws the client error "Null HTTP response" with no cause |
| WebClientAdapter.ExistingHeadersKept | microservice-restclient-webclient/src/main/java/org/qubership/cloud/restclient/webclient/MicroserviceWebClient.java:72-77 | headers already on the request keep their values, in front of the caller's |

## Left out

- Network I/O, connection pools and the transports' internals are left out. `exchange` and `retrieve`/`toEntity`/`block` are a function parameter from the request to an outcome.
- Reactor retry, backoff and blocking are left out. The retry policy is an opaque value that is only stored and handed to the transport function; the stub `Retry.backoff(0, ZERO)` that filters out every error is a constructor argument. The retry-exhausted exception is any `OtherFault` the transport raises. The status predicate runs inside the transport, before the retry policy: a retrying policy may retry a rejected status, and once it gives up the call ends in its own retry-exhausted exception, an `OtherFault` that passes through unmapped. Which statuses are retried, and how often, is up to the transport function and is not modelled.
- Jackson deserialisation and the TMF converter are partial function parameters (`Mapper`, `Converter`). Their internals are not part of this model.
- `Charset.forName` alias tables and byte decoding are function parameters (`CharsetLookup`, `Decoder`).
- URI template expansion and `URI.create` are a function parameter `expand`. Expansion failures are not modelled.
- `HttpMethod` conversion (`valueOf` on the name) is the identity on the shared enumeration.
- `hashCode`, the logging calls, the factories, the client interface and its abstract base class are not modelled.
- The other adapter constructors are not modelled. Building a WebClient from a builder or an HTTP client is library plumbing.
- The Lombok setter of the entity's header field has no caller in the core and is not modelled.
- Null header maps inside an entity or an exception, null value lists and null elements are not modelled. A null caller map is modelled (`None`).
- `InvalidMediaTypeException` is not modelled. `getContentType` can throw it for a malformed Content-Type. The model only checks that the first value is non-empty.
- WebClient's default headers are not modelled. Spring combines them with the request's headers after `setHttpHeaders` runs. `DoRequestInternal` starts from whatever the request's header object holds.
- JavaLang.EqualsIgnoreCase: maps case for ASCII letters and a few non-ASCII letters (U+0130, U+0131, U+017F, U+212A) only. Other Unicode case mappings are not modelled.
- Headers.SameName: compares header names by upper-casing then lower-casing each character, with case mappings only for ASCII letters and for U+0130, U+0131, U+017F and U+212A. Spring's case-insensitive map compares keys lower-cased under the English locale. The two agree on ASCII names, which is what HTTP field names are. They differ for other non-ASCII letters (É and é are two names here but one key in Spring), and for ı, ſ and İ against i, s and i (one name here, two keys in Spring).
- ResponseEntity.Equals: looks up the other entity's headers by exact key. A case-insensitive map on the argument side (an `HttpHeaders`) is not modelled.
- ResponseEntity.Equals: compares bodies with Dafny equality. A body type's own `equals` is not modelled.
- ResponseException.ContentTypeEntryDecides: fixes the map's iteration order as the list order. For a hash map that order is unspecified, so the choice among case variants of content-type is only "some matching key".
