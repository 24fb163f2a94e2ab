/**
 * MicroserviceRestClientResponseException: its constructors, the best-effort
 * charset resolution from the response's Content-Type header, and the text
 * renderings built on it.
 *
 * Charset resolution reads the charset parameter of a media type (section
 * 8.3.2 of RFC 9110) in a simplified way: the first value of the first header
 * named content-type (ignoring case) is split on ';', every non-empty segment
 * (the media type itself included) is split on '=', and a segment of exactly
 * two pieces whose trimmed key is "charset" (ignoring case) sets the charset
 * to the trimmed value, quotes and all. Any exception along the way ends the
 * search with the charset found so far; the default is ISO-8859-1.
 */
module ResponseException {
  import opened Wrappers
  import opened JavaLang
  import opened Headers
  import opened Tmf
  import opened Transport
  import opened ClientException

  datatype Charset = Charset(name: string)

  const ISO_8859_1: Charset := Charset("ISO-8859-1")

  /** Charset.forName; None: the name is illegal or unsupported (it threw). */
  type CharsetLookup = string -> Option<Charset>

  /** new String(bytes, charset) */
  type Decoder = (Charset, seq<Byte>) -> string

  // ------------------------------------------------------------ constructors

  /** new MicroserviceRestClientResponseException(msg, cause, httpStatus, responseBody, responseHeaders) */
  function NewResponseErrorWithCause(msg: Option<string>, cause: Option<Cause>, httpStatus: Int32,
                                     responseBody: seq<Byte>, responseHeaders: HeaderMap): (e: RestClientError)
    ensures e.ResponseError? && e.errorCode == REST_CALL_ERROR
    ensures e.Detail() == msg && e.cause == cause
    ensures e.httpStatus == httpStatus && e.responseBody == responseBody && e.responseHeaders == responseHeaders
  {
    ResponseError(REST_CALL_ERROR, msg, cause, httpStatus, responseBody, responseHeaders)
  }

  /** new MicroserviceRestClientResponseException(msg, httpStatus, responseBody, responseHeaders): no cause. */
  function NewResponseError(msg: Option<string>, httpStatus: Int32,
                            responseBody: seq<Byte>, responseHeaders: HeaderMap): (e: RestClientError)
    ensures e.ResponseError? && e.errorCode == REST_CALL_ERROR
    ensures e.Detail() == msg && e.cause.None?
    ensures e.httpStatus == httpStatus && e.responseBody == responseBody && e.responseHeaders == responseHeaders
  {
    NewResponseErrorWithCause(msg, None, httpStatus, responseBody, responseHeaders)
  }

  // -------------------------------------------------------- charset resolution

  /** The first key, in iteration order, equal to "content-type" ignoring case. */
  function ContentTypeKey(h: HeaderList): (r: Option<nat>)
    ensures r.Some? ==> r.value < |h| && EqualsIgnoreCase(h[r.value].name, "content-type")
    ensures r.None? ==> forall j :: 0 <= j < |h| ==> !EqualsIgnoreCase(h[j].name, "content-type")
  {
    if |h| == 0 then None
    else if EqualsIgnoreCase(h[0].name, "content-type") then Some(0)
    else match ContentTypeKey(h[1..])
      case None => None
      case Some(i) => Some(i + 1)
  }

  /** The key found is the first content-type key, whichever others follow it. */
  lemma {:induction false} ContentTypeKeyIsFirst(h: HeaderList, i: nat)
    requires i < |h| && EqualsIgnoreCase(h[i].name, "content-type")
    requires forall j :: 0 <= j < i ==> !EqualsIgnoreCase(h[j].name, "content-type")
    ensures ContentTypeKey(h) == Some(i)
  {
    if i > 0 {
      assert h[1..][i - 1] == h[i];
      assert forall j :: 0 <= j < i - 1 ==> h[1..][j] == h[j + 1];
      ContentTypeKeyIsFirst(h[1..], i - 1);
    }
  }

  /** The charset name one ';'-segment names, if it is a charset parameter. */
  function CharsetParameter(parameter: string): Option<string> {
    if parameter == [] then None
    else
      var split := Split(parameter, '=');
      if |split| == 2 && EqualsIgnoreCase(Trim(split[0]), "charset") then Some(Trim(split[1]))
      else None
  }

  /**
   * A segment names a charset only in the form key=value followed by nothing
   * but '=' characters: neither key nor value contains '=', the value is not
   * empty, and the trimmed key is "charset" ignoring case.
   */
  lemma CharsetParameterShape(parameter: string)
    requires CharsetParameter(parameter).Some?
    ensures var split := Split(parameter, '=');
      var n := |split[0]| + 1 + |split[1]|;
      && |split| == 2 && '=' !in split[0] && '=' !in split[1] && split[1] != []
      && n <= |parameter| && parameter[..n] == split[0] + "=" + split[1]
      && (forall i :: n <= i < |parameter| ==> parameter[i] == '=')
      && EqualsIgnoreCase(Trim(split[0]), "charset")
      && CharsetParameter(parameter) == Some(Trim(split[1]))
  {
    var split := Split(parameter, '=');
    assert Join(split, '=') == Join(split[..1], '=') + ['='] + split[1];
  }

  /** Conversely, key=value with a key trimming to "charset" names the trimmed value. */
  lemma CharsetParameterOf(key: string, value: string)
    requires '=' !in key && '=' !in value && value != []
    requires EqualsIgnoreCase(Trim(key), "charset")
    ensures CharsetParameter(key + "=" + value) == Some(Trim(value))
  {
    SplitTwo(key, value, '=');
  }

  /**
   * The loop over the ';'-segments: a charset parameter replaces the charset
   * so far; a name Charset.forName rejects ends the loop (the exception is
   * caught outside it) with the charset so far.
   */
  function ScanParameters(ps: seq<string>, acc: Charset, forName: CharsetLookup): Charset
    decreases |ps|
  {
    if |ps| == 0 then acc
    else match CharsetParameter(ps[0])
      case None => ScanParameters(ps[1..], acc, forName)
      case Some(name) =>
        match forName(name)
        case None => acc
        case Some(cs) => ScanParameters(ps[1..], cs, forName)
  }

  /** The charset the first value of the content-type entry selects. */
  function CharsetFromValues(values: seq<string>, forName: CharsetLookup): Charset {
    if |values| == 0 then ISO_8859_1        // get(0) threw
    else if values[0] == [] then ISO_8859_1
    else ScanParameters(Split(values[0], ';'), ISO_8859_1, forName)
  }

  /** getResponseCharset, as a function of the response headers; no content-type key means ISO-8859-1. */
  function ResolveCharset(h: HeaderList, forName: CharsetLookup): (r: Charset)
    ensures (forall j :: 0 <= j < |h| ==> !EqualsIgnoreCase(h[j].name, "content-type")) ==> r == ISO_8859_1
  {
    match ContentTypeKey(h)
    case None => ISO_8859_1
    case Some(i) => CharsetFromValues(h[i].values, forName)
  }

  /** getResponseCharset: the search loop, leaving early when Charset.forName throws. */
  method GetResponseCharset(e: RestClientError, forName: CharsetLookup) returns (charset: Charset)
    requires e.ResponseError?
    ensures charset == ResolveCharset(e.responseHeaders, forName)
  {
    charset := ISO_8859_1;
    var headers := e.responseHeaders;
    var mediaTypeKey := ContentTypeKey(headers);
    if mediaTypeKey.Some? {
      var mediaTypes := headers[mediaTypeKey.value].values;
      if |mediaTypes| == 0 {
        return;    // mediaTypes.get(0) threw
      }
      var mediaType := mediaTypes[0];
      if mediaType != [] {
        var parameters := Split(mediaType, ';');
        var i := 0;
        while i < |parameters|
          invariant 0 <= i <= |parameters|
          invariant ScanParameters(parameters, ISO_8859_1, forName) == ScanParameters(parameters[i..], charset, forName)
        {
          assert parameters[i..][1..] == parameters[i + 1..];
          var parameter := parameters[i];
          if parameter != [] {
            var split := Split(parameter, '=');
            if |split| == 2 && EqualsIgnoreCase(Trim(split[0]), "charset") {
              var found := forName(Trim(split[1]));
              if found.None? {
                return;    // Charset.forName threw
              }
              charset := found.value;
            }
          }
          i := i + 1;
        }
      }
    }
  }

  /**
   * With several keys equal to content-type ignoring case, the first in the
   * map's iteration order decides; its first value decides, an empty list or
   * an empty first value giving ISO-8859-1.
   */
  lemma ContentTypeEntryDecides(h: HeaderList, forName: CharsetLookup, i: nat)
    requires i < |h| && EqualsIgnoreCase(h[i].name, "content-type")
    requires forall j :: 0 <= j < i ==> !EqualsIgnoreCase(h[j].name, "content-type")
    ensures ResolveCharset(h, forName) == CharsetFromValues(h[i].values, forName)
    ensures |h[i].values| == 0 || h[i].values[0] == [] ==> ResolveCharset(h, forName) == ISO_8859_1
  {
    ContentTypeKeyIsFirst(h, i);
  }

  /** The name of the last charset parameter among the segments. */
  function LastCharsetName(ps: seq<string>): Option<string> {
    if |ps| == 0 then None
    else match LastCharsetName(ps[1..])
      case Some(n) => Some(n)
      case None => CharsetParameter(ps[0])
  }

  /** When every named charset is supported, the last charset parameter wins. */
  lemma {:induction false} LastCharsetParameterWins(ps: seq<string>, acc: Charset, forName: CharsetLookup)
    requires forall i :: 0 <= i < |ps| && CharsetParameter(ps[i]).Some? ==> forName(CharsetParameter(ps[i]).value).Some?
    ensures LastCharsetName(ps).None? ==> ScanParameters(ps, acc, forName) == acc
    ensures LastCharsetName(ps).Some? ==> forName(LastCharsetName(ps).value) == Some(ScanParameters(ps, acc, forName))
  {
    if |ps| > 0 {
      assert forall i :: 1 <= i < |ps| ==> ps[1..][i - 1] == ps[i];
      match CharsetParameter(ps[0])
      case None =>
        LastCharsetParameterWins(ps[1..], acc, forName);
      case Some(name) =>
        assert forName(name).Some? by { assert CharsetParameter(ps[0]).Some?; }
        LastCharsetParameterWins(ps[1..], forName(name).value, forName);
    }
  }

  /** Once a charset name is rejected, the segments after it are never looked at. */
  lemma {:induction false} RejectedNameEndsScan(ps: seq<string>, j: nat, acc: Charset, forName: CharsetLookup)
    requires j < |ps| && CharsetParameter(ps[j]).Some? && forName(CharsetParameter(ps[j]).value).None?
    ensures ScanParameters(ps, acc, forName) == ScanParameters(ps[..j], acc, forName)
  {
    if j > 0 {
      assert ps[1..][j - 1] == ps[j];
      assert ps[..j][1..] == ps[1..][..j - 1];
      match CharsetParameter(ps[0])
      case None =>
        RejectedNameEndsScan(ps[1..], j - 1, acc, forName);
      case Some(name) =>
        if forName(name).Some? {
          RejectedNameEndsScan(ps[1..], j - 1, forName(name).value, forName);
        }
    }
  }

  // ------------------------------------------------------------ renderings

  /** getResponseBodyAsString: the stored bytes decoded with the resolved charset. */
  function ResponseBodyAsString(e: RestClientError, forName: CharsetLookup, decode: Decoder): (s: string)
    requires e.ResponseError?
    ensures ContentTypeKey(e.responseHeaders).None? ==> s == decode(ISO_8859_1, e.responseBody)
  {
    decode(ResolveCharset(e.responseHeaders, forName), e.responseBody)
  }

  /** getResponseBodyAsString as the source runs it: the charset search first, then the decoding. */
  method GetResponseBodyAsString(e: RestClientError, forName: CharsetLookup, decode: Decoder) returns (s: string)
    requires e.ResponseError?
    ensures s == ResponseBodyAsString(e, forName, decode)
  {
    var responseCharset := GetResponseCharset(e, forName);
    s := decode(responseCharset, e.responseBody);
  }

  /** String concatenation renders a null string as "null". */
  function StringValueOf(s: Option<string>): string {
    match s
    case None => "null"
    case Some(v) => v
  }

  const TO_STRING_PREFIX: string := "MicroserviceRestClientResponseException{message="

  /** The text toString builds from the detail, the status and the decoded body. */
  function Render(detail: Option<string>, httpStatus: Int32, body: string): string {
    TO_STRING_PREFIX + StringValueOf(detail) +
    ", httpStatus=" + IntToString(httpStatus) +
    ", responseBody=" + body + "}"
  }

  /**
   * The layout of toString's text: the class prefix, the message ("null" for
   * none), the status label, the status as decimal text that reads back as
   * the status, the body label, then the body filling everything up to the
   * closing '}'.
   */
  predicate LaidOut(r: string, detail: Option<string>, httpStatus: Int32, body: string) {
    var text := StringValueOf(detail);
    var at := |TO_STRING_PREFIX| + |text| + |", httpStatus="|;
    var digits := IntToString(httpStatus);
    && |r| == at + |digits| + |", responseBody="| + |body| + 1
    && r[..|TO_STRING_PREFIX|] == TO_STRING_PREFIX
    && r[|TO_STRING_PREFIX|..|TO_STRING_PREFIX| + |text|] == text
    && r[|TO_STRING_PREFIX| + |text|..at] == ", httpStatus="
    && ParseInt(r[at..at + |digits|]) == Some(httpStatus as int)
    && r[at + |digits|..at + |digits| + |", responseBody="|] == ", responseBody="
    && r[at + |digits| + |", responseBody="|..|r| - 1] == body
    && r[|r| - 1] == '}'
  }

  /** toString: laid out around the body as getResponseBodyAsString gives it. */
  function ToString(e: RestClientError, forName: CharsetLookup, decode: Decoder): (r: string)
    requires e.ResponseError?
    ensures LaidOut(r, e.Detail(), e.httpStatus, ResponseBodyAsString(e, forName, decode))
  {
    var body := ResponseBodyAsString(e, forName, decode);
    RenderLayout(e.Detail(), e.httpStatus, body);
    Render(e.Detail(), e.httpStatus, body)
  }

  /** Every rendering has the fixed layout. */
  lemma RenderLayout(detail: Option<string>, httpStatus: Int32, body: string)
    ensures LaidOut(Render(detail, httpStatus, body), detail, httpStatus, body)
  {
    var text := StringValueOf(detail);
    var digits := IntToString(httpStatus);
    FieldsLayout(TO_STRING_PREFIX, text, ", httpStatus=", digits, ", responseBody=", body);
    IntToStringRoundTrip(httpStatus);
  }

  /** Where each of six concatenated parts, followed by '}', lies in the result. */
  lemma FieldsLayout(p: string, d: string, hs: string, g: string, rb: string, b: string)
    ensures var r := p + d + hs + g + rb + b + "}";
      var at := |p| + |d| + |hs|;
      && r[..|p|] == p
      && r[|p|..|p| + |d|] == d
      && r[|p| + |d|..at] == hs
      && r[at..at + |g|] == g
      && r[at + |g|..at + |g| + |rb|] == rb
      && r[at + |g| + |rb|..|r| - 1] == b
      && r[|r| - 1] == '}'
  {
    var r := p + d + hs + g + rb + b + "}";
    var tail := rb + b + "}";
    var at := |p| + |d| + |hs|;
    assert r == p + d + hs + g + tail;
    assert r[..|p|] == p by { SliceOfConcat([], p, d + hs + g + tail); }
    assert r[|p|..|p| + |d|] == d by { SliceOfConcat(p, d, hs + g + tail); }
    assert r[|p| + |d|..at] == hs by { SliceOfConcat(p + d, hs, g + tail); }
    assert r[at..at + |g|] == g by { SliceOfConcat(p + d + hs, g, tail); }
    assert r[at + |g|..at + |g| + |rb|] == rb by { SliceOfConcat(p + d + hs + g, rb, b + "}"); }
    assert r[at + |g| + |rb|..|r| - 1] == b by { SliceOfConcat(p + d + hs + g + rb, b, "}"); }
  }

  lemma SliceOfConcat(a: string, b: string, c: string)
    ensures (a + b + c)[|a|..|a| + |b|] == b
    ensures a + (b + c) == a + b + c
  {
  }

  /** Split of the example value at ';'. */
  lemma ExampleSegments()
    ensures Split("charset=UTF-8;xyz", ';') == ["charset=UTF-8", "xyz"]
  {
    var a, b := "charset=UTF-8", "xyz";
    assert a + [';'] + b == "charset=UTF-8;xyz";
    SplitTwo(a, b, ';');
  }

  /** The example's first segment names UTF-8. */
  lemma ExampleCharsetParameter()
    ensures CharsetParameter("charset=UTF-8") == Some("UTF-8")
  {
    var key, value := "charset", "UTF-8";
    assert key + "=" + value == "charset=UTF-8";
    ExampleTrims();
    CharsetParameterOf(key, value);
  }

  lemma ExampleTrims()
    ensures Trim("charset") == "charset" && EqualsIgnoreCase(Trim("charset"), "charset")
    ensures Trim("UTF-8") == "UTF-8"
  {
    TrimKeepsUnblankEnds("charset");
    TrimKeepsUnblankEnds("UTF-8");
  }

  /** The example's second segment names nothing. */
  lemma ExampleOtherParameter()
    ensures CharsetParameter("xyz") == None
  {
    assert Split("xyz", '=') == ["xyz"];
  }

  /**
   * A response whose Content-Type value is "charset=UTF-8;xyz" is read as
   * UTF-8 when the runtime knows it: a charset parameter is honoured wherever
   * it stands among the segments.
   */
  lemma CharsetBeforeMediaTypeExample(forName: CharsetLookup)
    ensures ResolveCharset([Header("Content-Type", ["charset=UTF-8;xyz"])], forName) ==
      match forName("UTF-8")
      case None => ISO_8859_1
      case Some(cs) => cs
  {
    var h := [Header("Content-Type", ["charset=UTF-8;xyz"])];
    assert EqualsIgnoreCase("Content-Type", "content-type");
    assert ContentTypeKey(h) == Some(0);
    ExampleSegments();
    ExampleCharsetParameter();
    ExampleOtherParameter();
    var ps := ["charset=UTF-8", "xyz"];
    assert ps[1..] == ["xyz"];
  }

  lemma StatusDigitsExample()
    ensures IntToString(200) == "200"
  {
    assert NatDigits(2) == "2";
    assert NatDigits(20) == "20";
  }

  /**
   * The rendering of a status-200 error with message "test" whose body
   * decodes, under the UTF-8 charset its Content-Type names, to "resp".
   */
  lemma ToStringExample(forName: CharsetLookup, decode: Decoder, body: seq<Byte>, utf8: Charset)
    requires forName("UTF-8") == Some(utf8) && decode(utf8, body) == "resp"
    ensures ToString(NewResponseError(Some("test"), 200, body, [Header("Content-Type", ["charset=UTF-8;xyz"])]), forName, decode)
      == "MicroserviceRestClientResponseException{message=" + "test" + ", httpStatus=" + "200" + ", responseBody=" + "resp" + "}"
  {
    var h: HeaderMap := [Header("Content-Type", ["charset=UTF-8;xyz"])];
    var e := NewResponseError(Some("test"), 200, body, h);
    CharsetBeforeMediaTypeExample(forName);
    assert ResponseBodyAsString(e, forName, decode) == "resp";
    StatusDigitsExample();
  }
}
