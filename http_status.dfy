/**
 * Status classification. Both adapters treat a status as an error when
 * Spring's HttpStatus.Series.resolve gives no series or gives the client- or
 * server-error series. resolve looks up the series whose value is the status
 * divided by 100 (Java division, rounding toward zero); series exist for 1..5
 * only, the status classes of section 15 of RFC 9110.
 */
module HttpStatus {
  import opened Wrappers
  import opened JavaLang

  datatype Series = Informational | Successful | Redirection | ClientError | ServerError

  function SeriesValue(s: Series): (v: int)
    ensures 1 <= v <= 5
  {
    match s
    case Informational => 1
    case Successful => 2
    case Redirection => 3
    case ClientError => 4
    case ServerError => 5
  }

  /** Series.resolve(statusCode): the series with value statusCode / 100, or None (null). */
  function Resolve(status: Int32): (r: Option<Series>)
    ensures r.Some? <==> 1 <= Quotient(status, 100) <= 5
    ensures r.Some? ==> SeriesValue(r.value) == Quotient(status, 100)
  {
    var code := Quotient(status, 100);
    if code == 1 then Some(Informational)
    else if code == 2 then Some(Successful)
    else if code == 3 then Some(Redirection)
    else if code == 4 then Some(ClientError)
    else if code == 5 then Some(ServerError)
    else None
  }

  /** The error predicate both adapters install (error handler / onRawStatus). */
  predicate HasError(status: Int32) {
    var series := Resolve(status);
    series.None? || series == Some(ClientError) || series == Some(ServerError)
  }

  /**
   * A status is an error exactly when status / 100 is not 1, 2 or 3, that is,
   * exactly when it lies outside 100..399: 4xx, 5xx, every unknown code
   * (999, 600, 42, negative values) are errors; 1xx, 2xx and 3xx are not.
   */
  lemma HasErrorIff(status: Int32)
    ensures HasError(status) <==> Quotient(status, 100) !in {1, 2, 3}
    ensures HasError(status) <==> !(100 <= status <= 399)
  {
    var q := Quotient(status, 100);
    if 100 <= status <= 399 {
      assert 1 <= q <= 3;
    } else if status >= 0 {
      assert q == 0 || q >= 4;
    }
  }

  lemma HasErrorExamples()
    ensures HasError(999) && HasError(404) && HasError(500) && HasError(-200)
    ensures !HasError(200) && !HasError(101) && !HasError(302) && !HasError(399)
  {
    HasErrorIff(999);
    HasErrorIff(404);
    HasErrorIff(500);
    HasErrorIff(-200);
    HasErrorIff(200);
    HasErrorIff(101);
    HasErrorIff(302);
    HasErrorIff(399);
  }
}
