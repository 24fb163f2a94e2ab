/**
 * RestClientResponseEntity: the body, status and headers a successful call
 * returns, and the equality it defines over them.
 */
module ResponseEntity {
  import opened Wrappers
  import opened JavaLang
  import opened Headers

  /**
   * The entity. A body of None is a null body; the headers are a map with
   * exactly-unique keys, listed in its iteration order.
   */
  datatype RestClientResponseEntity<T> = RestClientResponseEntity(responseBody: Option<T>, httpStatus: Int32, headers: HeaderMap)

  /** The two-argument constructor: the headers start as an empty map. */
  function NewEntity<T>(responseBody: Option<T>, httpStatus: Int32): (r: RestClientResponseEntity<T>)
    ensures r.responseBody == responseBody && r.httpStatus == httpStatus
    ensures ToMap(r.headers) == map[]
  {
    RestClientResponseEntity(responseBody, httpStatus, [])
  }

  /** The three-argument constructor. */
  function NewEntityWithHeaders<T>(responseBody: Option<T>, httpStatus: Int32, headers: HeaderMap): (r: RestClientResponseEntity<T>)
    ensures r.responseBody == responseBody && r.httpStatus == httpStatus
    ensures ToMap(r.headers) == ToMap(headers)
  {
    RestClientResponseEntity(responseBody, httpStatus, headers)
  }

  /** The argument of equals, as far as equals can tell it apart. */
  datatype Other<T> =
    | SameObject                              // o == this
    | Entity(entity: RestClientResponseEntity<T>)
    | NotAnEntity                             // null or any other class

  /**
   * equals: the same object is equal; anything that is not an entity is not;
   * against another entity, None stands for the NullPointerException a null
   * body of this entity raises, and otherwise bodies, statuses, map sizes and
   * every entry of this map found under its key in the other map decide.
   */
  function Equals<T(==)>(self: RestClientResponseEntity<T>, o: Other<T>): (r: Option<bool>)
    ensures o.SameObject? ==> r == Some(true)
    ensures o.NotAnEntity? ==> r == Some(false)
    ensures o.Entity? ==> (r.None? <==> self.responseBody.None?)
  {
    match o
    case SameObject => Some(true)
    case NotAnEntity => Some(false)
    case Entity(other) =>
      if self.responseBody.None? then None
      else if !(other.responseBody == self.responseBody && self.httpStatus == other.httpStatus) then Some(false)
      else if |self.headers| != |other.headers| then Some(false)
      else Some(forall i :: 0 <= i < |self.headers| ==>
                  Get(other.headers, self.headers[i].name) == Some(self.headers[i].values))
  }

  /**
   * Against another entity, and with a body, equals holds exactly when the
   * bodies, the statuses and the header maps (as maps) are equal.
   */
  lemma EqualsIffSameContents<T>(self: RestClientResponseEntity<T>, other: RestClientResponseEntity<T>)
    requires self.responseBody.Some?
    ensures Equals(self, Entity(other)) == Some(
      self.responseBody == other.responseBody && self.httpStatus == other.httpStatus &&
      ToMap(self.headers) == ToMap(other.headers))
  {
    EntriesMatchIffSameMap(self.headers, other.headers);
    if ToMap(self.headers) == ToMap(other.headers) {
      assert |self.headers| == |other.headers|;
    }
  }

  /** Between entities with bodies, equals is symmetric. */
  lemma EqualsSymmetric<T>(a: RestClientResponseEntity<T>, b: RestClientResponseEntity<T>)
    requires a.responseBody.Some? && b.responseBody.Some?
    ensures Equals(a, Entity(b)) == Equals(b, Entity(a))
  {
    EqualsIffSameContents(a, b);
    EqualsIffSameContents(b, a);
  }

  /** Between entities with bodies, equals is transitive. */
  lemma EqualsTransitive<T>(a: RestClientResponseEntity<T>, b: RestClientResponseEntity<T>, c: RestClientResponseEntity<T>)
    requires a.responseBody.Some? && b.responseBody.Some?
    requires Equals(a, Entity(b)) == Some(true) && Equals(b, Entity(c)) == Some(true)
    ensures Equals(a, Entity(c)) == Some(true)
  {
    EqualsIffSameContents(a, b);
    EqualsIffSameContents(b, c);
    EqualsIffSameContents(a, c);
  }

  /** Two entities built from the same body, status and header map are equal. */
  lemma SameArgumentsEqual<T>(body: T, status: Int32, headers: HeaderMap)
    ensures Equals(NewEntityWithHeaders(Some(body), status, headers),
                   Entity(NewEntityWithHeaders(Some(body), status, headers))) == Some(true)
  {
    EqualsIffSameContents(NewEntityWithHeaders(Some(body), status, headers),
                          NewEntityWithHeaders(Some(body), status, headers));
  }

  /** An entity differs from one whose header map lacks one of its headers. */
  lemma MissingHeaderNotEqual<T>(self: RestClientResponseEntity<T>, other: RestClientResponseEntity<T>, i: nat)
    requires self.responseBody.Some? && i < |self.headers|
    requires Get(other.headers, self.headers[i].name).None?
    ensures Equals(self, Entity(other)) == Some(false)
  {
    EqualsIffSameContents(self, other);
    assert self.headers[i].name in ToMap(self.headers);
  }
}
