/** The library's error taxonomy (src/errors.rs): two kinds, how each
    displays, and how the two foreign error types are wrapped. */
module Errors {
  import opened Json

  /** The library's error. `NotLoggedIn` is never produced by the code
      in this model; it is representable all the same. */
  datatype Error = NotLoggedIn | HTTPError(detail: string)

  /** A reqwest::Error, seen through its Display text: a failed send or a
      response body that did not decode. */
  datatype TransportError = TransportError(message: string)

  /** The http crate's InvalidHeaderValue, seen through its Display text. */
  datatype InvalidHeaderValue = InvalidHeaderValue(message: string)

  /** Result<T, Error>, the return type of every fallible operation. */
  datatype Result<T> = Ok(value: T) | Err(error: Error)

  const NOT_LOGGED_IN_TEXT: string := "Not logged in"
  const HTTP_ERROR_PREFIX: string := "HTTP request to Intercom failed "

  /** `impl Display for Error`. An HTTPError displays as the fixed prefix
      followed by its detail, so the detail can be read back. */
  function Display(e: Error): (s: string)
    ensures e.NotLoggedIn? ==> s == NOT_LOGGED_IN_TEXT
    ensures e.HTTPError? ==>
      |HTTP_ERROR_PREFIX| <= |s| && s[..|HTTP_ERROR_PREFIX|] == HTTP_ERROR_PREFIX &&
      s[|HTTP_ERROR_PREFIX|..] == e.detail
  {
    match e
    case NotLoggedIn => NOT_LOGGED_IN_TEXT
    case HTTPError(resp) => HTTP_ERROR_PREFIX + resp
  }

  /** Reads an error back from its display text; the inverse of Display. */
  function ParseDisplay(s: string): (r: Option<Error>)
    ensures r.Some? ==> Display(r.value) == s
  {
    if s == NOT_LOGGED_IN_TEXT then Some(NotLoggedIn)
    else if |HTTP_ERROR_PREFIX| <= |s| && s[..|HTTP_ERROR_PREFIX|] == HTTP_ERROR_PREFIX
    then Some(HTTPError(s[|HTTP_ERROR_PREFIX|..]))
    else None
  }

  /** Display loses nothing: the two kinds never display alike, and the
      detail of an HTTPError is recovered verbatim. */
  lemma DisplayRoundTrip(e: Error)
    ensures ParseDisplay(Display(e)) == Some(e)
  {
    if e.HTTPError? {
      var s := Display(e);
      assert |s| >= |HTTP_ERROR_PREFIX| > |NOT_LOGGED_IN_TEXT|;
    }
  }

  lemma DisplayInjective(e1: Error, e2: Error)
    requires Display(e1) == Display(e2)
    ensures e1 == e2
  {
    DisplayRoundTrip(e1);
    DisplayRoundTrip(e2);
  }

  /** `impl From<reqwest::Error> for Error`: the message is kept unchanged. */
  function FromTransport(e: TransportError): (r: Error)
    ensures r.HTTPError? && r.detail == e.message
    ensures Display(r) == HTTP_ERROR_PREFIX + e.message
  {
    HTTPError(e.message)
  }

  /** `impl From<InvalidHeaderValue> for Error`: the message is kept unchanged. */
  function FromInvalidHeaderValue(e: InvalidHeaderValue): (r: Error)
    ensures r.HTTPError? && r.detail == e.message
    ensures Display(r) == HTTP_ERROR_PREFIX + e.message
  {
    HTTPError(e.message)
  }
}
