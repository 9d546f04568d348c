/** The transport client (src/client.rs): its fixed configuration, the URL
    a call goes to, and the two headers every request carries. Sending is
    outside the model: `Get` and `Post` yield the request they would send,
    and what the server answers is handed to the callers as a `Reply`. */
module ClientApi {
  import opened Json
  import opened Errors

  /** The client's configuration; nothing in it changes after `New`. */
  datatype Client = Client(accessToken: string, endpoint: string, version: string)

  /** A request as it leaves the client: URL, headers, and either the query
      parameters (GET) or the JSON body (POST). */
  datatype Request =
    | GetRequest(url: string, headers: map<string, string>, query: map<string, string>)
    | PostRequest(url: string, headers: map<string, string>, body: Value)

  /** What one round trip yields: the decoded body, or the reqwest error of
      a failed send or of a body that did not decode. */
  datatype Reply<T> = Received(body: T) | Failed(cause: TransportError)

  const ENDPOINT: string := "https://api.intercom.io/"
  const VERSION: string := "2.10"

  const AUTHORIZATION: string := "Authorization"
  const INTERCOM_VERSION: string := "Intercom-Version"

  /** The Bearer scheme of section 2.1 of RFC 6750: the word, one space. */
  const BEARER_PREFIX: string := "Bearer "

  /** The error a rejected header value produces. Its text is the http
      crate's, which is not part of this model. */
  const REJECTED_HEADER_VALUE: InvalidHeaderValue := InvalidHeaderValue("failed to parse header value")

  /** The error of a header value that does not parse: the `?` on each
      `parse()` converts it into an HTTPError. */
  function HeaderError(): (e: Error)
    ensures e.HTTPError? && e.detail == REJECTED_HEADER_VALUE.message
  {
    FromInvalidHeaderValue(REJECTED_HEADER_VALUE)
  }

  /** `Client::new`: keeps the token as given and fixes endpoint and version. */
  function New(accessToken: string): (c: Client)
    ensures c.accessToken == accessToken
    ensures c.endpoint == "https://api.intercom.io/" && c.version == "2.10"
  {
    Client(accessToken, ENDPOINT, VERSION)
  }

  /** `format!("{}/{}", endpoint, path)`. */
  function Url(c: Client, path: string): (u: string)
    ensures |u| == |c.endpoint| + 1 + |path|
  {
    c.endpoint + "/" + path
  }

  /** The URL is the endpoint, one slash, then the path; both parts can be
      read back from it. */
  lemma UrlParts(c: Client, path: string)
    ensures |Url(c, path)| == |c.endpoint| + 1 + |path|
    ensures Url(c, path)[..|c.endpoint|] == c.endpoint && Url(c, path)[|c.endpoint|] == '/'
    ensures Url(c, path)[|c.endpoint| + 1..] == path
  {
  }

  /** The endpoint already ends in a slash, so the join doubles it. */
  lemma ContactsUrl(token: string)
    ensures Url(New(token), "contacts") == "https://api.intercom.io//contacts"
  {
  }

  /** The Authorization value for a token. */
  function BearerValue(token: string): string
  {
    BEARER_PREFIX + token
  }

  /** Reads the token back from an Authorization value in the Bearer scheme. */
  function BearerToken(value: string): (r: Option<string>)
    ensures r.Some? ==> BearerValue(r.value) == value
  {
    if |BEARER_PREFIX| <= |value| && value[..|BEARER_PREFIX|] == BEARER_PREFIX
    then Some(value[|BEARER_PREFIX|..])
    else None
  }

  lemma BearerRoundTrip(token: string)
    ensures BearerToken(BearerValue(token)) == Some(token)
  {
    assert BearerValue(token)[..|BEARER_PREFIX|] == BEARER_PREFIX;
  }

  /** Whether both header values pass the header-value parse `accepts`
      (the field-value rule of section 5.5 of RFC 9110, as the http crate
      applies it; the crate is not part of this model). */
  predicate HeadersAccepted(c: Client, accepts: string -> bool)
  {
    accepts(BearerValue(c.accessToken)) && accepts(c.version)
  }

  /** The header map of a successful `create_header`. */
  function Headers(c: Client): map<string, string>
  {
    map[AUTHORIZATION := BearerValue(c.accessToken), INTERCOM_VERSION := c.version]
  }

  /** Exactly two headers: the token in the Bearer scheme, and the version. */
  lemma HeadersShape(c: Client)
    ensures Headers(c).Keys == {"Authorization", "Intercom-Version"} && |Headers(c)| == 2
    ensures BearerToken(Headers(c)["Authorization"]) == Some(c.accessToken)
    ensures Headers(c)["Intercom-Version"] == c.version
  {
    BearerRoundTrip(c.accessToken);
  }

  /** `create_header`: inserts Authorization, then Intercom-Version, each
      after parsing its value; the first value that does not parse ends the
      call with an HTTPError and nothing after it is inserted. */
  method CreateHeader(c: Client, accepts: string -> bool) returns (r: Result<map<string, string>>)
    ensures r.Ok? <==> HeadersAccepted(c, accepts)
    ensures r.Ok? ==> r.value == Headers(c)
    ensures r.Err? ==> r.error == HeaderError()
  {
    var headers: map<string, string> := map[];
    var authorization := BearerValue(c.accessToken);
    if !accepts(authorization) {
      return Err(HeaderError());
    }
    headers := headers[AUTHORIZATION := authorization];
    if !accepts(c.version) {
      return Err(HeaderError());
    }
    headers := headers[INTERCOM_VERSION := c.version];
    r := Ok(headers);
  }

  /** A parse that, as section 5.5 of RFC 9110 demands, refuses any value
      holding a line feed makes a token with a line feed fail the headers. */
  lemma LineFeedTokenRejected(token: string, accepts: string -> bool)
    requires forall s :: '\n' in s ==> !accepts(s)
    requires '\n' in token
    ensures !HeadersAccepted(New(token), accepts)
  {
    var v := BearerValue(token);
    var i :| 0 <= i < |token| && token[i] == '\n';
    assert v[|BEARER_PREFIX| + i] == '\n';
  }

  /** `get`: the headers are built first, so a header failure means no
      request; otherwise the GET request to `Url(c, path)` with `query`. */
  method Get(c: Client, accepts: string -> bool, path: string, query: map<string, string>) returns (r: Result<Request>)
    ensures r.Ok? <==> HeadersAccepted(c, accepts)
    ensures r.Ok? ==> r.value == GetRequest(Url(c, path), Headers(c), query)
    ensures r.Err? ==> r.error == HeaderError()
  {
    var headers := CreateHeader(c, accepts);
    if headers.Err? {
      return Err(headers.error);
    }
    r := Ok(GetRequest(Url(c, path), headers.value, query));
  }

  /** `post`: as `Get`, with a JSON body instead of query parameters. */
  method Post(c: Client, accepts: string -> bool, path: string, body: Value) returns (r: Result<Request>)
    ensures r.Ok? <==> HeadersAccepted(c, accepts)
    ensures r.Ok? ==> r.value == PostRequest(Url(c, path), Headers(c), body)
    ensures r.Err? ==> r.error == HeaderError()
  {
    var headers := CreateHeader(c, accepts);
    if headers.Err? {
      return Err(headers.error);
    }
    r := Ok(PostRequest(Url(c, path), headers.value, body));
  }
}
