/**
 * whois: builds the lookup request for one domain and turns the decoded
 * JSON reply of the lookup service into a response body or an error.
 * The HTTP round trip with its JSON decoding, and the validation inside
 * `http.NewRequest`, are functions passed in by the caller.
 */
module Whois {
  import opened Wrappers
  import Durations

  const PublicAPI: string := "https://dms.inet.vn/api/public/whois/v1/whois/directly"
  const MethodPost: string := "POST"
  const DefaultTimeout: int := 30 * Durations.Second

  const BodyPrefix: string := "{\"domainName\": \""
  const BodySuffix: string := "\"}"
  const ExpirationPrefix: string := "Expiration Date: "

  /** The reply of the lookup service, after JSON decoding. */
  datatype DomainResponse = DomainResponse(code: string, domainName: string, message: string, expirationDate: string)

  /** What `Fetch` hands back: the synthesized registry text. */
  datatype Response = Response(body: string)

  /**
   * An outgoing request; `verb` is its HTTP method. `timeout` is the deadline of the request's context,
   * counted from the moment it is sent; `None` is a context without deadline.
   */
  datatype Request = Request(verb: string, url: string, header: map<string, seq<string>>, body: string, timeout: Option<int>)

  /** Which `*http.Client` performs the round trip. */
  datatype HttpClient = DefaultHttpClient | CustomHttpClient(id: nat)

  /** `whois.Client`: an optional HTTP client (nil in Go) and a timeout. */
  datatype Client = Client(httpClient: Option<HttpClient>, timeout: int)

  datatype Error =
    | RequestError(reason: string)   // reported by http.NewRequest
    | TransportError(reason: string) // reported by the HTTP round trip
    | DecodeError(reason: string)    // reported by the JSON decoder
    | DomainNotFound(domainName: string)

  datatype Result<T> = Ok(value: T) | Err(error: Error)

  /** Outcome of `hc.Do(req)` followed by decoding the reply body as JSON. */
  datatype Exchange = TransportFailed(reason: string) | DecodeFailed(reason: string) | Decoded(response: DomainResponse)

  /** The HTTP round trip plus JSON decoding, performed by the given client. */
  type RoundTrip = (HttpClient, Request) -> Exchange

  /** The error `http.NewRequest` reports for a method and URL, if any. */
  type RequestCheck = (string, string) -> Option<string>

  /** `NewClient`: no HTTP client of its own, the given timeout. */
  function NewClient(timeout: int): (c: Client)
    ensures c.httpClient == None && c.timeout == timeout
  {
    Client(None, timeout)
  }

  /** The package-wide client used by the domain probe. */
  const DefaultClient: Client := NewClient(DefaultTimeout)

  /**
   * The JSON request body, built by plain formatting: the domain is placed
   * between the quotes as it is, without escaping.
   */
  function RequestBody(domain: string): (body: string)
    ensures |body| == |BodyPrefix| + |domain| + |BodySuffix|
    ensures body[..|BodyPrefix|] == BodyPrefix
    ensures body[|BodyPrefix|..|BodyPrefix| + |domain|] == domain
    ensures body[|BodyPrefix| + |domain|..] == BodySuffix
  {
    BodyPrefix + domain + BodySuffix
  }

  /** Reads the domain back out of a request body. */
  function DomainOfBody(body: string): string
    requires |body| >= |BodyPrefix| + |BodySuffix|
  {
    body[|BodyPrefix|..|body| - |BodySuffix|]
  }

  /** The domain can be read back from the body, so distinct domains give distinct bodies. */
  lemma RequestBodyRoundTrip(domain: string)
    ensures |RequestBody(domain)| >= |BodyPrefix| + |BodySuffix|
    ensures DomainOfBody(RequestBody(domain)) == domain
  {
    var body := RequestBody(domain);
    assert body[|BodyPrefix|..|body| - |BodySuffix|] == domain;
  }

  /**
   * `NewRequest`: a POST to the fixed lookup endpoint with the JSON body and
   * a `Content-Type: application/json` header; when `http.NewRequest` fails,
   * its error is returned and no request.
   */
  function NewRequest(domain: string, check: RequestCheck): (r: Result<Request>)
    ensures check(MethodPost, PublicAPI).Some? ==> r == Err(RequestError(check(MethodPost, PublicAPI).value))
    ensures check(MethodPost, PublicAPI).None? ==>
      && r.Ok?
      && r.value.verb == MethodPost
      && r.value.url == PublicAPI
      && r.value.body == RequestBody(domain)
      && r.value.header == map["Content-Type" := ["application/json"]]
      && r.value.timeout == None
  {
    match check(MethodPost, PublicAPI)
    case Some(e) => Err(RequestError(e))
    case None =>
      var req := Request(MethodPost, PublicAPI, map[], RequestBody(domain), None);
      Ok(req.(header := req.header["Content-Type" := ["application/json"]]))
  }

  /**
   * The request as `Fetch` sends it: its context is replaced by a fresh one,
   * which carries the client's timeout only when that timeout is positive.
   */
  function WithClientDeadline(c: Client, req: Request): (sent: Request)
    ensures sent.timeout.Some? <==> c.timeout > 0
    ensures sent.timeout.Some? ==> sent.timeout.value == c.timeout
    ensures sent.(timeout := req.timeout) == req
  {
    req.(timeout := if c.timeout > 0 then Some(c.timeout) else None)
  }

  /** The HTTP client that performs the round trip: the default one when none is set. */
  function ClientOf(c: Client): (hc: HttpClient)
    ensures c.httpClient == None ==> hc == DefaultHttpClient
    ensures c.httpClient != None ==> hc == c.httpClient.value
  {
    c.httpClient.GetOr(DefaultHttpClient)
  }

  /** The registry-style line `fetchHTTP` synthesizes from the expiration date. */
  function ExpirationLine(expirationDate: string): (line: string)
    ensures |line| == |ExpirationPrefix| + |expirationDate|
    ensures line[..|ExpirationPrefix|] == ExpirationPrefix
    ensures line[|ExpirationPrefix|..] == expirationDate
  {
    ExpirationPrefix + expirationDate
  }

  /**
   * `fetchHTTP`: transport and decoding errors are passed on; a reply with
   * code "1" is the not-found error naming the reply's domain; any other
   * reply, whatever its date field holds, becomes the body
   * "Expiration Date: <date>".
   */
  function FetchHTTP(c: Client, req: Request, roundTrip: RoundTrip): (r: Result<Response>)
    ensures var x := roundTrip(ClientOf(c), req);
      && (x.TransportFailed? ==> r == Err(TransportError(x.reason)))
      && (x.DecodeFailed? ==> r == Err(DecodeError(x.reason)))
      && (x.Decoded? && x.response.code == "1" ==> r == Err(DomainNotFound(x.response.domainName)))
      && (r.Ok? <==> x.Decoded? && x.response.code != "1")
      && (r.Ok? ==> r.value.body == ExpirationLine(x.response.expirationDate))
  {
    match roundTrip(ClientOf(c), req)
    case TransportFailed(e) => Err(TransportError(e))
    case DecodeFailed(e) => Err(DecodeError(e))
    case Decoded(res) =>
      if res.code == "1" then Err(DomainNotFound(res.domainName))
      else Ok(Response(ExpirationLine(res.expirationDate)))
  }

  /**
   * `Fetch`: whatever deadline the request carried is replaced by the
   * client's timeout when that is positive and by no deadline otherwise,
   * and the request is then fetched as `fetchHTTP` does.
   */
  function Fetch(c: Client, req: Request, roundTrip: RoundTrip): (r: Result<Response>)
    ensures c.timeout > 0 ==> r == FetchHTTP(c, req.(timeout := Some(c.timeout)), roundTrip)
    ensures c.timeout <= 0 ==> r == FetchHTTP(c, req.(timeout := None), roundTrip)
  {
    FetchHTTP(c, WithClientDeadline(c, req), roundTrip)
  }

  /** The expiration date can be read back from a successful response body. */
  lemma FetchBodyCarriesDate(c: Client, req: Request, roundTrip: RoundTrip)
    requires Fetch(c, req, roundTrip).Ok?
    ensures var x := roundTrip(ClientOf(c), WithClientDeadline(c, req));
      x.Decoded? && Fetch(c, req, roundTrip).value.body[|ExpirationPrefix|..] == x.response.expirationDate
  {
  }

  /**
   * The default client sends every request with a 30-second deadline,
   * whatever deadline the request carried, through Go's default HTTP client.
   */
  lemma DefaultClientDeadline(req: Request)
    ensures WithClientDeadline(DefaultClient, req).timeout == Some(30 * Durations.Second)
    ensures ClientOf(DefaultClient) == DefaultHttpClient
  {
  }
}
