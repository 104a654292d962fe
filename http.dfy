/**
 * The part of the HTTP client library the code relies on, reduced to
 * values: a parsed URL with its query pairs (kept unencoded), a reply, the
 * error a failed step produces, `error_for_status`, and the two header
 * operations the client calls. Sending itself is a parameter (`Transport`).
 */
module Http {
  import opened Wrappers
  import opened Numbers
  import opened Json

  /** A `reqwest::Error`, reduced to the stage that produced it. */
  datatype HttpFailure =
    | Builder(detail: string)  // the request could not be built, e.g. its URL did not parse
    | Request(detail: string)  // sending failed below HTTP: connection, TLS, timeout
    | Status(code: int)        // `error_for_status` on a client or server error reply
    | Decode                   // the body is not JSON of the expected shape

  datatype Url = Url(scheme: string, host: string, path: string, query: seq<(string, string)>)

  datatype Header = Header(name: string, value: string, sensitive: bool)

  /** A configured client: its user agent and the headers sent with every request. */
  datatype HttpClient = HttpClient(userAgent: string, defaultHeaders: seq<Header>)

  /** A reply: status, header values as bytes (names lower-case), and the body if it is JSON at all. */
  datatype Response = Response(status: int, headers: seq<(string, seq<u8>)>, body: Option<Json>)

  /** One GET through the network: its outcome, whatever it is, is given from outside. */
  type Transport = (HttpClient, Url) -> Result<Response, HttpFailure>

  /** A 4xx or 5xx status: the only ones `error_for_status` turns into an error. */
  predicate IsErrorStatus(code: int): (b: bool)
    ensures b <==> code / 100 == 4 || code / 100 == 5
  {
    400 <= code < 600
  }

  /**
   * `client.get(url).send().await?.error_for_status()?`: a deferred URL error
   * comes first, then a transport failure, then an error status.
   */
  function GetChecked(client: HttpClient, url: Result<Url, HttpFailure>, send: Transport): (r: Result<Response, HttpFailure>)
    ensures url.Err? ==> r == Err(url.error)
    ensures url.Ok? && send(client, url.value).Err? ==> r == send(client, url.value)
    ensures url.Ok? && send(client, url.value).Ok? && IsErrorStatus(send(client, url.value).value.status) ==>
      r == Err(Status(send(client, url.value).value.status))
    ensures r.Ok? <==>
      url.Ok? && send(client, url.value).Ok? && !IsErrorStatus(send(client, url.value).value.status)
    ensures r.Ok? ==> r == send(client, url.value)
  {
    match url
    case Err(e) => Err(e)
    case Ok(u) =>
      match send(client, u)
      case Err(e) => Err(e)
      case Ok(resp) => if IsErrorStatus(resp.status) then Err(Status(resp.status)) else Ok(resp)
  }

  /** `HeaderMap::get`: the first value stored under `name`. */
  function HeaderGet(headers: seq<(string, seq<u8>)>, name: string): (r: Option<seq<u8>>)
    ensures r.Some? ==> (name, r.value) in headers
    ensures r.Some? ==>
      exists i :: 0 <= i < |headers| && headers[i] == (name, r.value) && forall j :: 0 <= j < i ==> headers[j].0 != name
    ensures r.None? ==> forall i :: 0 <= i < |headers| ==> headers[i].0 != name
  {
    if headers == [] then None
    else if headers[0].0 == name then Some(headers[0].1)
    else HeaderGet(headers[1..], name)
  }

  /** A byte `HeaderValue::to_str` accepts: visible ASCII or a tab. */
  predicate IsVisibleAscii(b: u8) {
    (32 <= b < 127) || b == 9
  }

  /** `HeaderValue::to_str`: the value as text when every byte is visible ASCII. */
  function HeaderToStr(v: seq<u8>): (r: Option<string>)
    ensures r.Some? <==> forall i :: 0 <= i < |v| ==> IsVisibleAscii(v[i])
    ensures r.Some? ==> |r.value| == |v| && forall i :: 0 <= i < |v| ==> r.value[i] as int == v[i] as int
  {
    if forall i :: 0 <= i < |v| ==> IsVisibleAscii(v[i])
    then Some(seq(|v|, i requires 0 <= i < |v| => v[i] as int as char))
    else None
  }

  /** The bytes of an ASCII string. */
  function AsciiBytes(s: string): (r: seq<u8>)
    requires forall i :: 0 <= i < |s| ==> s[i] as int < 0x80
    ensures |r| == |s| && forall i :: 0 <= i < |s| ==> r[i] as int == s[i] as int
  {
    seq(|s|, i requires 0 <= i < |s| => s[i] as int as u8)
  }
}
