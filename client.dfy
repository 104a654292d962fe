/**
 * `src/lib.rs`: the client surface. Building the client (session cookie,
 * referer, user agent), the target URL of every endpoint, the ranking query
 * string, and reading the logged-in user's id from a reply header. URL
 * parsing (`IntoUrl`) and the network are parameters; every accessor then
 * runs the same enveloped GET as a pending request does.
 */
module Client {
  import opened Wrappers
  import opened Numbers
  import opened Text
  import opened Json
  import opened Http
  import opened Errors
  import Types
  import Futures

  const BASE_URL_HTTPS: string := "https://www.pixiv.net"
  const USER_AGENT: string :=
    "Mozilla/5.0 (Windows NT 10.0; Win64; x64) AppleWebKit/537.36 (KHTML, like Gecko) Chrome/114.0.0.0 Safari/537.36"
  const COOKIE_PREFIX: string := "PHPSESSID="
  const COOKIE_INVALID: string := "Cookies data seems to be invaild"

  /** `IntoUrl` applied to a formatted target; its failure is deferred to sending. */
  type UrlParser = string -> Result<Url, HttpFailure>

  /** `PixivClient`: the configured HTTP client and the CSRF token read at construction. */
  datatype PixivClient = PixivClient(client: HttpClient, csrfToken: string)

  /** The client configuration `new` produces for a session token. */
  function Configured(token: string): (c: HttpClient)
    ensures c.userAgent == USER_AGENT
    ensures |c.defaultHeaders| == 2
    ensures c.defaultHeaders[0] == Header("cookie", COOKIE_PREFIX + token, true)
    ensures c.defaultHeaders[1] == Header("referer", BASE_URL_HTTPS, false)
  {
    HttpClient(USER_AGENT, [Header("cookie", COOKIE_PREFIX + token, true), Header("referer", BASE_URL_HTTPS, false)])
  }

  /**
   * `PixivClient::new`. `headerValid` stands for `HeaderValue::from_str`
   * succeeding, `build` for the outcome of `Client::builder().build()`, and
   * `homePage` for fetching the home page's text with the built client; the
   * CSRF token is then read from that text.
   */
  method New(token: string, headerValid: string -> bool, build: Option<HttpFailure>,
             homePage: HttpClient -> Result<string, HttpFailure>)
    returns (r: Result<PixivClient, Error>)
    ensures !headerValid(COOKIE_PREFIX + token) ==> r == Err(Other(COOKIE_INVALID))
    ensures headerValid(COOKIE_PREFIX + token) && build.Some? ==> r == Err(HttpError(build.value))
    ensures headerValid(COOKIE_PREFIX + token) && build.None? && homePage(Configured(token)).Err? ==>
      r == Err(HttpError(homePage(Configured(token)).error))
    ensures headerValid(COOKIE_PREFIX + token) && build.None? && homePage(Configured(token)).Ok? ==>
      r == match CsrfTokenAsWritten(homePage(Configured(token)).value)
           case Err(e) => Err(e)
           case Ok(t) => Ok(PixivClient(Configured(token), t))
  {
    var cookie := COOKIE_PREFIX + token;
    var headers: seq<Header> := [];
    if !headerValid(cookie) {
      return Err(Other(COOKIE_INVALID));
    }
    // the cookie is marked sensitive before it is appended
    headers := headers + [Header("cookie", cookie, true)];
    headers := headers + [Header("referer", BASE_URL_HTTPS, false)];
    var client := HttpClient(USER_AGENT, headers);
    assert client == Configured(token);
    if build.Some? {
      return Err(HttpError(build.value));
    }
    var page := homePage(client);
    if page.Err? {
      return Err(HttpError(page.error));
    }
    var csrf := CsrfTokenAsWritten(page.value);
    if csrf.Err? {
      return Err(csrf.error);
    }
    r := Ok(PixivClient(client, csrf.value));
  }

  // ---------------------------------------------------------------- csrf_token

  /** The literal text `token":"` that precedes the token in the home page. */
  const TOKEN_MARK: string := "token\":\""
  const NO_CSRF_TOKEN: string := "No CSRF Token Found"

  /** The pattern starts at `i`: the mark, then at least one character that is not a quote. */
  predicate TokenAt(page: string, i: nat) {
    i + |TOKEN_MARK| < |page| && page[i..i + |TOKEN_MARK|] == TOKEN_MARK && page[i + |TOKEN_MARK|] != '"'
  }

  /** The leftmost start of the pattern at or after `from`, as a regex search finds it. */
  function FindToken(page: string, from: nat): (r: Option<nat>)
    decreases |page| - from
    ensures r.Some? ==> from <= r.value && TokenAt(page, r.value)
    ensures r.Some? ==> forall i :: from <= i < r.value ==> !TokenAt(page, i)
    ensures r.None? ==> forall i :: from <= i ==> !TokenAt(page, i)
  {
    if from + |TOKEN_MARK| >= |page| then None
    else if TokenAt(page, from) then Some(from)
    else FindToken(page, from + 1)
  }

  predicate NotQuote(c: char) {
    c != '"'
  }

  /** The token as the code reads it: the pattern's group is one character, `([^"])`. */
  function CsrfTokenAsWritten(page: string): (r: Result<string, Error>)
    ensures r.Err? <==> forall i :: 0 <= i ==> !TokenAt(page, i)
    ensures r.Err? ==> r.error == Other(NO_CSRF_TOKEN)
    ensures r.Ok? ==>
      exists i: nat :: TokenAt(page, i) && (forall j: nat :: j < i ==> !TokenAt(page, j)) &&
        r.value == [page[i + |TOKEN_MARK|]]
  {
    match FindToken(page, 0)
    case None => Err(Other(NO_CSRF_TOKEN))
    case Some(i) => Ok([page[i + |TOKEN_MARK|]])
  }

  /** `t` is the run of non-quote characters at `k`, ended by a quote or by the end of the page. */
  predicate QuotedRunAt(page: string, k: nat, t: string) {
    k + |t| <= |page| && page[k..k + |t|] == t &&
    (forall c :: 0 <= c < |t| ==> t[c] != '"') &&
    (k + |t| == |page| || page[k + |t|] == '"')
  }

  /** The token as intended, `([^"]+)`: every character up to the closing quote. */
  function CsrfToken(page: string): (r: Result<string, Error>)
    ensures r.Err? <==> forall i :: 0 <= i ==> !TokenAt(page, i)
    ensures r.Err? ==> r.error == Other(NO_CSRF_TOKEN)
    ensures r.Ok? ==>
      |r.value| >= 1 &&
      exists i: nat :: TokenAt(page, i) && (forall j: nat :: j < i ==> !TokenAt(page, j)) &&
        QuotedRunAt(page, i + |TOKEN_MARK|, r.value)
  {
    match FindToken(page, 0)
    case None => Err(Other(NO_CSRF_TOKEN))
    case Some(i) =>
      var k := i + |TOKEN_MARK|;
      var t := TakeWhile(page[k..], NotQuote);
      assert page[k..k + |t|] == t;
      assert QuotedRunAt(page, k, t);
      Ok(t)
  }

  /** The code as written yields the first character of the intended token, and fails on the same pages. */
  lemma CsrfTokenAsWrittenIsFirstChar(page: string)
    ensures CsrfTokenAsWritten(page).Err? <==> CsrfToken(page).Err?
    ensures CsrfToken(page).Ok? ==> CsrfTokenAsWritten(page) == Ok([CsrfToken(page).value[0]])
  {
    match FindToken(page, 0)
    case None =>
    case Some(i) =>
      var k := i + |TOKEN_MARK|;
      assert page[k..][0] == page[k];
  }

  /**
   * The first quoted token on a page is read whole: `prefix` holds no
   * match of the pattern, and the token is followed by its closing quote.
   */
  lemma CsrfTokenReadsWholeToken(prefix: string, t: string, rest: string)
    requires |t| >= 1 && forall k :: 0 <= k < |t| ==> t[k] != '"'
    requires forall j :: 0 <= j < |prefix| ==> !TokenAt(prefix + TOKEN_MARK + t + "\"" + rest, j)
    ensures CsrfToken(prefix + TOKEN_MARK + t + "\"" + rest) == Ok(t)
  {
    var page := prefix + TOKEN_MARK + t + "\"" + rest;
    var n := |prefix|;
    assert page == prefix + (TOKEN_MARK + (t + ("\"" + rest)));
    assert page[n..n + |TOKEN_MARK|] == TOKEN_MARK;
    assert page[n + |TOKEN_MARK|] == t[0];
    assert TokenAt(page, n);
    assert FindToken(page, 0) == Some(n);
    assert page[n + |TOKEN_MARK|..] == t + ("\"" + rest);
    TakeWhileConcat(t, "\"" + rest, NotQuote);
  }

  /** The code as written keeps only the first character of a longer token. */
  lemma CsrfTokenAsWrittenTruncates()
    ensures CsrfTokenAsWritten(TOKEN_MARK + "ab\"") == Ok("a")
    ensures CsrfToken(TOKEN_MARK + "ab\"") == Ok("ab")
  {
    var page := TOKEN_MARK + "ab\"";
    assert page[..|TOKEN_MARK|] == TOKEN_MARK;
    assert TokenAt(page, 0);
    CsrfTokenReadsWholeToken("", "ab", "");
    assert "" + TOKEN_MARK + "ab" + "\"" + "" == page;
  }

  /** The session stays recoverable from the cookie header `new` installs. */
  lemma CookieCarriesToken(token: string)
    ensures Configured(token).defaultHeaders[0].value[|COOKIE_PREFIX|..] == token
    ensures COOKIE_PREFIX <= Configured(token).defaultHeaders[0].value
  {
  }

  // ---------------------------------------------------------------- self_user_id

  /** `headers.get("x-userid").and_then(to_str().ok()).and_then(i32::from_str().ok())`. */
  function ParseUserIdHeader(v: Option<seq<u8>>): (r: Option<i32>)
    ensures r.Some? <==> v.Some? && HeaderToStr(v.value).Some? && ParseI32(HeaderToStr(v.value).value).Some?
    ensures r.Some? ==> r == ParseI32(HeaderToStr(v.value).value)
  {
    match v
    case None => None
    case Some(bytes) =>
      match HeaderToStr(bytes)
      case None => None
      case Some(text) => ParseI32(text)
  }

  /** A header holding the decimal text of an id reads back as that id. */
  lemma UserIdHeaderRoundTrip(n: i32)
    ensures forall i :: 0 <= i < |I32ToDecimal(n)| ==> I32ToDecimal(n)[i] as int < 0x80
    ensures ParseUserIdHeader(Some(AsciiBytes(I32ToDecimal(n)))) == Some(n)
  {
    var s := I32ToDecimal(n);
    assert forall i :: 0 <= i < |s| ==> IsDigit(s[i]) || s[i] == '-';
    var bytes := AsciiBytes(s);
    assert forall i :: 0 <= i < |bytes| ==> IsVisibleAscii(bytes[i]);
    assert HeaderToStr(bytes).value == s;
    ParseI32RoundTrip(n);
  }

  /**
   * `self_user_id`: a failed GET of the home page is the error; otherwise the
   * header never makes it fail: a missing, non-text or non-numeric
   * `x-userid` is `Ok(None)`.
   */
  function SelfUserId(pc: PixivClient, parse: UrlParser, send: Transport): (r: Result<Option<i32>, Error>)
    ensures GetChecked(pc.client, parse(BASE_URL_HTTPS), send).Err? ==>
      r == Err(HttpError(GetChecked(pc.client, parse(BASE_URL_HTTPS), send).error))
    ensures GetChecked(pc.client, parse(BASE_URL_HTTPS), send).Ok? ==>
      r == Ok(ParseUserIdHeader(HeaderGet(GetChecked(pc.client, parse(BASE_URL_HTTPS), send).value.headers, "x-userid")))
  {
    match GetChecked(pc.client, parse(BASE_URL_HTTPS), send)
    case Err(e) => Err(HttpError(e))
    case Ok(resp) => Ok(ParseUserIdHeader(HeaderGet(resp.headers, "x-userid")))
  }

  // ---------------------------------------------------------------- endpoints

  /** The enveloped endpoints and the id each is formatted with. */
  datatype Endpoint =
    | UserInfo(userId: i32)
    | UserTopWorks(userId: i32)
    | UserAllWorks(userId: i32)
    | IllustInfo(illustId: i32)
    | IllustPages(illustId: i32)

  /** The `format!` target of each accessor. */
  function EndpointUrl(e: Endpoint): (s: string)
    ensures AJAX_PREFIX <= s
  {
    match e
    case UserInfo(id) => BASE_URL_HTTPS + "/ajax/user/" + I32ToDecimal(id) + "?full=1"
    case UserTopWorks(id) => BASE_URL_HTTPS + "/ajax/user/" + I32ToDecimal(id) + "/profile/top"
    case UserAllWorks(id) => BASE_URL_HTTPS + "/ajax/user/" + I32ToDecimal(id) + "/profile/all"
    case IllustInfo(id) => BASE_URL_HTTPS + "/ajax/illust/" + I32ToDecimal(id)
    case IllustPages(id) => BASE_URL_HTTPS + "/ajax/illust/" + I32ToDecimal(id) + "/pages"
  }

  /** `_common_get`: the enveloped GET of a formatted target. */
  function CommonGet<T>(pc: PixivClient, target: string, parse: UrlParser, send: Transport, dec: Json -> Option<T>): (r: Result<T, Error>)
    requires Futures.ReplyUnwrappable(GetChecked(pc.client, parse(target), send), dec)
    ensures parse(target).Err? ==> r == Err(HttpError(parse(target).error))
    ensures parse(target).Ok? && send(pc.client, parse(target).value).Err? ==>
      r == Err(HttpError(send(pc.client, parse(target).value).error))
    ensures (parse(target).Ok? && send(pc.client, parse(target).value).Ok? &&
             IsErrorStatus(send(pc.client, parse(target).value).value.status)) ==>
      r == Err(HttpError(Status(send(pc.client, parse(target).value).value.status)))
    ensures (parse(target).Ok? && send(pc.client, parse(target).value).Ok? &&
             !IsErrorStatus(send(pc.client, parse(target).value).value.status)) ==>
      match send(pc.client, parse(target).value).value.body
      case None => r == Err(HttpError(Decode))
      case Some(b) =>
        match Types.DecodeEnvelope(b, dec)
        case None => r == Err(HttpError(Decode))
        case Some(w) => r == Types.IntoResult(w)
  {
    Futures.Deliver(pc.client, parse(target), send, dec)
  }

  /**
   * `user_info`, `user_top_works`, `user_all_works`, `illust_info`,
   * `illust_pages`: the enveloped GET of the endpoint's own target.
   */
  function Fetch<T>(pc: PixivClient, e: Endpoint, parse: UrlParser, send: Transport, dec: Json -> Option<T>): (r: Result<T, Error>)
    requires Futures.ReplyUnwrappable(GetChecked(pc.client, parse(EndpointUrl(e)), send), dec)
    ensures parse(EndpointUrl(e)).Err? ==> r == Err(HttpError(parse(EndpointUrl(e)).error))
    ensures parse(EndpointUrl(e)).Ok? && send(pc.client, parse(EndpointUrl(e)).value).Err? ==>
      r == Err(HttpError(send(pc.client, parse(EndpointUrl(e)).value).error))
    ensures (parse(EndpointUrl(e)).Ok? && send(pc.client, parse(EndpointUrl(e)).value).Ok? &&
             IsErrorStatus(send(pc.client, parse(EndpointUrl(e)).value).value.status)) ==>
      r == Err(HttpError(Status(send(pc.client, parse(EndpointUrl(e)).value).value.status)))
    ensures (parse(EndpointUrl(e)).Ok? && send(pc.client, parse(EndpointUrl(e)).value).Ok? &&
             !IsErrorStatus(send(pc.client, parse(EndpointUrl(e)).value).value.status)) ==>
      match send(pc.client, parse(EndpointUrl(e)).value).value.body
      case None => r == Err(HttpError(Decode))
      case Some(b) =>
        match Types.DecodeEnvelope(b, dec)
        case None => r == Err(HttpError(Decode))
        case Some(w) => r == Types.IntoResult(w)
  {
    CommonGet(pc, EndpointUrl(e), parse, send, dec)
  }

  const AJAX_PREFIX: string := BASE_URL_HTTPS + "/ajax/"

  predicate IsIdChar(c: char) {
    IsDigit(c) || c == '-'
  }

  /** A leading id (sign and digits) and what follows it. */
  function ParseIdAndSuffix(s: string): Option<(i32, string)> {
    var id := TakeWhile(s, IsIdChar);
    match ParseI32(id)
    case None => None
    case Some(n) => Some((n, s[|id|..]))
  }

  function UserEndpoint(n: i32, suffix: string): Option<Endpoint> {
    if suffix == "?full=1" then Some(UserInfo(n))
    else if suffix == "/profile/top" then Some(UserTopWorks(n))
    else if suffix == "/profile/all" then Some(UserAllWorks(n))
    else None
  }

  function IllustEndpoint(n: i32, suffix: string): Option<Endpoint> {
    if suffix == "" then Some(IllustInfo(n))
    else if suffix == "/pages" then Some(IllustPages(n))
    else None
  }

  /** The path below `/ajax/`: `user/` or `illust/`, the id, then the suffix. */
  function ParseAjaxPath(rest: string): Option<Endpoint> {
    if "user/" <= rest then
      match ParseIdAndSuffix(rest[5..])
      case None => None
      case Some((n, suffix)) => UserEndpoint(n, suffix)
    else if "illust/" <= rest then
      match ParseIdAndSuffix(rest[7..])
      case None => None
      case Some((n, suffix)) => IllustEndpoint(n, suffix)
    else None
  }

  /** Reads an endpoint back from its target URL. */
  function ParseEndpointUrl(s: string): Option<Endpoint> {
    if AJAX_PREFIX <= s then ParseAjaxPath(s[|AJAX_PREFIX|..]) else None
  }

  lemma IdCharsOfDecimal(n: i32)
    ensures forall i :: 0 <= i < |I32ToDecimal(n)| ==> IsIdChar(I32ToDecimal(n)[i])
  {
  }

  /** The id ends where the path suffix starts. */
  lemma IdReadBack(n: i32, suffix: string)
    requires suffix == [] || !IsIdChar(suffix[0])
    ensures ParseIdAndSuffix(I32ToDecimal(n) + suffix) == Some((n, suffix))
  {
    var d := I32ToDecimal(n);
    IdCharsOfDecimal(n);
    TakeWhileConcat(d, suffix, IsIdChar);
    ParseI32RoundTrip(n);
    assert (d + suffix)[|d|..] == suffix;
  }

  /** Regrouping `p + k + d + x` as `p + (k + (d + x))` and dropping `p` again. */
  lemma SplitPath(p: string, k: string, d: string, x: string)
    ensures p <= p + (k + (d + x))
    ensures (p + (k + (d + x)))[|p|..] == k + (d + x)
    ensures (k + (d + x))[|k|..] == d + x
    ensures (k + (d + x))[..|k|] == k
  {
  }

  /** Both endpoint families share the `/ajax/` prefix. */
  lemma AjaxPrefixes()
    ensures BASE_URL_HTTPS + "/ajax/user/" == AJAX_PREFIX + "user/"
    ensures BASE_URL_HTTPS + "/ajax/illust/" == AJAX_PREFIX + "illust/"
  {
  }

  lemma Regroup(h: string, p: string, k: string, d: string, x: string)
    requires h == p + k
    ensures h + d + x == p + (k + (d + x))
  {
  }

  /** Each path suffix selects its own endpoint. */
  lemma EndpointSuffixes(n: i32)
    ensures UserEndpoint(n, "?full=1") == Some(UserInfo(n))
    ensures UserEndpoint(n, "/profile/top") == Some(UserTopWorks(n))
    ensures UserEndpoint(n, "/profile/all") == Some(UserAllWorks(n))
    ensures IllustEndpoint(n, "") == Some(IllustInfo(n))
    ensures IllustEndpoint(n, "/pages") == Some(IllustPages(n))
  {
    assert "/profile/all"[9] != "/profile/top"[9];
  }

  lemma UserUrlRoundTrip(e: Endpoint, suffix: string)
    requires e.UserInfo? || e.UserTopWorks? || e.UserAllWorks?
    requires suffix == (if e.UserInfo? then "?full=1" else if e.UserTopWorks? then "/profile/top" else "/profile/all")
    requires EndpointUrl(e) == BASE_URL_HTTPS + "/ajax/user/" + I32ToDecimal(e.userId) + suffix
    ensures ParseEndpointUrl(EndpointUrl(e)) == Some(e)
  {
    var d := I32ToDecimal(e.userId);
    AjaxPrefixes();
    Regroup(BASE_URL_HTTPS + "/ajax/user/", AJAX_PREFIX, "user/", d, suffix);
    SplitPath(AJAX_PREFIX, "user/", d, suffix);
    IdReadBack(e.userId, suffix);
    EndpointSuffixes(e.userId);
    var rest := "user/" + (d + suffix);
    assert ParseAjaxPath(rest) == UserEndpoint(e.userId, suffix);
  }

  lemma IllustUrlRoundTrip(e: Endpoint, suffix: string)
    requires e.IllustInfo? || e.IllustPages?
    requires suffix == (if e.IllustInfo? then "" else "/pages")
    requires EndpointUrl(e) == BASE_URL_HTTPS + "/ajax/illust/" + I32ToDecimal(e.illustId) + suffix
    ensures ParseEndpointUrl(EndpointUrl(e)) == Some(e)
  {
    var d := I32ToDecimal(e.illustId);
    AjaxPrefixes();
    Regroup(BASE_URL_HTTPS + "/ajax/illust/", AJAX_PREFIX, "illust/", d, suffix);
    SplitPath(AJAX_PREFIX, "illust/", d, suffix);
    var rest := "illust/" + (d + suffix);
    assert rest[0] == 'i';
    IdReadBack(e.illustId, suffix);
    EndpointSuffixes(e.illustId);
    assert ParseAjaxPath(rest) == IllustEndpoint(e.illustId, suffix);
  }

  /** Every endpoint URL starts with the site and reads back as the endpoint it was formatted from. */
  lemma EndpointUrlRoundTrip(e: Endpoint)
    ensures BASE_URL_HTTPS <= EndpointUrl(e)
    ensures ParseEndpointUrl(EndpointUrl(e)) == Some(e)
  {
    match e {
      case UserInfo(id) => UserUrlRoundTrip(e, "?full=1");
      case UserTopWorks(id) => UserUrlRoundTrip(e, "/profile/top");
      case UserAllWorks(id) => UserUrlRoundTrip(e, "/profile/all");
      case IllustInfo(id) =>
        assert EndpointUrl(e) == BASE_URL_HTTPS + "/ajax/illust/" + I32ToDecimal(id) + "";
        IllustUrlRoundTrip(e, "");
      case IllustPages(id) => IllustUrlRoundTrip(e, "/pages");
    }
  }

  /** Distinct endpoints (kind or id) never share a URL. */
  lemma EndpointUrlInjective(a: Endpoint, b: Endpoint)
    ensures EndpointUrl(a) == EndpointUrl(b) ==> a == b
  {
    EndpointUrlRoundTrip(a);
    EndpointUrlRoundTrip(b);
  }

  // ---------------------------------------------------------------- ranking

  datatype RankingMode =
    | Daily | Weekly | Monthly | Rookie | Original | Male | Female
    | DailyR18 | WeeklyR18 | MaleR18 | FemaleR18 | R18G

  datatype RankingContent = All | Illust | Ugoira | Manga

  /** `&mode=` and the mode's name: one segment, with no `&` after the first character. */
  function ModeSegment(m: RankingMode): (r: string)
    ensures "&mode=" <= r && |r| >= 1 && r[0] == '&'
    ensures forall i :: 1 <= i < |r| ==> r[i] != '&'
    ensures ModeFromSegment(r) == Some(m)
  {
    match m
    case Daily => "&mode=daily"
    case Weekly => "&mode=weekly"
    case Monthly => "&mode=monthly"
    case Rookie => "&mode=rookie"
    case Original => "&mode=original"
    case Male => "&mode=male"
    case Female => "&mode=female"
    case DailyR18 => "&mode=daily_r18"
    case WeeklyR18 => "&mode=weekly_r18"
    case MaleR18 => "&mode=male_r18"
    case FemaleR18 => "&mode=female_r18"
    case R18G => "&mode=r18g"
  }

  /** Nothing for `All`; otherwise one `&content=` segment naming the kind. */
  function ContentSegment(c: RankingContent): (r: string)
    ensures r == "" <==> c == All
    ensures c != All ==> "&content=" <= r && |r| >= 1 && r[0] == '&'
    ensures forall i :: 1 <= i < |r| ==> r[i] != '&'
    ensures c != All ==> ContentFromSegment(r) == Some(c)
  {
    match c
    case All => ""
    case Illust => "&content=illust"
    case Ugoira => "&content=ugoira"
    case Manga => "&content=manga"
  }

  /** `page.map(|p| format!("&p={p}")).unwrap_or_default()` */
  function PageSegment(page: Option<i32>): (r: string)
    ensures r == "" <==> page.None?
    ensures page.Some? ==> "&p=" <= r && Canonical(r[3..])
    ensures ParsePage(r) == Some((page, ""))
  {
    match page
    case None => ""
    case Some(p) =>
      PageDigitsReadBack(p, "");
      var r := "&p=" + I32ToDecimal(p);
      assert r + "" == r && r[3..] == I32ToDecimal(p);
      r
  }

  /**
   * The contract of `PageSegment` pins its text: any `&p=` segment whose
   * rest is canonical and reads back as `p` is `&p=` and what `format!`
   * prints for `p`.
   */
  lemma PageTextPinned(r: string, p: i32)
    requires "&p=" <= r && Canonical(r[3..])
    requires ParsePage(r) == Some((Some(p), ""))
    ensures r == "&p=" + I32ToDecimal(p)
  {
    PageTextParses(r, p);
    CanonicalTextUnique(r[3..], p);
    assert r == r[..3] + r[3..];
  }

  /** A canonical page text holds no `&`, so `ParsePage` reads all of it. */
  lemma PageTextParses(r: string, p: i32)
    requires "&p=" <= r && Canonical(r[3..])
    requires ParsePage(r) == Some((Some(p), ""))
    ensures ParseI32(r[3..]) == Some(p)
  {
    var t := r[3..];
    CanonicalHasNoAmp(t);
    TakeWhileConcat(t, "", NotAmp);
    assert t + "" == t;
    assert TakeWhile(t, NotAmp) == t;
  }

  lemma CanonicalHasNoAmp(t: string)
    requires Canonical(t)
    ensures forall i :: 0 <= i < |t| ==> NotAmp(t[i])
  {
    forall i | 0 <= i < |t| ensures NotAmp(t[i]) {
      if i > 0 && t[0] == '-' {
        assert t[i] == t[1..][i - 1];
      }
    }
  }




  /** `date.map(|d| format!("&date={d}")).unwrap_or_default()` */
  function DateSegment(date: Option<string>): (r: string)
    ensures r == "" <==> date.None?
    ensures date.Some? ==> "&date=" <= r
    ensures ParseDate(r) == Some(date)
  {
    match date
    case None => ""
    case Some(d) =>
      var r := "&date=" + d;
      assert r[..6] == "&date=" && r[6..] == d;
      r
  }

  const RANKING_PREFIX: string := BASE_URL_HTTPS + "/ranking.php?format=json"

  /** The ranking target: a fixed prefix, then mode, content, page and date, in that order. */
  function RankingUrl(mode: RankingMode, content: RankingContent, date: Option<string>, page: Option<i32>): (s: string)
    ensures RANKING_PREFIX <= s
  {
    RANKING_PREFIX + ModeSegment(mode) + ContentSegment(content) + PageSegment(page) + DateSegment(date)
  }

  /**
   * `ranking`: the reply is decoded straight into the ranking type, with no
   * envelope; `dec` stands for decoding `PixivRanking`.
   */
  function Ranking<R>(pc: PixivClient, mode: RankingMode, content: RankingContent, date: Option<string>, page: Option<i32>,
                      parse: UrlParser, send: Transport, dec: Json -> Option<R>): (r: Result<R, Error>)
    ensures GetChecked(pc.client, parse(RankingUrl(mode, content, date, page)), send).Err? ==>
      r == Err(HttpError(GetChecked(pc.client, parse(RankingUrl(mode, content, date, page)), send).error))
    ensures r.Ok? <==>
      var reply := GetChecked(pc.client, parse(RankingUrl(mode, content, date, page)), send);
      reply.Ok? && reply.value.body.Some? && dec(reply.value.body.value).Some?
    ensures r.Ok? ==>
      Some(r.value) == dec(GetChecked(pc.client, parse(RankingUrl(mode, content, date, page)), send).value.body.value)
    ensures r.Err? && GetChecked(pc.client, parse(RankingUrl(mode, content, date, page)), send).Ok? ==>
      r == Err(HttpError(Decode))
  {
    match GetChecked(pc.client, parse(RankingUrl(mode, content, date, page)), send)
    case Err(e) => Err(HttpError(e))
    case Ok(resp) =>
      match resp.body
      case None => Err(HttpError(Decode))
      case Some(b) =>
        match dec(b)
        case None => Err(HttpError(Decode))
        case Some(v) => Ok(v)
  }

  /**
   * The ranking reply is not unwrapped: a body that looks like an error
   * envelope is still the ranking, when it decodes as one.
   */
  lemma RankingIgnoresEnvelope<R>(pc: PixivClient, mode: RankingMode, content: RankingContent, date: Option<string>,
                                  page: Option<i32>, parse: UrlParser, send: Transport, dec: Json -> Option<R>, m: string)
    requires parse(RankingUrl(mode, content, date, page)).Ok?
    requires var reply := send(pc.client, parse(RankingUrl(mode, content, date, page)).value);
      reply.Ok? && !IsErrorStatus(reply.value.status) &&
      reply.value.body == Some(Obj([("error", Bool(true)), ("message", Str(m))])) &&
      dec(Obj([("error", Bool(true)), ("message", Str(m))])).Some?
    ensures Ranking(pc, mode, content, date, page, parse, send, dec) ==
      Ok(dec(Obj([("error", Bool(true)), ("message", Str(m))])).value)
  {
  }

  /** The request parameters a ranking URL encodes. */
  datatype RankingQuery = RankingQuery(mode: RankingMode, content: RankingContent, date: Option<string>, page: Option<i32>)

  predicate NotAmp(c: char) {
    c != '&'
  }

  /** The `&`-led segment at the head of `s`. */
  function NextSegment(s: string): (seg: string)
    requires |s| >= 1
    ensures seg <= s && |seg| >= 1
  {
    [s[0]] + TakeWhile(s[1..], NotAmp)
  }

  function ModeFromSegment(seg: string): Option<RankingMode> {
    if seg == "&mode=daily" then Some(Daily)
    else if seg == "&mode=weekly" then Some(Weekly)
    else if seg == "&mode=monthly" then Some(Monthly)
    else if seg == "&mode=rookie" then Some(Rookie)
    else if seg == "&mode=original" then Some(Original)
    else if seg == "&mode=male" then Some(Male)
    else if seg == "&mode=female" then Some(Female)
    else if seg == "&mode=daily_r18" then Some(DailyR18)
    else if seg == "&mode=weekly_r18" then Some(WeeklyR18)
    else if seg == "&mode=male_r18" then Some(MaleR18)
    else if seg == "&mode=female_r18" then Some(FemaleR18)
    else if seg == "&mode=r18g" then Some(R18G)
    else None
  }

  function ContentFromSegment(seg: string): Option<RankingContent> {
    if seg == "&content=illust" then Some(Illust)
    else if seg == "&content=ugoira" then Some(Ugoira)
    else if seg == "&content=manga" then Some(Manga)
    else None
  }

  /** An optional `&content=` segment (absent meaning `All`), and what follows it. */
  function ParseContent(s: string): Option<(RankingContent, string)> {
    if "&content=" <= s then
      var seg := NextSegment(s);
      match ContentFromSegment(seg)
      case None => None
      case Some(c) => Some((c, s[|seg|..]))
    else Some((All, s))
  }

  /** An optional `&p=` segment holding a decimal page number, and what follows it. */
  function ParsePage(s: string): Option<(Option<i32>, string)> {
    if "&p=" <= s then
      var digits := TakeWhile(s[3..], NotAmp);
      match ParseI32(digits)
      case None => None
      case Some(p) => Some((Some(p), s[3 + |digits|..]))
    else Some((None, s))
  }

  /** Nothing, or a last `&date=` segment running to the end. */
  function ParseDate(s: string): Option<Option<string>> {
    if s == "" then Some(None)
    else if "&date=" <= s then Some(Some(s[6..]))
    else None
  }

  /** The mode segment that leads the query, and what follows it. */
  function ParseMode(s: string): Option<(RankingMode, string)> {
    if s == [] then None
    else
      var seg := NextSegment(s);
      match ModeFromSegment(seg)
      case None => None
      case Some(m) => Some((m, s[|seg|..]))
  }

  /** The query after the fixed prefix: mode, then the optional content, page and date. */
  function ParseRankingQuery(s: string): Option<RankingQuery> {
    match ParseMode(s)
    case None => None
    case Some((mode, s2)) =>
      match ParseContent(s2)
      case None => None
      case Some((content, s3)) =>
        match ParsePage(s3)
        case None => None
        case Some((page, s4)) =>
          match ParseDate(s4)
          case None => None
          case Some(date) => Some(RankingQuery(mode, content, date, page))
  }

  /** Reads the ranking parameters back from a ranking URL. */
  function ParseRankingUrl(s: string): Option<RankingQuery> {
    if RANKING_PREFIX <= s then ParseRankingQuery(s[|RANKING_PREFIX|..]) else None
  }

  /** A segment up to the next `&`, followed by nothing or by another segment. */
  lemma NextSegmentConcat(a: string, b: string)
    requires |a| >= 1 && forall i :: 1 <= i < |a| ==> a[i] != '&'
    requires b == [] || b[0] == '&'
    ensures NextSegment(a + b) == a
  {
    assert (a + b)[1..] == a[1..] + b;
    TakeWhileConcat(a[1..], b, NotAmp);
    assert [a[0]] + a[1..] == a;
  }

  /** What follows the content segment: empty, or a page segment, or a date segment. */
  lemma PageDateShape(page: Option<i32>, date: Option<string>)
    ensures var t := PageSegment(page) + DateSegment(date);
      t == [] || (|t| >= 2 && t[0] == '&' && (t[1] == 'p' || t[1] == 'd'))
    ensures !("&content=" <= PageSegment(page) + DateSegment(date))
  {
    var t := PageSegment(page) + DateSegment(date);
    if page.Some? {
      assert t[..3] == "&p=";
    } else if date.Some? {
      assert t[..6] == "&date=";
    }
  }

  /** A page number's digits end where the next segment (or the URL) starts. */
  lemma PageDigitsReadBack(n: i32, ds: string)
    requires ds == [] || ds[0] == '&'
    ensures ParsePage("&p=" + I32ToDecimal(n) + ds) == Some((Some(n), ds))
  {
    var d := I32ToDecimal(n);
    var s := "&p=" + d + ds;
    assert s[..3] == "&p=";
    assert s[3..] == d + ds;
    IdCharsOfDecimal(n);
    TakeWhileConcat(d, ds, NotAmp);
    ParseI32RoundTrip(n);
    assert s[3 + |d|..] == ds;
  }

  /** Without a page segment nothing is consumed: a date segment does not start with `&p=`. */
  lemma PageAbsent(ds: string)
    requires ds == [] || (|ds| >= 2 && ds[1] == 'd')
    ensures ParsePage(ds) == Some((None, ds))
  {
  }

  lemma ParsePageSegment(page: Option<i32>, date: Option<string>)
    ensures ParsePage(PageSegment(page) + DateSegment(date)) == Some((page, DateSegment(date)))
  {
    var ds := DateSegment(date);
    assert ds == [] || (|ds| >= 2 && ds[0] == '&' && ds[1] == 'd') by {
      if date.Some? {
        assert ds == "&date=" + date.value;
      }
    }
    match page {
      case Some(n) =>
        assert PageSegment(page) + ds == "&p=" + I32ToDecimal(n) + ds;
        PageDigitsReadBack(n, ds);
      case None =>
        assert PageSegment(page) + ds == ds;
        PageAbsent(ds);
    }
  }

  lemma ParseContentSegment(content: RankingContent, page: Option<i32>, date: Option<string>)
    ensures var rest := PageSegment(page) + DateSegment(date);
      ParseContent(ContentSegment(content) + rest) == Some((content, rest))
  {
    var rest := PageSegment(page) + DateSegment(date);
    PageDateShape(page, date);
    var cs := ContentSegment(content);
    if content != All {
      NextSegmentConcat(cs, rest);
      var s := cs + rest;
      assert s[..9] == cs[..9];
      assert s[|cs|..] == rest;
    } else {
      assert cs + rest == rest;
    }
  }

  lemma ModeReadBack(m: RankingMode, rest: string)
    requires rest == [] || rest[0] == '&'
    ensures ParseMode(ModeSegment(m) + rest) == Some((m, rest))
  {
    NextSegmentConcat(ModeSegment(m), rest);
    assert (ModeSegment(m) + rest)[|ModeSegment(m)|..] == rest;
  }

  lemma RankingQueryReadBack(mode: RankingMode, content: RankingContent, date: Option<string>, page: Option<i32>)
    ensures ParseRankingQuery(ModeSegment(mode) + (ContentSegment(content) + (PageSegment(page) + DateSegment(date))))
         == Some(RankingQuery(mode, content, date, page))
  {
    var rest := ContentSegment(content) + (PageSegment(page) + DateSegment(date));
    PageDateShape(page, date);
    if content == All {
      assert rest == PageSegment(page) + DateSegment(date);
    }
    ModeReadBack(mode, rest);
    ParseContentSegment(content, page, date);
    ParsePageSegment(page, date);
  }

  /**
   * A ranking URL determines the request: reading it back yields the mode,
   * content, page and date it was built from, so each segment appears once
   * and in the fixed order mode, content, page, date.
   */
  lemma RankingUrlRoundTrip(mode: RankingMode, content: RankingContent, date: Option<string>, page: Option<i32>)
    ensures ParseRankingUrl(RankingUrl(mode, content, date, page)) == Some(RankingQuery(mode, content, date, page))
  {
    SplitAfterPrefix(RANKING_PREFIX, ModeSegment(mode), ContentSegment(content), PageSegment(page), DateSegment(date));
    RankingQueryReadBack(mode, content, date, page);
  }

  /** Regrouping a chain of appends, and dropping its known head again. */
  lemma SplitAfterPrefix(p: string, a: string, b: string, c: string, d: string)
    ensures p <= p + a + b + c + d
    ensures (p + a + b + c + d)[|p|..] == a + (b + (c + d))
  {
    assert p + a + b + c + d == p + (a + (b + (c + d)));
  }

  /** Different ranking requests never produce the same URL. */
  lemma RankingUrlInjective(a: RankingQuery, b: RankingQuery)
    ensures RankingUrl(a.mode, a.content, a.date, a.page) == RankingUrl(b.mode, b.content, b.date, b.page) ==> a == b
  {
    RankingUrlRoundTrip(a.mode, a.content, a.date, a.page);
    RankingUrlRoundTrip(b.mode, b.content, b.date, b.page);
  }
}
