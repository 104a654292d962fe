/**
 * `src/futures.rs`: a pending GET whose target URL may already have failed
 * to build. Decorating it (`with_lang`) edits the stored URL in place;
 * driving it (`into_future`) surfaces a deferred URL error first, then runs
 * the request and unwraps the reply envelope.
 */
module Futures {
  import opened Wrappers
  import opened Json
  import opened Http
  import opened Errors
  import opened Types

  /** `url.query_pairs_mut().append_pair(key, value)`: one more pair at the end, nothing else touched. */
  function AppendPair(u: Url, key: string, value: string): (r: Url)
    ensures r.query == u.query + [(key, value)]
    ensures r.scheme == u.scheme && r.host == u.host && r.path == u.path
  {
    u.(query := u.query + [(key, value)])
  }

  /**
   * The replies the conversion can take without panicking: a checked reply
   * whose body is an envelope with `error == false` must carry a body.
   */
  predicate ReplyUnwrappable<T>(reply: Result<Response, HttpFailure>, dec: Json -> Option<T>) {
    reply.Ok? && reply.value.body.Some? && DecodeEnvelope(reply.value.body.value, dec).Some? ==>
      Unwrappable(DecodeEnvelope(reply.value.body.value, dec).value)
  }

  /** `.json::<WrappedResponse<T>>().await?.into()` on a reply `error_for_status` let through. */
  function Unwrap<T>(reply: Result<Response, HttpFailure>, dec: Json -> Option<T>): (r: Result<T, Error>)
    requires ReplyUnwrappable(reply, dec)
    ensures reply.Err? ==> r == Err(HttpError(reply.error))
    ensures reply.Ok? && reply.value.body.None? ==> r == Err(HttpError(Decode))
    ensures reply.Ok? && reply.value.body.Some? ==>
      match DecodeEnvelope(reply.value.body.value, dec)
      case None => r == Err(HttpError(Decode))
      case Some(w) => r == IntoResult(w)
  {
    match reply
    case Err(e) => Err(HttpError(e))
    case Ok(resp) =>
      match resp.body
      case None => Err(HttpError(Decode))
      case Some(b) =>
        match DecodeEnvelope(b, dec)
        case None => Err(HttpError(Decode))
        case Some(w) => IntoResult(w)
  }

  /** The outcome of one enveloped GET: what `into_future` and `_common_get` both compute. */
  function Deliver<T>(client: HttpClient, url: Result<Url, HttpFailure>, send: Transport, dec: Json -> Option<T>): (r: Result<T, Error>)
    requires ReplyUnwrappable(GetChecked(client, url, send), dec)
    ensures url.Err? ==> r == Err(HttpError(url.error))
    ensures url.Ok? && send(client, url.value).Err? ==> r == Err(HttpError(send(client, url.value).error))
    ensures url.Ok? && send(client, url.value).Ok? && IsErrorStatus(send(client, url.value).value.status) ==>
      r == Err(HttpError(Status(send(client, url.value).value.status)))
    ensures url.Ok? && send(client, url.value).Ok? && !IsErrorStatus(send(client, url.value).value.status) ==>
      match send(client, url.value).value.body
      case None => r == Err(HttpError(Decode))
      case Some(b) =>
        match DecodeEnvelope(b, dec)
        case None => r == Err(HttpError(Decode))
        case Some(w) => r == IntoResult(w)
  {
    Unwrap(GetChecked(client, url, send), dec)
  }

  /** A URL that failed to build is the error, whatever the network would have done. */
  lemma DeliverUrlError<T>(client: HttpClient, e: HttpFailure, send: Transport, dec: Json -> Option<T>)
    ensures ReplyUnwrappable(GetChecked(client, Err(e), send), dec)
    ensures Deliver(client, Err(e), send, dec) == Err(HttpError(e))
  {
  }

  /** A client or server error status becomes an `HttpError` without the body being read. */
  lemma DeliverStatusError<T>(client: HttpClient, u: Url, send: Transport, dec: Json -> Option<T>)
    requires send(client, u).Ok? && IsErrorStatus(send(client, u).value.status)
    ensures ReplyUnwrappable(GetChecked(client, Ok(u), send), dec)
    ensures Deliver(client, Ok(u), send, dec) == Err(HttpError(Status(send(client, u).value.status)))
  {
  }

  /** On any other reply whose body is an envelope, the outcome is the envelope's conversion. */
  lemma DeliverConverts<T>(client: HttpClient, u: Url, send: Transport, dec: Json -> Option<T>, w: WrappedResponse<T>)
    requires send(client, u).Ok? && !IsErrorStatus(send(client, u).value.status)
    requires send(client, u).value.body.Some? && DecodeEnvelope(send(client, u).value.body.value, dec) == Some(w)
    requires Unwrappable(w)
    ensures ReplyUnwrappable(GetChecked(client, Ok(u), send), dec)
    ensures Deliver(client, Ok(u), send, dec) == IntoResult(w)
  {
  }

  /** `GetRequest<'a, T>`: the client to send with and the target, or the error building it hit. */
  class GetRequest<T> {
    const client: HttpClient
    var url: Result<Url, HttpFailure>

    constructor (client: HttpClient, url: Result<Url, HttpFailure>)
      ensures this.client == client && this.url == url
    {
      this.client := client;
      this.url := url;
    }

    /**
     * `with_lang`: on a built URL, appends the pair `("lang", lang)`; a URL
     * error is kept as it is, to surface when the request is driven.
     */
    method WithLang(lang: string) returns (self: GetRequest<T>)
      modifies this
      ensures self == this
      ensures old(url).Err? ==> url == old(url)
      ensures old(url).Ok? ==> url.Ok? && url.value.query == old(url).value.query + [("lang", lang)]
      ensures old(url).Ok? ==>
        url.value.scheme == old(url).value.scheme && url.value.host == old(url).value.host &&
        url.value.path == old(url).value.path
    {
      match url {
        case Ok(u) =>
          url := Ok(AppendPair(u, "lang", lang));
        case Err(_) =>
      }
      self := this;
    }

    /** `into_future`, driven to completion through the transport `send`. */
    method Execute(send: Transport, dec: Json -> Option<T>) returns (r: Result<T, Error>)
      requires ReplyUnwrappable(GetChecked(client, url, send), dec)
      ensures r == Deliver(client, url, send, dec)
    {
      if url.Err? {
        return Err(HttpError(url.error));
      }
      var sent := send(client, url.value);
      if sent.Err? {
        return Err(HttpError(sent.error));
      }
      var resp := sent.value;
      if IsErrorStatus(resp.status) {
        return Err(HttpError(Status(resp.status)));
      }
      if resp.body.None? {
        return Err(HttpError(Decode));
      }
      var envelope := DecodeEnvelope(resp.body.value, dec);
      if envelope.None? {
        return Err(HttpError(Decode));
      }
      r := IntoResult(envelope.value);
    }
  }

  /**
   * `with_lang` is not idempotent: decorating twice leaves two `lang` pairs,
   * because appending never replaces an earlier pair.
   */
  method WithLangTwice<T>(client: HttpClient, u: Url, lang: string) returns (query: seq<(string, string)>)
    ensures query == u.query + [("lang", lang), ("lang", lang)]
  {
    var request := new GetRequest<T>(client, Ok(u));
    var once := request.WithLang(lang);
    var twice := once.WithLang(lang);
    query := twice.url.value.query;
  }

  /** A request whose URL failed to build keeps failing with that error after any decoration. */
  method WithLangKeepsUrlError<T>(client: HttpClient, e: HttpFailure, lang: string, send: Transport, dec: Json -> Option<T>)
    returns (r: Result<T, Error>)
    ensures r == Err(HttpError(e))
  {
    var request := new GetRequest<T>(client, Err(e));
    var decorated := request.WithLang(lang);
    r := decorated.Execute(send, dec);
  }
}
