# pixrs, modelled in Dafny

pixrs is a typed Rust client for the internal AJAX API of pixiv. This
project models the deterministic core around its HTTP calls and proves
properties of that model:

- **Shape-tolerant decoders** (`src/de.rs`). Some fields arrive as a JSON
  object or as a JSON array. `dict_value_to_vec` and `dict_key_to_vec` try
  the untagged `HashMapOrVec` enum: the map variant first, then the vector.
  Whichever matches is flattened into one sequence.
- **The reply envelope** (`src/types.rs`). `{error, message, body}` is
  decoded by serde's derived rules and converted into the crate's `Result`.
  The `u8` discriminant enums `IllustType` and `Restriction` are also
  modelled.
- **The pending request** (`src/futures.rs`). `GetRequest` holds a URL that
  may already have failed to build. `with_lang` edits that URL in place.
  `into_future` surfaces a deferred URL error first, then runs the GET,
  `error_for_status` and the envelope conversion.
- **The client surface** (`src/lib.rs`):
  - `new`: the session cookie, the default headers, the user agent and the
    CSRF token read from the home page;
  - the endpoint URL formats;
  - the ranking query string;
  - `self_user_id`, which reads the `x-userid` header.

The model is split into modules that follow the crate:

| Dafny module | models |
|---|---|
| `De` | `src/de.rs` |
| `Types` | `src/types.rs` |
| `Futures` | `src/futures.rs` |
| `Client` | `src/lib.rs` |
| `Errors` | `src/error.rs`, as a datatype |

The supporting modules stand in for the libraries the crate calls:

| Dafny module | stands in for |
|---|---|
| `Json` | a JSON document as serde sees it |
| `Http` | reqwest, reduced to values |
| `Numbers` | `u8` and `i32`, their decimal printing, `i32::from_str` |
| `Text` | one string scan |
| `Wrappers` | `Option` and `Result` |

How the model treats things outside the crate:

- **Decoding "as `T`".** This is a parameter: `dec: Json -> Option<T>` for
  values, and `kdec: string -> Option<T>` for object keys.
- **Network, URL parsing and page fetch.** The network is a `Transport`
  function from a client and a URL to a reply or a failure. URL parsing
  (`IntoUrl`) is a `UrlParser` function. The home-page fetch in `new` is a
  function from the built client to the page text. The model computes what
  the code does with whatever those functions return.
- **Header validity.** `HeaderValue::from_str` and `Client::builder().build()`
  enter `Client.New` as a predicate and as an outcome.
- **The panic.** The envelope conversion calls `body.unwrap()`, which panics
  when `error == false` and the body is missing. The model makes that case
  a precondition: `Types.Unwrappable` and `Futures.ReplyUnwrappable`.

Where the documented intent and the code differ, the model follows the code:

- An envelope with `error == false` and no body panics; it does not return
  an error (`src/types.rs:66`).
- An envelope whose `body` is present but malformed fails to decode as a
  whole, even when `error == true`, so the server's message is lost.
  `Types.MalformedBodyFailsEnvelope` proves this (`src/types.rs:54-59`).
- `error_for_status` rejects only 4xx and 5xx replies, so a 1xx or 3xx reply
  reaches the envelope decoder (`Http.IsErrorStatus`).
- The crate has no decoder for a `false`-means-absent sentinel and no
  paginated ranking stream. Ranking is a single request whose reply is
  decoded directly, with no envelope (`src/lib.rs:143-152`).

## Model

| member | source | states |
|---|---|---|
| De.DecodeEach | src/de.rs:19 | Decoding a sequence succeeds iff every element decodes; the result has the input's length, element i is element i decoded, so order is kept and nothing is skipped |
| De.LastPerKey | src/de.rs:18 | A `HashMap` built from object entries keeps distinct keys and only entries that occur in the object, no more entries than the object has and at least one when it has any; with distinct keys it keeps every entry in order |
| De.LastPerKeyKeepsEveryKey | src/de.rs:18 | Every key of the object keeps an entry in the map |
| De.LastPerKeyIsLastWrite | src/de.rs:18 | The entry kept for a key is the last entry the object gives for that key, as repeated `HashMap` inserts leave it |
| De.Dedup | src/de.rs:39 | Collecting `HashMap` keys leaves pairwise distinct elements, each from the input, every input element present, and an already distinct input unchanged |
| De.AsValueMap | src/de.rs:18 | The `HashMap<String, T>` variant matches only an object, and matches it iff every value decodes, including values a later duplicate key overwrites; the result has one element per distinct key, and as a multiset it is the decoded values of each key's last entry; distinct keys give one element per entry |
| De.AsKeySet | src/de.rs:39 | The `HashMap<T, ()>` variant matches an object iff every value is unit and every key decodes; the result is pairwise distinct, each element decodes from some key, and every entry's key is in it |
| De.AsVec | src/de.rs:19 | The `Vec<T>` variant matches only an array, and matches it iff every element decodes; the result has the array's length and element i is element i decoded |
| De.DictValueToVec | src/de.rs:10-26 | An array yields exactly its decoded elements in order, or fails iff one element fails; an object succeeds iff all its values decode and then yields one element per distinct key, as a multiset the decoded values of each key's last entry; any other value, and every failure, is the untagged-enum mismatch error |
| De.DictKeyToVec | src/de.rs:28-47 | An array is returned decoded element by element with duplicates kept; an object succeeds iff all values are unit and all keys decode, and then yields distinct elements that are exactly the decoded keys; anything else fails with the mismatch error |
| De.DecodeEachValues | src/de.rs:23 | Decoding the values of entries gives the multiset of their decoded values |
| De.DictValueToVecObjectMultiset | src/de.rs:23 | On an object with distinct keys whose values all decode, `dict_value_to_vec` succeeds with exactly the multiset of decoded values |
| De.EmptyShapesAgree | src/de.rs:22-24 | An empty object and an empty array both yield the empty sequence, for both helpers |
| De.DictKeyToVecCount | src/de.rs:44 | When entries' keys decode to distinct values, `dict_key_to_vec` yields one element per entry |
| De.KeptValuesDecode | src/de.rs:18 | Every value the map variant keeps is among those already checked to decode |
| De.KeySetFacts | src/de.rs:44 | Collecting decoded keys loses none and invents none |
| Types.IllustTypeFromU8 | src/types.rs:36-43 | A byte decodes iff it is 0, 1 or 2, and decoding inverts the discriminant |
| Types.IllustTypeFromJson | src/types.rs:36-43 | A JSON value decodes iff it is the number 0, 1 or 2, and re-encoding gives the same JSON |
| Types.IllustTypeRoundTrip | src/types.rs:36-43 | The discriminant and its JSON form decode back to every variant |
| Types.RestrictionFromU8 | src/types.rs:45-52 | A byte decodes iff it is 0, 1 or 2, and decoding inverts the discriminant |
| Types.RestrictionFromJson | src/types.rs:45-52 | A JSON value decodes iff it is the number 0, 1 or 2, and re-encoding gives the same JSON |
| Types.RestrictionRoundTrip | src/types.rs:45-52 | The discriminant and its JSON form decode back to every variant |
| Types.IntoResult | src/types.rs:61-69 | With the error flag the result is `PixivError` carrying the message verbatim; without it the result is the body unchanged; a missing body without the flag is excluded, as it panics |
| Types.ErrorFlagIgnoresBody | src/types.rs:63-64 | With the error flag set, the body cannot change the outcome |
| Types.DecodeEnvelope | src/types.rs:54-59 | An object decodes iff none of `error`, `message` and `body` is repeated, `error` is a boolean, `message` a string, and `body` is absent, null or decodable; the envelope then carries those values, with body `None` exactly when it is absent or null |
| Types.UnknownFieldIgnored | src/types.rs:54-59 | An extra entry under any key other than the three fields does not change the outcome |
| Types.EnvelopeRoundTrip | src/types.rs:54-59 | Decoding a serialised envelope gives it back, provided the body's own encoding round-trips and is not null |
| Types.OmittedBodyIsNone | src/types.rs:58 | An envelope with `body` left out decodes with `body == None` |
| Types.MalformedBodyFailsEnvelope | src/types.rs:54-59 | A present body that does not decode fails the whole envelope even when `error` is true |
| Futures.AppendPair | src/futures.rs:26-27 | Appending a query pair puts it last, keeps earlier pairs, and leaves scheme, host and path alone |
| Futures.Unwrap | src/futures.rs:42-49 | A failed GET is that `HttpError`; a reply that is not an envelope is a decode error; otherwise the result is the envelope's conversion |
| Futures.Deliver | src/futures.rs:42-49 | A URL error comes first, then a send failure, then a 4xx/5xx status; after a success status a missing or non-envelope body is a decode error, and otherwise the result is the envelope's conversion |
| Futures.DeliverUrlError | src/futures.rs:43 | A URL that failed to build is the result, whatever the network would do |
| Futures.DeliverStatusError | src/futures.rs:46 | A 4xx/5xx reply is a status `HttpError`, without the body being read |
| Futures.DeliverConverts | src/futures.rs:46-49 | On a success status with an envelope body, the result is that envelope's conversion |
| Futures.GetRequest.constructor | src/futures.rs:13-18 | A request holds its client and its URL or URL error |
| Futures.GetRequest.WithLang | src/futures.rs:22-33 | On a built URL, appends `("lang", l)` last and keeps earlier pairs, scheme, host and path; a URL error is kept as it is; the request itself is returned |
| Futures.GetRequest.Execute | src/futures.rs:40-51 | Running the request step by step (URL error, send, status check, envelope decode, conversion) gives exactly `Futures.Deliver` |
| Futures.WithLangTwice | src/futures.rs:27 | Decorating twice leaves two `lang` pairs, so `with_lang` is not idempotent |
| Futures.WithLangKeepsUrlError | src/futures.rs:31-43 | A request whose URL failed still fails with that error after decoration, before anything is sent |
| Http.GetChecked | src/futures.rs:42-46 | The URL error comes first, then a send failure, then a 4xx/5xx status; the reply passes iff none applies, and then it is what was received |
| Http.IsErrorStatus | src/futures.rs:46 | A status is an error iff its hundreds digit is 4 or 5, that is a client or a server error |
| Http.HeaderGet | src/lib.rs:78 | The value returned is stored under that name and no earlier header has that name, so it is the first such value; nothing is returned only when no header has that name |
| Http.HeaderToStr | src/lib.rs:79 | A header value is text iff every byte is visible ASCII or a tab, and then the text has the same characters |
| Numbers.ParseI32 | src/lib.rs:80 | Text parses iff, after an optional `+` or `-`, it is one or more ASCII digits whose signed value fits in `i32`, and the result is that signed value |
| Numbers.ParseI32LeadingZero | src/lib.rs:80 | A leading zero is accepted and does not change the parsed value |
| Numbers.ParseI32Signs | src/lib.rs:80 | A leading `+` changes nothing, and a leading `-` negates the unsigned value |
| Numbers.ParseI32RoundTrip | src/lib.rs:80 | Parsing the decimal text of an `i32` gives it back |
| Numbers.NatToDecimalValue | src/lib.rs:141 | The digits printed for a number have that value |
| Numbers.I32ToDecimal | src/lib.rs:85 | The printed text starts with `-` exactly for negative values, then one or more digits with no leading zero (a lone `0` aside) |
| Numbers.CanonicalTextUnique | src/lib.rs:85 | The printed text is the only text of that form that parses to its value, so it is exactly what `format!("{n}")` prints |
| Numbers.I32ToDecimalInjective | src/lib.rs:85-109 | Different integers print differently |
| Client.Configured | src/lib.rs:39-52 | The client carries the user agent, then the cookie `PHPSESSID=` + token marked sensitive, then the referer, in that order |
| Client.New | src/lib.rs:38-55 | An invalid cookie fails with "Cookies data seems to be invaild"; a builder failure is an `HttpError`; then a failed page fetch; then a missing CSRF token; otherwise the client with that configuration and the token as the code reads it, one character long |
| Client.CookieCarriesToken | src/lib.rs:39 | The cookie value is exactly `PHPSESSID=` followed by the token |
| Client.FindToken | src/lib.rs:163-166 | The token pattern is searched leftmost-first: the position found matches and no earlier one does; nothing is found only when no position matches |
| Client.CsrfTokenAsWritten | src/lib.rs:155-169 | As written, the token is missing iff the pattern occurs nowhere; otherwise it is the single character after the leftmost match of `token":"` |
| Client.CsrfToken | src/lib.rs:155-169 | Corrected, the token is missing iff the pattern occurs nowhere; otherwise it is the non-empty run of non-quote characters after the leftmost match, ended by a quote or by the end of the page |
| Client.CsrfTokenAsWrittenIsFirstChar | src/lib.rs:163-167 | The code as written fails on exactly the pages the corrected extraction fails on, and otherwise yields the first character of the intended token |
| Client.CsrfTokenReadsWholeToken | src/lib.rs:163-168 | When no match precedes it, a quoted token is returned whole by the corrected extraction, wherever on the page it stands |
| Client.CsrfTokenAsWrittenTruncates | src/lib.rs:163 | On `token":"ab"` the code as written yields "a" where "ab" is meant |
| Client.ParseUserIdHeader | src/lib.rs:77-80 | The header gives an id iff it is present, is visible ASCII and parses as an `i32`, and then the id is the parsed value |
| Client.UserIdHeaderRoundTrip | src/lib.rs:77-80 | A header holding an id's decimal text reads back as that id |
| Client.SelfUserId | src/lib.rs:69-81 | Only the GET can fail, and its error is the result; otherwise the result is `Ok` of what the header gives, so an absent or unparsable header is `Ok(None)` |
| Client.CommonGet | src/lib.rs:57-66 | The URL error, then the send failure, then the 4xx/5xx status is the result; after a success status a missing or non-envelope body is a decode error, and otherwise the result is the envelope's conversion |
| Client.Fetch | src/lib.rs:83-111 | Each accessor runs the enveloped GET of its own formatted target: its URL error, send failure or 4xx/5xx status, else a decode error or the envelope's conversion |
| Client.EndpointUrl | src/lib.rs:85-109 | Every accessor target starts with `https://www.pixiv.net/ajax/`; the round trip below reads the endpoint back |
| Client.EndpointUrlRoundTrip | src/lib.rs:83-111 | Every endpoint URL starts with the site and reads back as the endpoint and id it was formatted from |
| Client.EndpointUrlInjective | src/lib.rs:83-111 | Different endpoints, or the same endpoint with different ids, never share a URL |
| Client.RankingUrl | src/lib.rs:146 | Every ranking URL starts with `https://www.pixiv.net/ranking.php?format=json` |
| Client.ModeSegment | src/lib.rs:121-134 | Each mode adds one `&mode=` segment with no further `&`, and the segment reads back as that mode, so the twelve segments differ |
| Client.ContentSegment | src/lib.rs:135-140 | Only `All` adds nothing; Illust, Ugoira and Manga each add one `&content=` segment with no further `&` that reads back as that kind |
| Client.ParsePageSegment | src/lib.rs:141 | What follows the content segment reads back as the page it was built from (none when no `&p=` was added, p from `&p=` and p's decimal text) and leaves exactly the date segment |
| Client.PageSegment | src/lib.rs:141 | No page adds nothing; a page adds `&p=` followed by decimal text with no sign other than `-` and no leading zero, which reads back as that page |
| Client.PageTextPinned | src/lib.rs:141 | Any text meeting that contract is exactly `&p=` followed by what `format!("{p}")` prints |
| Client.DateSegment | src/lib.rs:142 | No date adds nothing; a date adds `&date=` and the date, which reads back as that date |
| Client.RankingUrlRoundTrip | src/lib.rs:121-147 | A ranking URL reads back as the mode, content, date and page it was built from, with the segments in the order mode, content, page, date |
| Client.RankingUrlInjective | src/lib.rs:121-147 | Different ranking requests never produce the same URL |
| Client.Ranking | src/lib.rs:143-152 | A failed GET is its `HttpError`; otherwise the result is `Ok` iff the body decodes directly as the ranking, with no envelope, and a failure is a decode error |
| Client.RankingIgnoresEnvelope | src/lib.rs:151 | A ranking reply shaped like an error envelope is still read as the ranking when it decodes as one |

## Findings

| source | as written | input that shows it | evidently intended | confidence | as-written member | corrected member |
|---|---|---|---|---|---|---|
| src/lib.rs:163 | the pattern `token":"([^"])` captures exactly one character after `token":"` | a home page containing `token":"ab"` gives the token "a" | `token":"([^"]+)`, the whole quoted token | high; not executed | Client.CsrfTokenAsWritten, Client.CsrfTokenAsWrittenTruncates | Client.CsrfToken, Client.CsrfTokenReadsWholeToken |

`Client.New` follows the code and stores the one-character token; `Client.CsrfTokenAsWrittenIsFirstChar` relates it to the intended one. The token is stored but not yet used by any request (`src/lib.rs:27`).

## Left out

- Network I/O and async plumbing are parameters. This covers `send().await`, the pinned boxed future and `Client::builder().build()`. Reading the home page's text is a parameter of `Client.New`.
- URL parsing (`IntoUrl`) is an abstract `UrlParser`. Form-urlencoding of query pairs is not modelled: pairs are kept unencoded.
- `HeaderValue::from_str` validity is an abstract predicate; `set_sensitive` is a flag on the header.
- The regex engine is not modelled in general. Only the leftmost-first search for the one token pattern is written out.
- serde_json text parsing is not modelled: the decoders start from a `Json` value.
- `deserialize_number_from_string` (`src/types.rs:12`, `src/types.rs:25`) is a library decoder and is not modelled.
- JSON numbers are integers. A reply carrying a fractional number is outside the model, and floating point is not modelled. The record types other than `IllustInfo` are not part of this model, so this is not checked against their fields.
- De.AsValueMap: a `HashMap` enumerates in an unspecified order. The model enumerates in entry order, and its contracts state only membership, counts and multisets, never order.
- The record types (`IllustInfo`, `UserInfo`, `PixivRanking` and the rest) are plain field sets. Decoding them is the `dec` parameter. `src/types.rs:8-34` is not modelled field by field.
- A serde derive can also read a struct from a JSON array. Types.DecodeEnvelope models only the object form, where unknown fields are ignored and a repeated known field is an error.
- `src/error.rs` has only `thiserror` display strings. It is modelled as the `Errors.Error` datatype.
- `PixivClient::get`, which builds a `GetRequest`, is not part of this model. `Futures.GetRequest` has a plain constructor instead.
- `examples/illust_info.rs` (argument handling and printing) and `tests/deserialize.rs` (a JSON fixture) are not part of this model.
