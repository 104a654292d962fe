/**
 * `src/types.rs`: the two enums that travel as `u8` discriminants, and the
 * `{error, message, body}` envelope every AJAX reply is wrapped in, with its
 * conversion into the client's `Result`.
 */
module Types {
  import opened Wrappers
  import opened Numbers
  import opened Json
  import opened Errors

  datatype IllustType = Illustration | Manga | Animation

  /** The `#[repr(u8)]` discriminant. */
  function IllustTypeToU8(t: IllustType): u8 {
    match t
    case Illustration => 0
    case Manga => 1
    case Animation => 2
  }

  /** `Deserialize_repr` after the `u8` is read: 0, 1, 2 map back, every other byte is refused. */
  function IllustTypeFromU8(b: u8): (r: Option<IllustType>)
    ensures r.Some? <==> b <= 2
    ensures r.Some? ==> IllustTypeToU8(r.value) == b
  {
    if b == 0 then Some(Illustration)
    else if b == 1 then Some(Manga)
    else if b == 2 then Some(Animation)
    else None
  }

  lemma IllustTypeRoundTrip(t: IllustType)
    ensures IllustTypeFromU8(IllustTypeToU8(t)) == Some(t)
    ensures IllustTypeFromJson(IllustTypeToJson(t)) == Some(t)
  {
  }

  /** `Serialize_repr`: the discriminant as a JSON number. */
  function IllustTypeToJson(t: IllustType): Json {
    Num(IllustTypeToU8(t) as int)
  }

  /** `Deserialize_repr` on JSON: the value must first be a number that fits a `u8`. */
  function IllustTypeFromJson(j: Json): (r: Option<IllustType>)
    ensures r.Some? <==> j.Num? && 0 <= j.n <= 2
    ensures r.Some? ==> IllustTypeToJson(r.value) == j
  {
    match j
    case Num(n) => if 0 <= n < 0x100 then IllustTypeFromU8(n as u8) else None
    case _ => None
  }

  datatype Restriction = General | R18 | R18G

  function RestrictionToU8(x: Restriction): u8 {
    match x
    case General => 0
    case R18 => 1
    case R18G => 2
  }

  function RestrictionFromU8(b: u8): (r: Option<Restriction>)
    ensures r.Some? <==> b <= 2
    ensures r.Some? ==> RestrictionToU8(r.value) == b
  {
    if b == 0 then Some(General)
    else if b == 1 then Some(R18)
    else if b == 2 then Some(R18G)
    else None
  }

  function RestrictionToJson(x: Restriction): Json {
    Num(RestrictionToU8(x) as int)
  }

  function RestrictionFromJson(j: Json): (r: Option<Restriction>)
    ensures r.Some? <==> j.Num? && 0 <= j.n <= 2
    ensures r.Some? ==> RestrictionToJson(r.value) == j
  {
    match j
    case Num(n) => if 0 <= n < 0x100 then RestrictionFromU8(n as u8) else None
    case _ => None
  }

  lemma RestrictionRoundTrip(x: Restriction)
    ensures RestrictionFromU8(RestrictionToU8(x)) == Some(x)
    ensures RestrictionFromJson(RestrictionToJson(x)) == Some(x)
  {
  }

  /** The reply envelope `WrappedResponse<T>`. */
  datatype WrappedResponse<T> = WrappedResponse(error: bool, message: string, body: Option<T>)

  /** An envelope the conversion accepts: `body.unwrap()` panics on a non-error envelope without a body. */
  predicate Unwrappable<T>(w: WrappedResponse<T>) {
    w.error || w.body.Some?
  }

  /** `From<WrappedResponse<T>> for Result<T>`: the error flag wins, otherwise the body is the value. */
  function IntoResult<T>(w: WrappedResponse<T>): (r: Result<T, Error>)
    requires Unwrappable(w)
    ensures r.Err? <==> w.error
    ensures r.Err? ==> r.error == PixivError(w.message)
    ensures r.Ok? ==> w.body == Some(r.value)
  {
    if w.error then Err(PixivError(w.message)) else Ok(w.body.value)
  }

  /** With the error flag set, the body plays no part in the outcome. */
  lemma ErrorFlagIgnoresBody<T>(message: string, b1: Option<T>, b2: Option<T>)
    ensures IntoResult(WrappedResponse(true, message, b1)) == IntoResult(WrappedResponse(true, message, b2))
  {
  }

  /** None of the three known fields is repeated; any other key may occur any number of times. */
  predicate FieldsOnce(es: seq<(string, Json)>) {
    Occurrences(es, "error") <= 1 && Occurrences(es, "message") <= 1 && Occurrences(es, "body") <= 1
  }

  /**
   * Derived `Deserialize` for the envelope, read from a JSON object: `error`
   * must be a boolean and `message` a string; `body` is optional, and absent
   * or `null` gives `None`, but a body that is there must decode as `T`.
   * A repeated known field is an error; unknown fields are ignored.
   */
  function DecodeEnvelope<T>(j: Json, dec: Json -> Option<T>): (r: Option<WrappedResponse<T>>)
    ensures r.Some? ==> j.Obj? && Lookup(j.entries, "error") == Some(Bool(r.value.error))
    ensures r.Some? ==> Lookup(j.entries, "message") == Some(Str(r.value.message))
    ensures r.Some? ==> (r.value.body.None? <==> Lookup(j.entries, "body") in {None, Some(Null)})
    ensures r.Some? && r.value.body.Some? ==> dec(Lookup(j.entries, "body").value) == r.value.body
    ensures r.Some? ==> FieldsOnce(j.entries)
    ensures j.Obj? && !FieldsOnce(j.entries) ==> r.None?
    ensures (j.Obj? && FieldsOnce(j.entries) &&
             Lookup(j.entries, "error").Some? && Lookup(j.entries, "error").value.Bool? &&
             Lookup(j.entries, "message").Some? && Lookup(j.entries, "message").value.Str? &&
             (Lookup(j.entries, "body") in {None, Some(Null)} || dec(Lookup(j.entries, "body").value).Some?))
      ==> r.Some?
  {
    match j
    case Obj(es) =>
      if !FieldsOnce(es) then None
      else EnvelopeOf(Lookup(es, "error"), Lookup(es, "message"), Lookup(es, "body"), dec)
    case _ => None
  }

  /** The envelope read from what the three fields hold, once none of them is repeated. */
  function EnvelopeOf<T>(error: Option<Json>, message: Option<Json>, body: Option<Json>, dec: Json -> Option<T>)
    : (r: Option<WrappedResponse<T>>)
    ensures r.Some? ==> error == Some(Bool(r.value.error)) && message == Some(Str(r.value.message))
    ensures r.Some? ==> (r.value.body.None? <==> body in {None, Some(Null)})
    ensures r.Some? && r.value.body.Some? ==> dec(body.value) == r.value.body
    ensures (error.Some? && error.value.Bool? && message.Some? && message.value.Str? &&
             (body in {None, Some(Null)} || dec(body.value).Some?)) ==> r.Some?
  {
    match (error, message)
    case (Some(Bool(e)), Some(Str(m))) =>
      (match body
       case None => Some(WrappedResponse(e, m, None))
       case Some(Null) => Some(WrappedResponse(e, m, None))
       case Some(b) =>
         (match dec(b)
          case None => None
          case Some(v) => Some(WrappedResponse(e, m, Some(v)))))
    case _ => None
  }

  /** An entry under another key changes neither the count nor the lookup of `f`. */
  lemma {:induction false} OtherKeyInvisible(es: seq<(string, Json)>, k: string, v: Json, f: string)
    requires k != f
    ensures Occurrences(es + [(k, v)], f) == Occurrences(es, f)
    ensures Lookup(es + [(k, v)], f) == Lookup(es, f)
  {
    if es == [] {
      assert ([] + [(k, v)])[1..] == [];
    } else {
      assert (es + [(k, v)])[1..] == es[1..] + [(k, v)];
      OtherKeyInvisible(es[1..], k, v, f);
    }
  }

  /** Unknown fields are ignored: an extra entry under any other key leaves the outcome as it was. */
  lemma UnknownFieldIgnored<T>(es: seq<(string, Json)>, k: string, v: Json, dec: Json -> Option<T>)
    requires k != "error" && k != "message" && k != "body"
    ensures DecodeEnvelope(Obj(es + [(k, v)]), dec) == DecodeEnvelope(Obj(es), dec)
  {
    var es' := es + [(k, v)];
    OtherKeyInvisible(es, k, v, "error");
    OtherKeyInvisible(es, k, v, "message");
    OtherKeyInvisible(es, k, v, "body");
    assert FieldsOnce(es') == FieldsOnce(es);
    assert DecodeEnvelope(Obj(es'), dec) ==
      if !FieldsOnce(es') then None
      else EnvelopeOf(Lookup(es', "error"), Lookup(es', "message"), Lookup(es', "body"), dec);
  }

  /** Derived `Serialize` for the envelope: the three fields in order, `None` as `null`. */
  function EncodeEnvelope<T>(w: WrappedResponse<T>, enc: T -> Json): Json {
    Obj([("error", Bool(w.error)),
         ("message", Str(w.message)),
         ("body", match w.body case None => Null case Some(b) => enc(b))])
  }

  /**
   * Decoding what serialising produced gives the envelope back, provided the
   * body's own encoding round-trips and is not `null`.
   */
  lemma EnvelopeRoundTrip<T>(w: WrappedResponse<T>, enc: T -> Json, dec: Json -> Option<T>)
    requires w.body.Some? ==> enc(w.body.value) != Null && dec(enc(w.body.value)) == w.body
    ensures DecodeEnvelope(EncodeEnvelope(w, enc), dec) == Some(w)
  {
    var es := EncodeEnvelope(w, enc).entries;
    assert |"error"| == 5 && |"message"| == 7 && |"body"| == 4;  // the three field names differ
    assert es[1..][1..][1..] == [];
    var t1, t2 := es[1..], es[1..][1..];
    assert Occurrences(t2, "error") == 0 && Occurrences(t2, "message") == 0 && Occurrences(t2, "body") == 1;
    assert Occurrences(t1, "error") == 0 && Occurrences(t1, "message") == 1 && Occurrences(t1, "body") == 1;
    assert Occurrences(es, "error") == 1 && Occurrences(es, "message") == 1 && Occurrences(es, "body") == 1;
    assert Lookup(es, "error") == Some(Bool(w.error));
    assert Lookup(es, "message") == Some(Str(w.message));
    assert Lookup(es, "body") == Some(es[2].1);
    var r := EnvelopeOf(Some(Bool(w.error)), Some(Str(w.message)), Some(es[2].1), dec);
    assert DecodeEnvelope(Obj(es), dec) == r;
    assert r.Some? && r.value.error == w.error && r.value.message == w.message;
  }

  /** A reply with the body left out decodes with `body == None`. */
  lemma OmittedBodyIsNone<T>(e: bool, m: string, dec: Json -> Option<T>)
    ensures DecodeEnvelope(Obj([("error", Bool(e)), ("message", Str(m))]), dec) == Some(WrappedResponse(e, m, None))
  {
    var es := [("error", Bool(e)), ("message", Str(m))];
    assert |"error"| == 5 && |"message"| == 7 && |"body"| == 4;  // the three field names differ
    assert es[1..][1..] == [];
    forall k ensures Occurrences(es, k) == (if k in ["error", "message"] then 1 else 0) {
      assert Occurrences(es[1..], k) == (if k == "message" then 1 else 0);
    }
    assert Lookup(es, "error") == Some(Bool(e));
    assert Lookup(es, "message") == Some(Str(m));
  }

  /**
   * A body present but not decodable as `T` fails the whole envelope, even
   * when `error` is set: the server's message is then never read.
   */
  lemma MalformedBodyFailsEnvelope<T>(m: string, b: Json, dec: Json -> Option<T>)
    requires b != Null && dec(b).None?
    ensures DecodeEnvelope(Obj([("error", Bool(true)), ("message", Str(m)), ("body", b)]), dec).None?
  {
    var es := [("error", Bool(true)), ("message", Str(m)), ("body", b)];
    assert |"error"| == 5 && |"message"| == 7 && |"body"| == 4;  // the three field names differ
    assert es[1..][1..][1..] == [];
    assert Lookup(es, "body") == Some(b);
  }
}
