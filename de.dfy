/**
 * The field deserializers of `src/de.rs`. The upstream API sends some
 * collections either as a JSON object or as a JSON array; both helpers try
 * the untagged enum `HashMapOrVec` variant by variant (the map first, then
 * the sequence) and flatten whichever matched into a plain sequence.
 *
 * "Decode as T" is a parameter: `dec` decodes a JSON value, `kdec` decodes
 * an object key. A `HashMap` enumerates in an unspecified order; the model
 * enumerates in entry order, and every contract below speaks only of
 * multisets and sets for the map variant, so no caller may rely on order.
 */
module De {
  import opened Wrappers
  import opened Json

  /** The error serde reports when no variant of an untagged enum matches. */
  const UNTAGGED_MISMATCH: string := "data did not match any variant of untagged enum HashMapOrVec"

  /** Decodes every element; one failure fails the whole sequence. */
  function DecodeEach<X, T>(xs: seq<X>, dec: X -> Option<T>): (r: Option<seq<T>>)
    ensures r.Some? <==> forall i :: 0 <= i < |xs| ==> dec(xs[i]).Some?
    ensures r.Some? ==> |r.value| == |xs| && forall i :: 0 <= i < |xs| ==> dec(xs[i]) == Some(r.value[i])
  {
    if xs == [] then Some([])
    else
      match dec(xs[0])
      case None => None
      case Some(x) =>
        match DecodeEach(xs[1..], dec)
        case None => None
        case Some(rest) => Some([x] + rest)
  }

  /**
   * The entries a `HashMap` built from `es` holds: one per key, the last
   * one inserted for that key (`LastPerKeyIsLastWrite`).
   */
  function LastPerKey(es: seq<(string, Json)>): (r: seq<(string, Json)>)
    ensures DistinctKeys(r)
    ensures forall e :: e in r ==> e in es
    ensures |r| <= |es| && (es != [] ==> r != [])
    ensures DistinctKeys(es) ==> r == es
  {
    if es == [] then []
    else
      var rest := LastPerKey(es[1..]);
      if HasKey(es[1..], es[0].0) then rest
      else
        assert forall e :: e in rest ==> e.0 != es[0].0 by {
          forall e | e in rest ensures e.0 != es[0].0 {
            var i :| 0 <= i < |es[1..]| && es[1..][i] == e;
          }
        }
        [es[0]] + rest
  }

  /** No later entry than the one at `i` carries its key: inserting `es` in order leaves that entry. */
  predicate LastWrite(es: seq<(string, Json)>, i: int)
    requires 0 <= i < |es|
  {
    forall j :: i < j < |es| ==> es[j].0 != es[i].0
  }

  /** `HashMap::insert` semantics, first half: every key inserted keeps an entry. */
  lemma {:induction false} LastPerKeyKeepsEveryKey(es: seq<(string, Json)>)
    ensures forall i :: 0 <= i < |es| ==> HasKey(LastPerKey(es), es[i].0)
  {
    if es != [] {
      var tail := es[1..];
      LastPerKeyKeepsEveryKey(tail);
      var rest := LastPerKey(tail);
      forall i | 0 <= i < |es| ensures HasKey(LastPerKey(es), es[i].0) {
        var k := es[i].0;
        if HasKey(tail, k) {
          var j :| 0 <= j < |tail| && tail[j].0 == k;
          assert HasKey(rest, tail[j].0);
          HasKeyCons(es[0], rest, k);
        } else {
          assert i == 0;
          HasKeyCons(es[0], rest, k);
        }
      }
    }
  }

  /** Putting an entry in front keeps every key and adds its own. */
  lemma HasKeyCons(e: (string, Json), es: seq<(string, Json)>, k: string)
    ensures HasKey(es, k) ==> HasKey([e] + es, k)
    ensures HasKey([e] + es, e.0)
  {
    if HasKey(es, k) {
      var j :| 0 <= j < |es| && es[j].0 == k;
      assert ([e] + es)[j + 1].0 == k;
    }
    assert ([e] + es)[0].0 == e.0;
  }

  /** An entry last for its key in `es[1..]` is last for it in `es`. */
  lemma LastWriteShift(es: seq<(string, Json)>, k: int)
    requires 0 <= k < |es| - 1
    requires LastWrite(es[1..], k)
    ensures LastWrite(es, k + 1)
  {
    forall j | k + 1 < j < |es| ensures es[j].0 != es[k + 1].0 {
      assert es[j] == es[1..][j - 1];
    }
  }

  /** `HashMap::insert` semantics, second half: the entry kept for a key is the last one inserted with it. */
  lemma {:induction false} LastPerKeyIsLastWrite(es: seq<(string, Json)>)
    ensures forall e :: e in LastPerKey(es) ==> exists i :: 0 <= i < |es| && es[i] == e && LastWrite(es, i)
  {
    if es != [] {
      var tail := es[1..];
      LastPerKeyIsLastWrite(tail);
      var r := LastPerKey(es);
      forall e | e in r ensures exists i :: 0 <= i < |es| && es[i] == e && LastWrite(es, i) {
        if e in LastPerKey(tail) {
          var k :| 0 <= k < |tail| && tail[k] == e && LastWrite(tail, k);
          LastWriteShift(es, k);
          assert es[k + 1] == e;
        } else {
          assert !HasKey(tail, es[0].0) && e == es[0];
          forall j | 0 < j < |es| ensures es[j].0 != es[0].0 {
            assert es[j] == tail[j - 1];
          }
          assert LastWrite(es, 0);
        }
      }
    }
  }

  /** Some entry carries key `k`. */
  predicate HasKey(es: seq<(string, Json)>, k: string) {
    exists i :: 0 <= i < |es| && es[i].0 == k
  }

  /** `s` without repeated elements (what collecting the keys of a `HashMap` leaves). */
  function Dedup<T(==)>(s: seq<T>): (r: seq<T>)
    ensures forall i, j :: 0 <= i < j < |r| ==> r[i] != r[j]
    ensures forall i :: 0 <= i < |r| ==> r[i] in s
    ensures forall i :: 0 <= i < |s| ==> s[i] in r
    ensures (forall i, j :: 0 <= i < j < |s| ==> s[i] != s[j]) ==> r == s
  {
    if s == [] then []
    else if s[0] in s[1..] then Dedup(s[1..])
    else [s[0]] + Dedup(s[1..])
  }

  /** Rust's unit `()` decodes from JSON `null` only. */
  predicate IsUnit(j: Json) {
    j == Null
  }

  /** Variant `HashMap(HashMap<String, T>)`: an object all of whose values decode. */
  function AsValueMap<T>(j: Json, dec: Json -> Option<T>): (r: Option<seq<T>>)
    ensures r.Some? ==> j.Obj?
    ensures j.Obj? ==> (r.Some? <==> forall i :: 0 <= i < |j.entries| ==> dec(j.entries[i].1).Some?)
    ensures r.Some? ==>
      forall a :: 0 <= a < |r.value| ==> exists e :: e in j.entries && dec(e.1) == Some(r.value[a])
    ensures r.Some? ==>
      |r.value| == |LastPerKey(j.entries)| &&
      multiset(r.value) == DecodedValues(LastPerKey(j.entries), dec)
    ensures r.Some? && DistinctKeys(j.entries) ==> |r.value| == |j.entries|
  {
    match j
    case Obj(es) =>
      // every value is decoded, also one that a later entry with the same key replaces
      if DecodeEach(Values(es), dec).None? then
        assert exists i :: 0 <= i < |es| && dec(Values(es)[i]).None?;
        None
      else
        var kept := LastPerKey(es);
        KeptValuesDecode(es, dec);
        var r := DecodeEach(Values(kept), dec);
        assert forall a :: 0 <= a < |r.value| ==> kept[a] in es && dec(kept[a].1) == Some(r.value[a]);
        assert forall a :: 0 <= a < |kept| ==> Values(kept)[a] == kept[a].1;
        DecodeEachValues(kept, dec);
        r
    case _ => None
  }

  /** The entries a map keeps are among those already checked to decode. */
  lemma KeptValuesDecode<T>(es: seq<(string, Json)>, dec: Json -> Option<T>)
    requires DecodeEach(Values(es), dec).Some?
    ensures forall i :: 0 <= i < |es| ==> dec(es[i].1).Some?
    ensures forall a :: 0 <= a < |LastPerKey(es)| ==> dec(Values(LastPerKey(es))[a]).Some?
  {
    assert forall i :: 0 <= i < |es| ==> Values(es)[i] == es[i].1;
    var kept := LastPerKey(es);
    forall a | 0 <= a < |kept| ensures dec(Values(kept)[a]).Some? {
      assert kept[a] in kept;
      var i :| 0 <= i < |es| && es[i] == kept[a];
      assert dec(Values(es)[i]).Some?;
    }
  }

  /** Variant `HashMap(HashMap<T, ()>)`: an object whose keys decode and whose values are all unit. */
  function AsKeySet<T(==)>(j: Json, kdec: string -> Option<T>): (r: Option<seq<T>>)
    ensures r.Some? ==> j.Obj?
    ensures j.Obj? ==>
      (r.Some? <==> forall i :: 0 <= i < |j.entries| ==> IsUnit(j.entries[i].1) && kdec(j.entries[i].0).Some?)
    ensures r.Some? ==> forall a, b :: 0 <= a < b < |r.value| ==> r.value[a] != r.value[b]
    ensures r.Some? ==>
      forall a :: 0 <= a < |r.value| ==> exists i :: 0 <= i < |j.entries| && kdec(j.entries[i].0) == Some(r.value[a])
    ensures r.Some? ==> forall i :: 0 <= i < |j.entries| ==> kdec(j.entries[i].0).value in r.value
  {
    match j
    case Obj(es) =>
      if !(forall i :: 0 <= i < |es| ==> IsUnit(es[i].1)) then None
      else
        var names := Keys(es);
        assert forall i :: 0 <= i < |es| ==> names[i] == es[i].0;
        (match DecodeEach(names, kdec)
         case None => None
         case Some(ks) =>
           KeySetFacts(es, kdec, ks);
           Some(Dedup(ks)))
    case _ => None
  }

  /** The distinct decoded keys: each comes from an entry, and every entry's key is among them. */
  lemma KeySetFacts<T>(es: seq<(string, Json)>, kdec: string -> Option<T>, ks: seq<T>)
    requires DecodeEach(Keys(es), kdec) == Some(ks)
    ensures forall a :: 0 <= a < |Dedup(ks)| ==> exists i :: 0 <= i < |es| && kdec(es[i].0) == Some(Dedup(ks)[a])
    ensures forall i :: 0 <= i < |es| ==> kdec(es[i].0) == Some(ks[i]) && ks[i] in Dedup(ks)
  {
    var r := Dedup(ks);
    assert forall i :: 0 <= i < |es| ==> Keys(es)[i] == es[i].0;
    assert forall i :: 0 <= i < |es| ==> kdec(es[i].0) == Some(ks[i]);
    forall a | 0 <= a < |r| ensures exists i :: 0 <= i < |es| && kdec(es[i].0) == Some(r[a]) {
      var i :| 0 <= i < |ks| && ks[i] == r[a];
      assert kdec(es[i].0) == Some(r[a]);
    }
  }

  /** Variant `Vec(Vec<T>)`: an array all of whose elements decode. */
  function AsVec<T>(j: Json, dec: Json -> Option<T>): (r: Option<seq<T>>)
    ensures r.Some? ==> j.Arr?
    ensures j.Arr? ==> (r.Some? <==> forall i :: 0 <= i < |j.items| ==> dec(j.items[i]).Some?)
    ensures r.Some? ==>
      |r.value| == |j.items| && forall i :: 0 <= i < |j.items| ==> dec(j.items[i]) == Some(r.value[i])
  {
    match j
    case Arr(xs) => DecodeEach(xs, dec)
    case _ => None
  }

  /** `dict_value_to_vec`: the object's values, or the array as it is. */
  function DictValueToVec<T>(j: Json, dec: Json -> Option<T>): (r: Result<seq<T>, string>)
    ensures r.Err? ==> r.error == UNTAGGED_MISMATCH
    ensures !j.Obj? && !j.Arr? ==> r.Err?
    ensures j.Arr? ==> (r.Ok? <==> forall i :: 0 <= i < |j.items| ==> dec(j.items[i]).Some?)
    ensures j.Arr? && r.Ok? ==>
      |r.value| == |j.items| && forall i :: 0 <= i < |j.items| ==> dec(j.items[i]) == Some(r.value[i])
    ensures j.Obj? ==> (r.Ok? <==> forall i :: 0 <= i < |j.entries| ==> dec(j.entries[i].1).Some?)
    ensures j.Obj? && r.Ok? ==>
      forall a :: 0 <= a < |r.value| ==> exists e :: e in j.entries && dec(e.1) == Some(r.value[a])
    ensures j.Obj? && r.Ok? ==>
      |r.value| == |LastPerKey(j.entries)| &&
      multiset(r.value) == DecodedValues(LastPerKey(j.entries), dec)
    ensures j.Obj? && r.Ok? && DistinctKeys(j.entries) ==> |r.value| == |j.entries|
  {
    match AsValueMap(j, dec)
    case Some(vs) => Ok(vs)
    case None =>
      match AsVec(j, dec)
      case Some(xs) => Ok(xs)
      case None => Err(UNTAGGED_MISMATCH)
  }

  /** `dict_key_to_vec`: the object's keys (its values must be unit), or the array as it is. */
  function DictKeyToVec<T(==)>(j: Json, kdec: string -> Option<T>, dec: Json -> Option<T>): (r: Result<seq<T>, string>)
    ensures r.Err? ==> r.error == UNTAGGED_MISMATCH
    ensures !j.Obj? && !j.Arr? ==> r.Err?
    ensures j.Arr? ==> (r.Ok? <==> forall i :: 0 <= i < |j.items| ==> dec(j.items[i]).Some?)
    ensures j.Arr? && r.Ok? ==>
      |r.value| == |j.items| && forall i :: 0 <= i < |j.items| ==> dec(j.items[i]) == Some(r.value[i])
    ensures j.Obj? ==>
      (r.Ok? <==> forall i :: 0 <= i < |j.entries| ==> IsUnit(j.entries[i].1) && kdec(j.entries[i].0).Some?)
    ensures j.Obj? && r.Ok? ==> forall a, b :: 0 <= a < b < |r.value| ==> r.value[a] != r.value[b]
    ensures j.Obj? && r.Ok? ==>
      forall a :: 0 <= a < |r.value| ==> exists i :: 0 <= i < |j.entries| && kdec(j.entries[i].0) == Some(r.value[a])
    ensures j.Obj? && r.Ok? ==>
      forall i :: 0 <= i < |j.entries| ==> kdec(j.entries[i].0).value in r.value
  {
    match AsKeySet(j, kdec)
    case Some(ks) => Ok(ks)
    case None =>
      match AsVec(j, dec)
      case Some(xs) => Ok(xs)
      case None => Err(UNTAGGED_MISMATCH)
  }

  /** The multiset of what the entries' values decode to; entry order plays no part in it. */
  ghost function DecodedValues<T>(es: seq<(string, Json)>, dec: Json -> Option<T>): multiset<T> {
    if es == [] then multiset{}
    else (match dec(es[0].1) case Some(v) => multiset{v} case None => multiset{}) + DecodedValues(es[1..], dec)
  }

  lemma {:induction false} DecodeEachValues<T>(es: seq<(string, Json)>, dec: Json -> Option<T>)
    requires forall i :: 0 <= i < |es| ==> dec(es[i].1).Some?
    ensures DecodeEach(Values(es), dec).Some?
    ensures multiset(DecodeEach(Values(es), dec).value) == DecodedValues(es, dec)
  {
    assert forall i :: 0 <= i < |es| ==> Values(es)[i] == es[i].1;
    if es != [] {
      assert Values(es)[1..] == Values(es[1..]);
      DecodeEachValues(es[1..], dec);
      var r := DecodeEach(Values(es), dec).value;
      assert r == [dec(es[0].1).value] + DecodeEach(Values(es[1..]), dec).value;
    }
  }

  /**
   * On an object with distinct keys whose values all decode,
   * `dict_value_to_vec` yields exactly the multiset of decoded values.
   */
  lemma DictValueToVecObjectMultiset<T>(es: seq<(string, Json)>, dec: Json -> Option<T>)
    requires DistinctKeys(es)
    requires forall i :: 0 <= i < |es| ==> dec(es[i].1).Some?
    ensures DictValueToVec(Obj(es), dec).Ok?
    ensures multiset(DictValueToVec(Obj(es), dec).value) == DecodedValues(es, dec)
  {
    DecodeEachValues(es, dec);
    assert LastPerKey(es) == es;
    assert AsValueMap(Obj(es), dec) == DecodeEach(Values(es), dec);
  }

  /** An empty object and an empty array normalise to the same empty sequence, for both helpers. */
  lemma EmptyShapesAgree<T>(kdec: string -> Option<T>, dec: Json -> Option<T>)
    ensures DictValueToVec(Obj([]), dec) == DictValueToVec(Arr([]), dec) == Ok([])
    ensures DictKeyToVec(Obj([]), kdec, dec) == DictKeyToVec(Arr([]), kdec, dec) == Ok([])
  {
  }

  /**
   * When distinct keys decode to distinct values, `dict_key_to_vec` yields
   * one element per entry (no key is lost to deduplication).
   */
  lemma DictKeyToVecCount<T>(es: seq<(string, Json)>, kdec: string -> Option<T>, dec: Json -> Option<T>)
    requires forall i :: 0 <= i < |es| ==> IsUnit(es[i].1) && kdec(es[i].0).Some?
    requires forall i, j :: 0 <= i < j < |es| ==> kdec(es[i].0) != kdec(es[j].0)
    ensures DictKeyToVec(Obj(es), kdec, dec).Ok?
    ensures |DictKeyToVec(Obj(es), kdec, dec).value| == |es|
  {
    var names := Keys(es);
    assert forall i :: 0 <= i < |es| ==> names[i] == es[i].0;
    var ks := DecodeEach(names, kdec).value;
    assert forall i, j :: 0 <= i < j < |ks| ==> ks[i] != ks[j] by {
      forall i, j | 0 <= i < j < |ks| ensures ks[i] != ks[j] {
        assert kdec(names[i]) == Some(ks[i]) && kdec(names[j]) == Some(ks[j]);
      }
    }
  }
}
