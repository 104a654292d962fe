/**
 * A JSON document as the deserializers see it. Numbers are integers
 * (fractional numbers are outside this model); an object keeps its entries in
 * document order, duplicates included, as the text had them.
 */
module Json {
  import opened Wrappers

  datatype Json =
    | Null
    | Bool(b: bool)
    | Num(n: int)
    | Str(s: string)
    | Arr(items: seq<Json>)
    | Obj(entries: seq<(string, Json)>)

  function Keys(es: seq<(string, Json)>): seq<string> {
    seq(|es|, i requires 0 <= i < |es| => es[i].0)
  }

  function Values(es: seq<(string, Json)>): seq<Json> {
    seq(|es|, i requires 0 <= i < |es| => es[i].1)
  }

  /** No key occurs twice among the entries. */
  predicate DistinctKeys(es: seq<(string, Json)>) {
    forall i, j :: 0 <= i < j < |es| ==> es[i].0 != es[j].0
  }

  /** How many entries carry key `k`. */
  function Occurrences(es: seq<(string, Json)>, k: string): nat {
    if es == [] then 0 else (if es[0].0 == k then 1 else 0) + Occurrences(es[1..], k)
  }

  /** The value of the first entry with key `k`. */
  function Lookup(es: seq<(string, Json)>, k: string): (r: Option<Json>)
    ensures r.None? <==> Occurrences(es, k) == 0
    ensures r.Some? ==> (k, r.value) in es
    ensures r.Some? ==>
      exists i :: 0 <= i < |es| && es[i] == (k, r.value) && forall j :: 0 <= j < i ==> es[j].0 != k
  {
    if es == [] then None else if es[0].0 == k then Some(es[0].1) else Lookup(es[1..], k)
  }
}
