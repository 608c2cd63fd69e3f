/**
 * The flat JSON objects exchanged between the extraction service and the
 * page: an ordered list of (key, value) entries, in the order
 * `Object.keys` reports them, each value a string or `null`.
 */
module Json {

  datatype Value = Null | Str(s: string)

  type Field = (string, Value)

  /** A flat JSON object; a parsed one has distinct keys (`DistinctKeys`). */
  type Record = seq<Field>

  /** No key occurs twice, as in any JavaScript object. */
  predicate DistinctKeys(rec: Record)
  {
    forall i, j :: 0 <= i < j < |rec| ==> rec[i].0 != rec[j].0
  }

  /** JavaScript truthiness of a value: `null` and `""` are falsy, every
      other string is truthy. */
  predicate Truthy(v: Value)
    ensures Truthy(v) <==> v != Null && v != Str("")
  {
    v.Str? && v.s != ""
  }
}
