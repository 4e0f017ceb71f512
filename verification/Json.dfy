/** JSON documents as a parser returns them. An object keeps its fields in document order, with
    distinct names. */
module Json {
  import opened Wrappers

  datatype Json =
    | Null
    | Bool(b: bool)
    | Int(i: int)
    | Float(x: real)
    | Text(text: string)
    | Array(items: seq<Json>)
    | Object(fields: seq<(string, Json)>)

  function Get(fields: seq<(string, Json)>, key: string): (r: Option<Json>)
    ensures r.Some? <==> exists k :: 0 <= k < |fields| && fields[k].0 == key
    ensures r.Some? ==> exists k :: 0 <= k < |fields| && fields[k] == (key, r.value)
  {
    if fields == [] then None
    else if fields[0].0 == key then Some(fields[0].1)
    else
      assert forall k :: 0 <= k < |fields| - 1 ==> fields[1..][k] == fields[k + 1];
      Get(fields[1..], key)
  }

  /** A non-negative integer; a bool is none. */
  predicate IsUint(v: Json) { v.Int? && v.i >= 0 }

  /** Non-empty text. */
  predicate IsText(v: Json) { v.Text? && v.text != "" }
}
