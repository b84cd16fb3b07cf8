/** The values `response.json()` can produce, as far as the sports service and
    the favourites list look at them: their JavaScript truthiness, whether
    they are arrays, and the fields of objects. */
module JsonData {
  import opened Wrappers

  /** A parsed JSON value. Numbers are integers: fractions, exponents and NaN
      play no part in the decisions modelled here. Object fields keep their
      textual order, duplicates included. */
  datatype Json =
    | JNull
    | JBool(b: bool)
    | JNumber(n: int)
    | JString(s: string)
    | JArray(items: seq<Json>)
    | JObject(fields: seq<(string, Json)>)

  /** `if (value)` in JavaScript: `null`, `false`, `0` and `""` are falsy;
      every array and every object is truthy, even an empty one. */
  predicate Truthy(j: Json) {
    match j
    case JNull => false
    case JBool(b) => b
    case JNumber(n) => n != 0
    case JString(s) => s != ""
    case JArray(_) => true
    case JObject(_) => true
  }

  /** The value `JSON.parse` gives to `name` in an object written with these
      fields: a later duplicate overrides an earlier one. */
  function Field(fields: seq<(string, Json)>, name: string): (r: Option<Json>)
    ensures r.None? <==> forall i :: 0 <= i < |fields| ==> fields[i].0 != name
    ensures r.Some? ==>
              exists i :: 0 <= i < |fields| && fields[i] == (name, r.value)
                          && forall j :: i < j < |fields| ==> fields[j].0 != name
    decreases |fields|
  {
    if |fields| == 0 then None
    else if fields[|fields| - 1].0 == name then Some(fields[|fields| - 1].1)
    else Field(fields[..|fields| - 1], name)
  }

  /** Appending a field of another name leaves a lookup unchanged, and
      appending one of the same name decides it. */
  lemma {:induction false} FieldOfAppended(fields: seq<(string, Json)>, name: string, value: Json, other: string)
    ensures Field(fields + [(name, value)], name) == Some(value)
    ensures other != name ==> Field(fields + [(name, value)], other) == Field(fields, other)
  {
    assert (fields + [(name, value)])[..|fields|] == fields;
  }
}
