/** The JavaScript values the prompt generator passes around: JSON documents,
    the outcome of an operation that may throw, and what a throw carries. */
module Json {

  datatype Option<+T> = None | Some(value: T)

  /** What a `throw` carries. A catch clause that tests `error instanceof Error`
      can read the message of an Error object and nothing of any other value. */
  datatype Thrown = ErrorObject(message: string) | OtherValue

  /** How an operation that may throw (or a promise that may reject) ends. */
  datatype Outcome<+T> = Ok(value: T) | Threw(thrown: Thrown)

  /** A parsed JSON document. Numbers are kept as integers: nothing in the model
      inspects them. An object is a map because JSON.parse keeps only the last of
      several members with the same name. */
  datatype Json =
    | JNull
    | JBool(b: bool)
    | JNumber(n: int)
    | JString(s: string)
    | JArray(items: seq<Json>)
    | JObject(fields: map<string, Json>)

  /** `value[key]` for a value that is not null: an own member of an object, and
      undefined (None) for every other kind of value or a missing member.
      Reading a property of null throws, so callers test for JNull first. */
  function Get(value: Json, key: string): (r: Option<Json>)
    requires !value.JNull?
    ensures r.Some? <==> value.JObject? && key in value.fields
    ensures r.Some? ==> r.value == value.fields[key]
  {
    match value
    case JObject(fields) => if key in fields then Some(fields[key]) else None
    case _ => None
  }
}
