/** Parsed JSON values and the few JavaScript semantics the comment adapter
    relies on: property access (which fails on `null`), truthiness for the
    `x || default` idiom, and the string form `String(x)` of a scalar. */
module JsValues {
  import opened Strings

  /** A value produced by `JSON.parse`. Numbers are modelled as integers; an
      object keeps its members in source order (duplicates allowed). */
  datatype Json =
    | JNull
    | JBool(b: bool)
    | JNum(n: int)
    | JStr(s: string)
    | JArr(items: seq<Json>)
    | JObj(members: seq<(string, Json)>)

  /** The result of reading a property: `undefined` or a JSON value. */
  datatype JsValue = Undefined | Defined(value: Json)

  /** An optional value (Python `None` or a value). */
  datatype Option<T> = None | Some(value: T)

  /** The outcome of an operation that may throw; `Err` carries `error.message`. */
  datatype Result<T> = Ok(value: T) | Err(message: string)

  /** JavaScript truthiness of a JSON value. */
  predicate Truthy(v: Json)
  {
    match v
    case JNull => false
    case JBool(b) => b
    case JNum(n) => n != 0
    case JStr(s) => s != ""
    case JArr(_) => true
    case JObj(_) => true
  }

  predicate TruthyValue(v: JsValue)
  {
    v.Defined? && Truthy(v.value)
  }

  /** `v || d`: the value itself when truthy, the default otherwise. */
  function Or(v: JsValue, d: Json): (r: Json)
    ensures TruthyValue(v) ==> r == v.value
    ensures !TruthyValue(v) ==> r == d
  {
    if TruthyValue(v) then v.value else d
  }

  /** The member `key` of an object; `JSON.parse` keeps the last of duplicates. */
  function Member(members: seq<(string, Json)>, key: string): JsValue
  {
    if |members| == 0 then Undefined
    else if members[|members| - 1].0 == key then Defined(members[|members| - 1].1)
    else Member(members[..|members| - 1], key)
  }

  /** `v.key` for the plain keys the adapter reads (none of them is a property
      of a prototype): an object yields its member, any other non-null value
      yields `undefined`, and `null` throws a TypeError (V8's wording). */
  function Get(v: Json, key: string): (r: Result<JsValue>)
    ensures r.Err? <==> v == JNull
  {
    match v
    case JNull => Err("Cannot read properties of null (reading '" + key + "')")
    case JObj(members) => Ok(Member(members, key))
    case _ => Ok(Undefined)
  }

  /** Not an array or object: a value `String(x)` and template literals
      render without walking its contents. */
  predicate Scalar(v: Json)
  {
    !v.JArr? && !v.JObj?
  }

  /** `String(x)` of a scalar JSON value. */
  function ScalarString(v: Json): string
    requires Scalar(v)
  {
    match v
    case JNull => "null"
    case JBool(b) => if b then "true" else "false"
    case JNum(n) => IntToString(n)
    case JStr(s) => s
  }

  /** The string a text-processing helper sees: the string itself, or the empty
      string for any other scalar (all of which give the helpers' falsy or
      zero-length behaviour). */
  function TextOf(v: Json): string
  {
    if v.JStr? then v.s else ""
  }
}
