/** JSON values as `json.loads` returns them, and the Python operations the
    backend applies to them: `key in value`, `value[key]`, `value.get(key, d)`,
    hashability and `str(value)`. Each operation fails exactly where Python
    raises. */
module Json {
  import opened Wrappers
  import opened PyStr

  /** A decoded JSON document. Floats are not modelled. */
  datatype Json =
    | JNull
    | JBool(b: bool)
    | JInt(i: int)
    | JStr(s: string)
    | JArr(items: seq<Json>)
    | JObj(fields: map<string, Json>)

  datatype PyError = TypeError | KeyError | AttributeError

  /** `key in c` with a `str` key: a dict tests its keys, a list its elements,
      a str its substrings; numbers, booleans and None raise TypeError. */
  function In(key: string, c: Json): (r: Result<bool, PyError>)
    ensures r.Err? <==> c.JNull? || c.JBool? || c.JInt?
    ensures c.JObj? ==> r == Ok(key in c.fields)
  {
    match c
    case JObj(f) => Ok(key in f)
    case JArr(items) => Ok(JStr(key) in items)
    case JStr(s) => Ok(Contains(s, key))
    case _ => Err(TypeError)
  }

  /** `c[key]` with a `str` key: only a dict holding the key succeeds. */
  function GetItem(c: Json, key: string): (r: Result<Json, PyError>)
    ensures r.Ok? <==> c.JObj? && key in c.fields
    ensures r.Ok? ==> r.value == c.fields[key]
    ensures c.JObj? && key !in c.fields ==> r == Err(KeyError)
    ensures !c.JObj? ==> r == Err(TypeError)
  {
    match c
    case JObj(f) => if key in f then Ok(f[key]) else Err(KeyError)
    case _ => Err(TypeError)
  }

  /** `c.get(key, default)`: anything but a dict has no `get`. */
  function Get(c: Json, key: string, default: Json): (r: Result<Json, PyError>)
    ensures r.Err? <==> !c.JObj?
    ensures c.JObj? && key !in c.fields ==> r == Ok(default)
    ensures c.JObj? && key in c.fields ==> r == Ok(c.fields[key])
    ensures !c.JObj? ==> r == Err(AttributeError)
  {
    match c
    case JObj(f) => Ok(if key in f then f[key] else default)
    case _ => Err(AttributeError)
  }

  /** Lists and dicts cannot be dict keys or set members. */
  predicate Hashable(v: Json) {
    !v.JArr? && !v.JObj?
  }

  /** `str(v)`. The repr of a list or dict is delegated to `show`. */
  function Str(v: Json, show: Json -> string): string {
    match v
    case JNull => "None"
    case JBool(b) => if b then "True" else "False"
    case JInt(i) => Decimal(i)
    case JStr(s) => s
    case _ => show(v)
  }
}
