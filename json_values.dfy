/** JSON documents as the validator sees them after `json.load`, with the
    few pieces of Python semantics the checks rely on: truthiness, `dict.get`,
    subscripting, and the equality that `set` and `list.count` use. */
module JsonValues {

  /** A parsed JSON value. Objects are dictionaries from keys to values. */
  datatype Json =
    | JNull
    | JBool(b: bool)
    | JInt(i: int)
    | JStr(s: string)
    | JArray(items: seq<Json>)
    | JObject(fields: map<string, Json>)

  /** One catalog entry: a JSON object. */
  type Entry = map<string, Json>

  datatype Option<T> = None | Some(value: T)

  /** The exceptions that can escape the validator uncaught. */
  datatype PyException =
    | KeyError     // `schema["items"]` on an object without that key, or
                   // difflib indexing an object icon by position
    | TypeError    // subscripting a non-object, hashing a list or object, or
                   // difflib taking a word it cannot iterate or hash
    | SchemaError  // the schema document is itself not a valid JSON schema

  datatype Result<T> = Ok(value: T) | Err(error: PyException)

  /** Python truthiness: None, False, 0, "", [] and {} are falsy. */
  predicate Truthy(v: Json) {
    match v
    case JNull => false
    case JBool(b) => b
    case JInt(i) => i != 0
    case JStr(s) => s != ""
    case JArray(a) => a != []
    case JObject(m) => m != map[]
  }

  /** `entry.get(key, default)`: the default is used only when the key is
      absent; JSON null and a missing key both read as None. */
  function Get(e: Entry, key: string, default: Json): Json {
    if key in e then e[key] else default
  }

  /** `container[key]` for a string key. */
  function Subscript(container: Json, key: string): (r: Result<Json>)
    ensures r.Ok? <==> container.JObject? && key in container.fields
    ensures r.Ok? ==> r.value == container.fields[key]
    ensures r.Err? ==> r.error == (if container.JObject? then KeyError else TypeError)
  {
    match container
    case JObject(m) => if key in m then Ok(m[key]) else Err(KeyError)
    case _ => Err(TypeError)
  }

  /** Lists and dictionaries cannot be put in a Python set. */
  predicate Hashable(v: Json) {
    !v.JArray? && !v.JObject?
  }

  /** The value a hashable JSON value is identified with by `==` and `hash`:
      True equals 1 and False equals 0, everything else only itself. */
  function Canon(v: Json): (k: Json)
    ensures v.JBool? ==> k == JInt(if v.b then 1 else 0)
    ensures !v.JBool? ==> k == v
    ensures !k.JBool?
    ensures Hashable(v) ==> Hashable(k)
    ensures Truthy(k) == Truthy(v)
  {
    match v
    case JBool(b) => JInt(if b then 1 else 0)
    case _ => v
  }
}
