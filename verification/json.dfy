/**
 * Decoded JSON values, as `json.load` hands them to the `from_dict` constructors, and the
 * dictionary accessors those constructors use. An object is an insertion-ordered dict.
 */
module JsonData {
  import opened Common
  import opened PyDict

  datatype Json =
    | JNull
    | JBool(b: bool)
    | JInt(i: int)
    | JStr(s: string)
    | JArr(items: seq<Json>)
    | JObj(fields: Dict<string, Json>)

  /** `data[key]`: raises KeyError when the key is missing. */
  function Required(data: Dict<string, Json>, key: string): (r: Result<Json>)
    ensures r.Ok? <==> Get(data, key).Some?
    ensures r.Ok? ==> Get(data, key) == Some(r.value)
  {
    match Get(data, key)
    case Some(v) => Ok(v)
    case None => Err("KeyError: " + key)
  }

  /** A JSON string; any other value is refused. */
  function AsString(j: Json): (r: Result<string>)
    ensures r.Ok? <==> j.JStr?
  {
    if j.JStr? then Ok(j.s) else Err("TypeError: expected a string")
  }

  /** A JSON integer; any other value is refused. */
  function AsInt(j: Json): (r: Result<int>)
    ensures r.Ok? <==> j.JInt?
  {
    if j.JInt? then Ok(j.i) else Err("TypeError: expected an integer")
  }

  /** A string or `null` (Python `str | None`). */
  function AsOptString(j: Json): (r: Result<Option<string>>)
    ensures r.Ok? <==> j.JStr? || j.JNull?
    ensures r == Ok(None) <==> j.JNull?
  {
    match j
    case JNull => Ok(None)
    case JStr(s) => Ok(Some(s))
    case _ => Err("TypeError: expected a string or null")
  }

  function FromOptString(o: Option<string>): (j: Json)
    ensures AsOptString(j) == Ok(o)
  {
    match o
    case None => JNull
    case Some(s) => JStr(s)
  }

  /** `data[key]` where the value must be a string. */
  function RequiredString(data: Dict<string, Json>, key: string): (r: Result<string>)
    ensures r.Ok? <==> Get(data, key).Some? && Get(data, key).value.JStr?
    ensures r.Ok? ==> Get(data, key) == Some(JStr(r.value))
  {
    var v :- Required(data, key);
    AsString(v)
  }

  /** `data[key]` where the value must be an integer. */
  function RequiredInt(data: Dict<string, Json>, key: string): (r: Result<int>)
    ensures r.Ok? <==> Get(data, key).Some? && Get(data, key).value.JInt?
    ensures r.Ok? ==> Get(data, key) == Some(JInt(r.value))
  {
    var v :- Required(data, key);
    AsInt(v)
  }

  /** `data.get(key, default)` for a `str | None` value. */
  function OptionalString(data: Dict<string, Json>, key: string, default: Option<string>): (r: Result<Option<string>>)
    ensures Get(data, key).None? ==> r == Ok(default)
    ensures Get(data, key).Some? ==> r == AsOptString(Get(data, key).value)
  {
    match Get(data, key)
    case None => Ok(default)
    case Some(v) => AsOptString(v)
  }

  /** What `for x in j` visits: list items, object keys, or the characters of a string. */
  function Iterate(j: Json): (r: Result<seq<Json>>)
    ensures r.Ok? <==> j.JArr? || j.JObj? || j.JStr?
    ensures j.JArr? ==> r == Ok(j.items)
  {
    match j
    case JArr(items) => Ok(items)
    case JObj(fields) => Ok(Map((k: string) => JStr(k), Keys(fields)))
    case JStr(s) => Ok(Map((c: char) => JStr([c]), s))
    case _ => Err("TypeError: object is not iterable")
  }

  /** `data.get(key, [])` as a loop iterates it: an absent key gives nothing to visit. */
  function ListOrEmpty(data: Dict<string, Json>, key: string): (r: Result<seq<Json>>)
    ensures Get(data, key).None? ==> r == Ok([])
    ensures Get(data, key).Some? ==> r == Iterate(Get(data, key).value)
  {
    match Get(data, key)
    case None => Ok([])
    case Some(v) => Iterate(v)
  }
}
