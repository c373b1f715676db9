/** Decoded JSON (and YAML) trees, with the lookup helpers the handlers share. */
module Json {
  datatype Option<+T> = None | Some(value: T)

  datatype Value =
    | Null
    | Bool(b: bool)
    | Number(n: int)
    | Text(s: string)
    | List(items: seq<Value>)
    | Dict(fields: Fields)

  type Fields = map<string, Value>

  /** getNestedString: "" when the key is absent or does not hold a string. */
  function GetString(m: Fields, key: string): string
  {
    if key in m && m[key].Text? then m[key].s else ""
  }

  /** unstructuredNestedMap with one field. */
  function GetDict(m: Fields, key: string): Option<Fields>
  {
    if key in m && m[key].Dict? then Some(m[key].fields) else None
  }

  /** unstructuredNestedSlice with one field; a missing list reads as an empty one. */
  function GetList(m: Fields, key: string): seq<Value>
  {
    if key in m && m[key].List? then m[key].items else []
  }

  /** A nil Go map reads as an empty one. */
  function OrEmpty(m: Option<Fields>): Fields
  {
    if m.Some? then m.value else map[]
  }

  /** stringMap: the entries that hold strings. */
  function StringMap(m: Fields): map<string, string>
  {
    map k | k in m && m[k].Text? :: m[k].s
  }

  /** anyMap. */
  function AnyMap(m: map<string, string>): Fields
  {
    map k | k in m :: Text(m[k])
  }

  lemma StringMapUndoesAnyMap(m: map<string, string>)
    ensures StringMap(AnyMap(m)) == m
    ensures AnyMap(m) == map[] <==> m == map[]
  {
    assert AnyMap(m).Keys == m.Keys;
  }
}
