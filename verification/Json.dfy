/**
 The JSON trees that the configuration files hold, and the keys that occur in
 them at any depth.
 */
module Json {

  datatype Json =
    | Null
    | Boolean(b: bool)
    | Number(n: real)
    | Text(s: string)
    | Array(items: seq<Json>)
    | Object(fields: map<string, Json>)

  type JsonObject = j: Json | j.Object? witness Object(map[])

  const EMPTY: JsonObject := Object(map[])

  /** Every object key that occurs in `j`, through objects and arrays. */
  function AllKeys(j: Json): set<string> {
    match j
    case Array(items) => set i, k | 0 <= i < |items| && k in AllKeys(items[i]) :: k
    case Object(fields) => fields.Keys + set f, k | f in fields && k in AllKeys(fields[f]) :: k
    case _ => {}
  }
}
