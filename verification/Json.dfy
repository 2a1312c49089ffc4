/** JSON values as Go's encoding/json decodes them into `any`. */
module Json {
  import opened Common

  datatype Json =
    | Null
    | Bool(b: bool)
    | Num(n: real)
    | Str(s: string)
    | Arr(elems: seq<Json>)
    | Obj(fields: map<string, Json>)

  /** A string field, or "" when absent or of another type. */
  function StringAt(m: map<string, Json>, key: string): string {
    if key in m && m[key].Str? then m[key].s else ""
  }

  predicate TrueAt(m: map<string, Json>, key: string) {
    key in m && m[key] == Bool(true)
  }

  /** A step into a document. */
  datatype Place = Field(key: string) | Index(i: nat)

  /** The value at a path, if the document has that place. */
  function At(j: Json, path: seq<Place>): Option<Json> {
    if path == [] then Some(j)
    else match path[0]
      case Field(k) => if j.Obj? && k in j.fields then At(j.fields[k], path[1..]) else None
      case Index(i) => if j.Arr? && i < |j.elems| then At(j.elems[i], path[1..]) else None
  }
}
