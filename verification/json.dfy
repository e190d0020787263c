/** The JSON-like values stored as RAG metadata, Memory values and config data. */
module Json {

  datatype Json =
    | JNull
    | JBool(b: bool)
    | JInt(i: int)
    | JStr(s: string)
    | JList(items: seq<Json>)
    | JObj(fields: map<string, Json>)

  type Obj = map<string, Json>

  /** Python truthiness of a value. */
  predicate Truthy(j: Json) {
    match j
    case JNull => false
    case JBool(b) => b
    case JInt(i) => i != 0
    case JStr(s) => |s| > 0
    case JList(items) => |items| > 0
    case JObj(fields) => |fields| > 0
  }

  /** `m.get(k)`: an absent key reads as `None`. */
  function Field(m: Obj, k: string): Json {
    if k in m then m[k] else JNull
  }

  /** `m.get(k, default)` for a string field. A stored value of another
      JSON type also reads as `default`. */
  function StrField(m: Obj, k: string, default: string): string {
    if k in m && m[k].JStr? then m[k].s else default
  }

  /** A list of strings as JSON. */
  function StrList(xs: seq<string>): (j: Json)
    ensures j.JList? && |j.items| == |xs|
  {
    JList(seq(|xs|, i requires 0 <= i < |xs| => JStr(xs[i])))
  }

  /** The strings of a JSON list of strings; anything else reads as `[]`. */
  function AsStrList(j: Json): seq<string> {
    if j.JList? && forall i :: 0 <= i < |j.items| ==> j.items[i].JStr? then
      seq(|j.items|, i requires 0 <= i < |j.items| => j.items[i].s)
    else []
  }

  /** `m.get(k, [])` for a list-of-strings field. */
  function StrListField(m: Obj, k: string): seq<string> {
    if k in m then AsStrList(m[k]) else []
  }

  lemma {:induction false} StrListRoundTrip(xs: seq<string>)
    ensures AsStrList(StrList(xs)) == xs
  {
  }
}
