/** The Python values that travel through response payloads, and Python's truthiness rule. */
module PyValue {

  /** A JSON-like Python value; dict keys are strings. `Null` is Python's None. */
  datatype Value =
    | Null
    | Bool(b: bool)
    | Int(n: int)
    | Str(s: string)
    | List(items: seq<Value>)
    | Dict(entries: map<string, Value>)

  /** Python's `bool(v)`: None, False, 0 and empty strings, lists and dicts are falsy. */
  predicate Truthy(v: Value)
  {
    match v
    case Null => false
    case Bool(b) => b
    case Int(n) => n != 0
    case Str(s) => |s| > 0
    case List(items) => |items| > 0
    case Dict(entries) => |entries| > 0
  }

  /** Python's `v or fallback`: `v` when it is truthy, `fallback` otherwise. */
  function Or(v: Value, fallback: Value): (r: Value)
    ensures Truthy(v) ==> r == v
    ensures !Truthy(v) ==> r == fallback
    ensures Truthy(r) <==> Truthy(v) || Truthy(fallback)
  {
    if Truthy(v) then v else fallback
  }

  /** `dict.get(key, fallback)` on a string-to-string dict. */
  function Get(m: map<string, string>, key: string, fallback: string): (r: string)
    ensures key in m ==> r == m[key]
    ensures key !in m ==> r == fallback
  {
    if key in m then m[key] else fallback
  }

  /** A dict whose values are all strings, as a Value. */
  function StrDict(m: map<string, string>): (v: Value)
    ensures v.Dict? && v.entries.Keys == m.Keys
    ensures forall k :: k in m ==> v.entries[k] == Str(m[k])
  {
    Dict(map k | k in m :: Str(m[k]))
  }
}
