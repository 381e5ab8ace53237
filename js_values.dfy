/** The JavaScript values the core passes around: plain objects with string
    keys, whose spread `{ ...a, ...b }` is map union with the right-hand side
    winning, and the record shape both in-memory stores keep. */
module JsValues {

  /** `null` / `undefined` (None) or a present value (Some). */
  datatype Option<+T> = None | Some(value: T)

  /** A field value. Arrays appear in the core only as lists of tag strings. */
  datatype Value =
    | Null
    | Bool(b: bool)
    | Num(n: int)
    | Str(s: string)
    | StrList(items: seq<string>)

  /** An object's own enumerable fields. A missing key reads as `undefined`. */
  type Fields = map<string, Value>

  /** A stored record: its numeric `Id` and every other field. Every object
      the stores build ends with an explicit `Id:` entry, so the store keeps
      the id apart and `fields` never holds the key "Id". */
  datatype Record = Record(Id: int, fields: Fields)

  /** `obj[key]`, with `undefined` as None. */
  function Get(f: Fields, key: string): Option<Value>
  {
    if key in f then Some(f[key]) else None
  }

  /** JavaScript truthiness of a field read (`undefined`, `null`, `false`,
      `0` and `""` are falsy; every array is truthy). */
  function Truthy(v: Option<Value>): (r: bool)
    ensures !r <==> v in {None, Some(Null), Some(Bool(false)), Some(Num(0)), Some(Str(""))}
  {
    match v
    case None => false
    case Some(Null) => false
    case Some(Bool(b)) => b
    case Some(Num(n)) => n != 0
    case Some(Str(s)) => s != ""
    case Some(StrList(_)) => true
  }

  /** `value || fallback` for a text field. */
  function TextOr(v: Option<Value>, fallback: string): (r: string)
    ensures Truthy(v) && v.value.Str? ==> r == v.value.s
    ensures !Truthy(v) ==> r == fallback
  {
    if v.Some? && v.value.Str? && v.value.s != "" then v.value.s else fallback
  }
}
