/** JavaScript values as the services see them: untyped records ("field bags")
    whose missing keys read as `undefined`, and the two underscore.js helpers
    that fill or overwrite their fields. */
module Values {

  datatype Option<+T> = None | Some(value: T)

  /** A scalar field value of a record: a number, a string or a boolean. */
  datatype Value = Num(n: int) | Str(s: string) | Bool(b: bool)

  /** A query or filter record; a key that is absent is `undefined`. */
  type Record = map<string, Value>

  /** `r[k]`, with `undefined` as None. */
  function Get(r: Record, k: string): (v: Option<Value>)
    ensures v.Some? <==> k in r
    ensures v.Some? ==> v.value == r[k]
  {
    if k in r then Some(r[k]) else None
  }

  /** JavaScript truthiness of a field: `undefined`, `false`, `0` and `''` are falsy. */
  predicate Truthy(v: Option<Value>)
    ensures Truthy(v) ==> v.Some?
    ensures v == Some(Bool(false)) || v == Some(Num(0)) || v == Some(Str("")) ==> !Truthy(v)
  {
    match v
    case None => false
    case Some(Bool(b)) => b
    case Some(Num(n)) => n != 0
    case Some(Str(s)) => s != ""
  }

  /** `_.defaults(obj, defs)`: every field of `obj` is kept, and the fields `obj`
      lacks are taken from `defs`. */
  function Defaults(obj: Record, defs: Record): (r: Record)
    ensures r.Keys == obj.Keys + defs.Keys
    ensures forall k :: k in obj ==> r[k] == obj[k]
    ensures forall k :: k in defs && k !in obj ==> r[k] == defs[k]
  {
    defs + obj
  }

  /** `_.extend(obj, src)`: every field of `src` overwrites the one of `obj`. */
  function Extend(obj: Record, src: Record): (r: Record)
    ensures r.Keys == obj.Keys + src.Keys
    ensures forall k :: k in src ==> r[k] == src[k]
    ensures forall k :: k in obj && k !in src ==> r[k] == obj[k]
  {
    obj + src
  }
}
