/**
 * The slice of JavaScript value semantics the `/save` handler relies on:
 * a parsed JSON value (plus `undefined` for a property that is not there),
 * truthiness, `||`, `??` and optional-chaining property reads.
 */
module Js {

  /** A JSON value as the body and query parsers produce it; `Undefined` is what
      reading a missing property yields. Numbers are integers here. */
  datatype Json =
    | Undefined
    | JNull
    | JBool(b: bool)
    | JNum(n: int)
    | JStr(s: string)
    | JArr(items: seq<Json>)
    | JObj(fields: map<string, Json>)

  /** The object literal `{}`. */
  const EmptyObject: Json := JObj(map[])

  /** JavaScript truthiness: `undefined`, `null`, `false`, `0` and `""` are falsy;
      every array and every object, even an empty one, is truthy. */
  predicate Truthy(v: Json) {
    match v
    case Undefined => false
    case JNull => false
    case JBool(b) => b
    case JNum(n) => n != 0
    case JStr(s) => s != ""
    case JArr(_) => true
    case JObj(_) => true
  }

  /** The values that `??` and `?.` treat as missing. */
  predicate Nullish(v: Json) {
    v.Undefined? || v.JNull?
  }

  /** `a || b`: the first operand when it is truthy, the second otherwise. */
  function Or(a: Json, b: Json): (r: Json)
    ensures Truthy(r) <==> Truthy(a) || Truthy(b)
    ensures Truthy(a) ==> r == a
    ensures !Truthy(a) ==> r == b
  {
    if Truthy(a) then a else b
  }

  /** `a ?? b`: the first operand unless it is `null` or `undefined`. Unlike `||`
      it keeps `false`, `0` and `""`. */
  function Coalesce(a: Json, b: Json): (r: Json)
    ensures !Nullish(a) ==> r == a
    ensures Nullish(a) ==> r == b
    ensures Nullish(r) ==> Nullish(b)
  {
    if Nullish(a) then b else a
  }

  /** `v?.k` for a property name that no prototype defines: an object's own
      field, and `undefined` for every other kind of value. On a value that is
      not nullish this is also what plain `v.k` reads. */
  function Get(v: Json, k: string): (r: Json)
    ensures r != Undefined ==> v.JObj? && k in v.fields && r == v.fields[k]
    ensures v.JObj? && k in v.fields ==> r == v.fields[k]
  {
    match v
    case JObj(f) => if k in f then f[k] else Undefined
    case _ => Undefined
  }

  /** Reading a property of a value that is not an object never finds one, so
      a falsy value has no properties: reading through `x || {}` is reading
      through `x` whenever it matters. */
  lemma GetThroughDefault(v: Json, k: string)
    ensures Get(Or(v, EmptyObject), k) == Get(v, k)
  {
  }
}
