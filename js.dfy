/** The few JavaScript values and coercions the widget depends on. */
module Js {

  datatype Option<T> = None | Some(value: T)

  /** A value a caller hands to one of the widget's operations: `undefined`,
      a string, or an array of strings. */
  datatype Value = Undefined | Str(s: string) | Strs(items: seq<string>)

  /** JavaScript truthiness: `undefined` and the empty string are falsy,
      every other string and every array is truthy. */
  predicate Truthy(v: Value) {
    match v
    case Undefined => false
    case Str(s) => s != ""
    case Strs(_) => true
  }

  /** `Array.prototype.join` with its default separator. */
  function Join(xs: seq<string>): string
  {
    if |xs| == 0 then ""
    else if |xs| == 1 then xs[0]
    else xs[0] + "," + Join(xs[1..])
  }

  /** `String(v)`: how a value becomes a property key or the text of markup. */
  function ToString(v: Value): string {
    match v
    case Undefined => "undefined"
    case Str(s) => s
    case Strs(xs) => Join(xs)
  }

  /** The names every plain object has through `Object.prototype`, so that
      `name in obj` holds for them without an own property of that name. */
  const ObjectPrototypeNames: set<string> := {
    "constructor", "hasOwnProperty", "isPrototypeOf", "propertyIsEnumerable",
    "toLocaleString", "toString", "valueOf", "__defineGetter__", "__defineSetter__",
    "__lookupGetter__", "__lookupSetter__", "__proto__"}

  /** `a === b`. Arrays carry no object identity here: the model assumes
      every array a caller passes is a new object, so an array is never
      identical to anything held from an earlier call. A caller that passes
      the same array object twice gets `true` in JavaScript. */
  predicate StrictEquals(a: Value, b: Value) {
    (a.Undefined? && b.Undefined?) || (a.Str? && b.Str? && a.s == b.s)
  }
}
