/** The slice of JavaScript's value and error model the handlers depend on:
    values produced by `JSON.parse`, truthiness (for `||` defaults and `!x`
    checks), property reads, and thrown errors with their class. */
module Js {

  /** A JavaScript value as `JSON.parse` can produce it, plus `undefined` for
      absent properties. */
  datatype Value =
    | Undefined
    | Null
    | Bool(b: bool)
    | Number(n: real)
    | Str(s: string)
    | Arr(items: seq<Value>)
    | Obj(fields: map<string, Value>)

  /** JavaScript truthiness. `JSON.parse` never yields `NaN`, so every number
      other than zero is truthy. */
  predicate Truthy(v: Value) {
    match v
    case Undefined => false
    case Null => false
    case Bool(b) => b
    case Number(n) => n != 0.0
    case Str(s) => s != ""
    case Arr(_) => true
    case Obj(_) => true
  }

  /** `v || fallback`. */
  function OrElse(v: Value, fallback: Value): (r: Value)
    ensures Truthy(v) ==> r == v
    ensures !Truthy(v) ==> r == fallback
  {
    if Truthy(v) then v else fallback
  }

  /** The class of a thrown error; the handlers only distinguish `SyntaxError`
      (what `JSON.parse` throws) from everything else. */
  datatype ErrorKind = SyntaxError | TypeError | OtherError

  datatype Error = Error(kind: ErrorKind, message: string)

  /** A value that may be absent (`null`). */
  datatype Option<+T> = None | Some(value: T)

  /** The outcome of a call that may throw. */
  datatype Result<+T> = Ok(value: T) | Err(error: Error)

  /** The message V8 gives a `TypeError` for reading `key` of `null`/`undefined`. */
  function NullReadMessage(v: Value, key: string): string
    requires v.Null? || v.Undefined?
  {
    "Cannot read properties of " + (if v.Null? then "null" else "undefined") + " (reading '" + key + "')"
  }

  /** `v.key`: throws a `TypeError` on `null` and `undefined`; an object yields the
      field or `undefined`; every other value has none of the fields read here. */
  function Get(v: Value, key: string): (r: Result<Value>)
    ensures r.Err? <==> (v.Null? || v.Undefined?)
    ensures r.Err? ==> r.error.kind == TypeError
    ensures v.Obj? && key in v.fields ==> r == Ok(v.fields[key])
    ensures v.Obj? && key !in v.fields ==> r == Ok(Undefined)
  {
    match v
    case Null => Err(Error(TypeError, NullReadMessage(v, key)))
    case Undefined => Err(Error(TypeError, NullReadMessage(v, key)))
    case Obj(fields) => if key in fields then Ok(fields[key]) else Ok(Undefined)
    case _ => Ok(Undefined)
  }

  /** `v.key` on a value known not to be `null` or `undefined`. */
  function Member(v: Value, key: string): (r: Value)
    requires !(v.Null? || v.Undefined?)
    ensures Get(v, key) == Ok(r)
  {
    Get(v, key).value
  }

  /** An object literal as `JSON.stringify` sends it: members whose value is
      `undefined` are omitted. */
  function Serialized(members: map<string, Value>): (v: Value)
    ensures v.Obj?
    ensures forall k :: k in v.fields <==> k in members && !members[k].Undefined?
    ensures forall k :: k in v.fields ==> v.fields[k] == members[k]
  {
    Obj(map k | k in members && !members[k].Undefined? :: members[k])
  }
}
