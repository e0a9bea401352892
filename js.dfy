/**
 * The JavaScript values that reach the wrapper's dynamically typed entry points
 * (`publish`, `setSubscriber`, the convenience senders), with the `typeof` tests
 * and the truthiness the source applies to them.
 */
module Js {

  /** An element of a `Uint8Array`. */
  type byte = x: int | 0 <= x < 256

  /**
   * A JavaScript value, as far as the wrapper tells values apart. Functions and
   * other objects are known by their identity only.
   */
  datatype JsValue =
    | Undefined
    | Null
    | Bool(b: bool)
    | Number(n: int)
    | Str(s: string)
    | Bytes(data: seq<byte>)
    | Function(id: nat)
    | Object(id: nat)

  /** The values JavaScript treats as false (NaN aside, which is not modelled). */
  const FALSY: set<JsValue> := {Undefined, Null, Bool(false), Number(0), Str("")}

  /** JavaScript truthiness, as `uid || null` uses it: everything but the falsy values, so every object. */
  predicate Truthy(v: JsValue): (t: bool)
    ensures t <==> v !in FALSY
    ensures v.Bytes? || v.Function? || v.Object? ==> t
  {
    match v
    case Undefined => false
    case Null => false
    case Bool(b) => b
    case Number(n) => n != 0
    case Str(s) => s != ""
    case Bytes(_) => true
    case Function(_) => true
    case Object(_) => true
  }

  /** `typeof v === "boolean" ? v : otherwise` */
  function BoolOr(v: JsValue, otherwise: bool): (r: bool)
    ensures r <==> v == Bool(true) || (!v.Bool? && otherwise)
  {
    if v.Bool? then v.b else otherwise
  }

  /** `typeof v === "string" ? v : otherwise` */
  function StringOr(v: JsValue, otherwise: string): (r: string)
    ensures v.Str? ==> r == v.s
    ensures !v.Str? ==> r == otherwise
  {
    if v.Str? then v.s else otherwise
  }

  /** `v || null` */
  function OrNull(v: JsValue): (r: JsValue)
    ensures Truthy(r) <==> Truthy(v)
    ensures Truthy(v) ==> r == v
    ensures !Truthy(v) ==> r == Null
  {
    if Truthy(v) then v else Null
  }
}
