/** JavaScript values as they reach the route handlers, and the truthiness
    test that the handlers apply to them (`!x`, `x || null`). */
module Js {

  datatype Option<+T> = None | Some(value: T)

  /** A request-body value: the JSON body parser yields typed values, the
      multipart parser yields strings; an absent field reads as `undefined`. */
  datatype JsValue =
    | Undefined
    | Null
    | Bool(b: bool)
    | Num(n: real)
    | NaN
    | Str(s: string)

  /** ECMAScript ToBoolean: `false`, `0`, `NaN`, `""`, `null` and `undefined`
      are falsy, everything else is truthy. */
  predicate Truthy(v: JsValue)
  {
    match v
    case Undefined => false
    case Null => false
    case Bool(b) => b
    case Num(n) => n != 0.0
    case NaN => false
    case Str(s) => s != ""
  }

  /** Truthiness of a body field that is either absent or a string. */
  predicate Present(o: Option<string>)
  {
    o.Some? && o.value != ""
  }

  /** `v || null`: the value itself when truthy, `null` otherwise. */
  function OrNull(v: JsValue): (r: JsValue)
    ensures Truthy(v) ==> r == v
    ensures !Truthy(v) ==> r == Null
  {
    if Truthy(v) then v else Null
  }
}

/** The responses a handler sends: a JSON success payload, or an HTTP error
    status with its message. */
module Http {

  datatype Reply<+T> = Ok(value: T) | Fail(status: int, error: string)

  const BadRequest := 400
  const Unauthorized := 401
  const Forbidden := 403
  const NotFound := 404
}
