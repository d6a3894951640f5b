/** Small value types shared by the rest of the model: optional values, the
    truthiness test the handlers apply to optional strings, and the errors
    the handlers raise. */
module Wrappers {

  /** A value that may be missing: a JSON field that is absent, a header
      that was not sent, an environment variable that is not set. */
  datatype Option<+T> = None | Some(value: T)

  /** Python truthiness of an optional string: `None` and `""` are falsy,
      every other string is truthy. */
  predicate Truthy(s: Option<string>) {
    s.Some? && s.value != ""
  }

  /** Python's `s or default` on an optional string. */
  function OrElse(s: Option<string>, default: string): (r: string)
    ensures Truthy(s) ==> r == s.value
    ensures !Truthy(s) ==> r == default
  {
    if Truthy(s) then s.value else default
  }

  /** The HTTP errors the handlers raise: 403, 400 and 404. */
  datatype Error = Forbidden | BadRequest | NotFound

  /** What a handler returns: its response body, or the error it raised. */
  datatype Result<+T> = Ok(value: T) | Err(error: Error)
}
