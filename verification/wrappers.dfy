/** Optional values and success/failure results, used where the JavaScript code
    yields `null`/`undefined` or throws an `Error` with a message. */
module Wrappers {

  datatype Option<+T> = None | Some(value: T) {

    /** The wrapped value, or `default` when there is none (JavaScript's `x ?? d`). */
    function GetOr(default: T): T {
      match this
      case Some(v) => v
      case None => default
    }
  }

  /** `Ok` carries the value an operation returns; `Err` carries the message of
      the `Error` it throws. */
  datatype Result<+R> = Ok(value: R) | Err(message: string)

  /** JavaScript truthiness of a value that is a string, `null` or `undefined`:
      only a non-empty string is truthy. */
  predicate Truthy(o: Option<string>) {
    o.Some? && o.value != ""
  }

  /** `o || fallback` for such a value. */
  function OrElse(o: Option<string>, fallback: string): (r: string)
    ensures Truthy(o) ==> r == o.value
    ensures !Truthy(o) ==> r == fallback
  {
    if Truthy(o) then o.value else fallback
  }
}
