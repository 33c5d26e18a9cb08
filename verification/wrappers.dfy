/** Option and Result datatypes, plus JavaScript's truthiness test for an optional string. */
module Wrappers {

  /** A value that may be absent: `undefined`, `null` or `NaN` in the modelled code. */
  datatype Option<+T> = None | Some(value: T) {

    /** The value, or `default` when absent: JavaScript's `x ?? default`. */
    function GetOr(default: T): T {
      match this
      case Some(v) => v
      case None => default
    }
  }

  /** The outcome of an operation that can throw. */
  datatype Result<+R, +E> = Success(value: R) | Failure(error: E)

  /** True when an optional string is truthy in JavaScript: present and not empty. */
  predicate Present(s: Option<string>) {
    s.Some? && s.value != ""
  }
}
