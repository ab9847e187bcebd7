/** Option and Result, the failure-carrying values used across the model, and Python truthiness. */
module Wrappers {

  datatype Option<+T> = None | Some(value: T) {
    function GetOr(default: T): T {
      match this
      case Some(v) => v
      case None => default
    }
  }

  datatype Result<+T, +E> = Ok(value: T) | Err(error: E)

  /** Python truthiness of an optional string or list: present and non-empty. */
  predicate Truthy<T>(s: Option<seq<T>>) {
    s.Some? && |s.value| > 0
  }
}
