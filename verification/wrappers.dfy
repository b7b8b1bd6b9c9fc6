/** Optional values and results, and the two JavaScript idioms the handlers
    lean on: nullish coalescing (`a ?? b`) and truthiness of a string field. */
module Wrappers {

  /** A field that may be null or absent (`None`) or carry a value. */
  datatype Option<T> = None | Some(value: T) {

    /** `this ?? default` when the default is a plain value. */
    function GetOr(default: T): T {
      match this
      case Some(v) => v
      case None => default
    }

    /** `this ?? other` when the fallback is itself nullable. */
    function OrElse(other: Option<T>): Option<T> {
      if Some? then this else other
    }
  }

  /** The outcome of a datastore call: a value, or the error the client library reports. */
  datatype Result<T, E> = Success(value: T) | Failure(error: E)

  /** JavaScript truthiness of a string field: null, undefined and "" are falsy. */
  predicate Truthy(s: Option<string>) {
    s.Some? && s.value != ""
  }
}
