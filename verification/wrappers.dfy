/** Identifiers, optional values, and results that carry either a value or an error. */
module Wrappers {

  type Id = string

  datatype Option<+T> = None | Some(value: T) {
    function GetOr(default: T): T { if None? then default else value }
  }

  datatype Result<+T, +E> = Success(value: T) | Failure(error: E)

  /** Present and not the empty string. */
  predicate Given(o: Option<string>) { o.Some? && o.value != "" }
}
