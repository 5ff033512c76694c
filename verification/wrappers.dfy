/** Optional values: the model's stand-in for JavaScript's null/undefined and Python's None. */
module Wrappers {

  datatype Option<+T> = None | Some(value: T)

  /** Truthiness of an optional string in both JavaScript and Python:
      null/undefined/None and the empty string are falsy. */
  predicate Truthy(o: Option<string>) {
    o.Some? && o.value != ""
  }
}
