/** Optional values, as the None-or-value results of the application's
    Python code: dictionary lookups, nullable columns and validation results. */
module Wrappers {

  datatype Option<T> = None | Some(value: T)

  /** Python truthiness of an optional string or byte string: present and
      non-empty. */
  predicate Truthy<T>(o: Option<seq<T>>) {
    o.Some? && o.value != []
  }
}
