/** Python's `None`-or-value, used wherever the application stores an optional string. */
module Wrappers {

  datatype Option<+T> = None | Some(value: T)

  /** Python truthiness of an optional string: `None` and `""` are both false. */
  predicate Truthy(o: Option<string>) {
    o.Some? && o.value != ""
  }
}
