/** The optional-value datatype used for fields the upstream API may leave out
    and for the `null` the cache layer returns on error, and the truthiness of
    an optional string. */
module Wrappers {

  datatype Option<+T> = None | Some(value: T)

  /** JavaScript truthiness of a string-or-null field: present and not empty. */
  predicate Truthy(s: Option<string>)
  {
    s.Some? && s.value != ""
  }
}
