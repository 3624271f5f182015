/** A value that may be absent: JavaScript's `undefined` for a request field,
    or a query that matched no row. */
module Optional {

  datatype Option<+T> = None | Some(value: T)

  /** JavaScript truthiness of an optional string: absent and "" are falsy. */
  predicate Truthy(s: Option<string>)
  {
    s.Some? && s.value != ""
  }
}
