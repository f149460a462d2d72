/** Shared value types: optional values and success/failure results. */
module Base {

  /** A value that may be absent (JavaScript `null` or `undefined`). */
  datatype Option<+T> = None | Some(value: T)

  /** The outcome of a backend call: a value, or the error the backend reported. */
  datatype Result<+T> = Ok(value: T) | Err(error: string)

  /** JavaScript truthiness of an optional string: `null`, `undefined` and `""` are falsy. */
  predicate Truthy(s: Option<string>)
  {
    s.Some? && s.value != ""
  }
}
