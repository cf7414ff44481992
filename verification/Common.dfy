/** Small shared datatypes. */
module Common {

  datatype Option<+T> = None | Some(value: T)

  datatype Result<+T, +E> = Ok(value: T) | Err(error: E)

  /** A field of a change request: an absent change leaves the value, a present one is the value. */
  predicate Took<T(==)>(change: Option<T>, before: T, after: T) {
    change == Some(after) || (change.None? && after == before)
  }
}
