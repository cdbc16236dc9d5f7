/** Failure-carrying values used across the model: an optional value, and a
    value-or-error result standing for a promise that resolves or rejects. */
module Results {

  datatype Option<+T> = None | Some(value: T)

  datatype Result<+T, +E> = Ok(value: T) | Err(error: E)
}
