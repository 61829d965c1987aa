/** Optional values and results with an error, for the places where the
    Python code raises an exception instead of returning. */
module Results {

  datatype Option<+T> = None | Some(value: T)

  datatype Result<+T, +E> = Ok(value: T) | Err(error: E)
}
