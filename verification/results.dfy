/** Failure-carrying values. The Swift code force-unwraps and traps; the model
    turns every trap that bad input data can cause into an `Err`. */
module Results {

  /** A value that may be missing (Swift's optional). */
  datatype Option<+T> = None | Some(value: T)

  /** Either a value or the reason the computation could not produce one. */
  datatype Result<+T, +E> = Ok(value: T) | Err(error: E)

}
