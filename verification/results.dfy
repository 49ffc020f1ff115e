/** Failure-carrying return types shared by the framer, the builder and the CLI. */
module Results {

  /** A value that may be absent; `None` also stands for JavaScript's NaN and `undefined`. */
  datatype Option<+T> = None | Some(value: T)

  /** Either a computed value or the error that stopped the computation. */
  datatype Result<+T, +E> = Ok(value: T) | Err(error: E)
}
