/** Option and Result, the two failure-carrying types the engine's Rust code returns. */
module Common {

  datatype Option<+T> = None | Some(value: T)

  datatype Result<+T, +E> = Ok(value: T) | Err(error: E)
}
