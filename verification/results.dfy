/** Option, Result and the opaque error value shared by every component. */
module Results {

  datatype Option<+T> = None | Some(value: T)

  datatype Result<+T, +E> = Ok(value: T) | Err(error: E)

  /** A Go `error` whose only observable part, for this model, is its text. */
  datatype Error = Error(text: string)
}
