/** Result types shared by the modules of this project. */
module Prelude {

  datatype Option<+T> = None | Some(value: T)

  /** What a Go function returning `(T, error)` gives its caller. */
  datatype Result<+T, +E> = Ok(value: T) | Err(error: E)
}
