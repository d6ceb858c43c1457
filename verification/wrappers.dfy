/** Option and Result values standing in for Rust's `Option` and `anyhow::Result`. */
module Wrappers {

  datatype Option<T> = None | Some(value: T)

  /** An `anyhow::Result`: the error is carried as its rendered message. */
  datatype Result<T> = Ok(value: T) | Err(error: string)

  datatype Either<L, R> = Left(left: L) | Right(right: R)
}
