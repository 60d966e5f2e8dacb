/** The Option and Result datatypes that stand for the program's `Option` and `Result`. */
module Options {
  datatype Option<+T> = None | Some(value: T)

  datatype Result<+T, +E> = Ok(value: T) | Err(error: E)
}
