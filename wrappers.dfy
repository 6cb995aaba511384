/** Rust's `Option` and `Result`, which the parser uses for its failure paths. */
module Wrappers {

  datatype Option<T> = None | Some(value: T)

  /** `Err` carries what the original program would have panicked with. */
  datatype Result<T, E> = Ok(value: T) | Err(error: E)
}
