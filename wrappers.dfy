/** Option and Result values shared by the models of the event pipeline. */
module Wrappers {

  /** An optional value: `std::optional` in the source, or "no deadline". */
  datatype Option<+T> = None | Some(value: T)

  /** The outcome of an operation that can fail with an error of type E. */
  datatype Result<+T, +E> = Ok(value: T) | Err(error: E)
}
