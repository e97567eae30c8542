/** Optional values and results that carry an error, shared by the report and inventory models. */
module Wrappers {

  datatype Option<+T> = None | Some(value: T)

  /** The outcome of a step that can raise: the value it computes, or the exception it raises. */
  datatype Result<+T, +E> = Ok(value: T) | Err(error: E)
}
