/** Option, Result and Poll values shared by every module of the model. */
module Wrappers {

  datatype Option<+T> = None | Some(value: T)

  datatype Result<+R, +E> = Ok(value: R) | Err(error: E)

  /** The outcome of polling a future: finished with a value, or not yet. */
  datatype Poll<+R> = Ready(value: R) | Pending
}
