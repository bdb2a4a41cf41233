/** Result and option types shared by every component. */
module Wrappers {

  datatype Option<+T> = None | Some(value: T)

  datatype Result<+T, +E> = Ok(value: T) | Err(error: E)

  /** What a poll returns: a value now, or nothing yet. */
  datatype Poll<+T> = Ready(value: T) | Pending
}
