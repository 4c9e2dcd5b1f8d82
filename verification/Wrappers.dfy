/** Result types shared by every module. */
module Wrappers {

  datatype Option<+T> = None | Some(value: T)

  datatype Result<+T, +E> = Ok(value: T) | Err(error: E)

  /** How a store answers a write or a lookup: done, in conflict, or refused. */
  datatype Answer<+T> = Done(value: T) | Conflict | Invalid
}
