/** Option and Result values, used for Mongoose lookups that may find nothing
    and for validation that may fail. */
module Wrappers {

  datatype Option<+T> = None | Some(value: T)

  /** A computation that either yields a value or fails with a message. */
  datatype Result<+T> = Ok(value: T) | Err(message: string)
}
