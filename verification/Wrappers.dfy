/** Values that may be absent, and operations that may fail. */
module Wrappers {

  datatype Option<+T> = Some(value: T) | None

  datatype Result<+T> = Ok(value: T) | Err
}
