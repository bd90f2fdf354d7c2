/** Results that may be missing. */
module Wrappers {
  datatype Option<+T> = None | Some(value: T)

  /** `Err` stands for an exception thrown by the original. */
  datatype Result<+T> = Ok(value: T) | Err

  /** What was read and where it ends. */
  datatype Parsed<+T> = Parsed(value: T, end: nat) | Bad
}
