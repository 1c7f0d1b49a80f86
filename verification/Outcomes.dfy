/** Results shared by the modules: a value that may be missing, and a call that may fail. */
module Outcomes {
  datatype Option<+T> = None | Some(value: T)

  datatype Result<+T> = Ok(value: T) | Err
}
