/** Types shared by every module. */
module Wrappers {

  datatype Option<+T> = None | Some(value: T)

  datatype Result<+T, +E> = Ok(value: T) | Err(error: E)

  /** What can go wrong with one store statement: nothing, no effect, or an effect whose answer is
      lost. */
  datatype Fault = NoFault | FailsBeforeCommit | FailsAfterCommit
}
