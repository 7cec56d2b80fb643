/** Optional values, and the results of reading a migration stream. */
module Wrappers {
  datatype Option<+T> = None | Some(value: T)

  /** What a loader can run into: data it refuses, the end of the stream, or a page
      or sector that is not there. */
  datatype Error = BadStream | EndOfStream | Fault

  datatype Result<+T> = Ok(value: T) | Err(error: Error)
  {
    predicate IsFailure() { Err? }
    function PropagateFailure<U>(): Result<U> requires Err? { Err(error) }
    function Extract(): T requires Ok? { value }
  }
}
