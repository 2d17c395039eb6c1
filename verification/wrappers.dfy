/** Failure-compatible Option and Result used for Python's None and for raised exceptions. */
module Wrappers {

  datatype Option<+T> = None | Some(value: T)

  /** `Failure` stands for an exception the Python code raises, carrying its message. */
  datatype Result<+R> = Success(value: R) | Failure(error: string)
}
