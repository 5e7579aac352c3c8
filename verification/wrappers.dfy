/** The failure-carrying values the model returns where the program raises
    an exception or has nothing to report. */
module Wrappers {

  datatype Option<+T> = None | Some(value: T)

  datatype Result<+R, +E> = Success(value: R) | Failure(error: E)
}
