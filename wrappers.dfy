/** The two result shapes the plugin's C# code uses: a nullable reference
    (`string` that may be `null`) and "returned a value or threw". */
module Wrappers {

  /** A value that may be absent; `None` stands for C#'s `null`. */
  datatype Option<+T> = None | Some(value: T)

  /** The outcome of a call that either returns a value or throws an exception
      carrying a message. */
  datatype Result<+R, +E> = Success(value: R) | Failure(error: E)
}
