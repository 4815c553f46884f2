/** Option and Result: the absent value (`undefined`) and the thrown error of the script. */
module Wrappers {

  datatype Option<+T> = None | Some(value: T)

  /** `Failure` carries the message of the JavaScript `Error` the script would throw. */
  datatype Result<+T> = Success(value: T) | Failure(error: string)
}
