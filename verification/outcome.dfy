/** Optional values and the Java exceptions the modelled code can raise. */
module Outcome {

  /** A value or its absence; stands for a nullable Java reference. */
  datatype Option<+T> = None | Some(value: T)

  /** The runtime exceptions reachable in the modelled code. */
  datatype JavaException =
    | NullPointer           // dereferencing a field that was never initialised
    | ArrayIndexOutOfBounds // reading past the end of a Java array
    | NegativeArraySize     // `new long[n]` with `n < 0`

  /** The outcome of a call that may throw. */
  datatype Result<+T> = Ok(value: T) | Err(error: JavaException)
}
