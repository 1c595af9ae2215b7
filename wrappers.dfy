/** Option and Result, the two wrappers the model uses for Java's null and exceptions. */
module Wrappers {

  /** `None` stands for a Java `null` reference. */
  datatype Option<+T> = None | Some(value: T)

  /** `Err` stands for an exception thrown out of a Java method. */
  datatype Result<+T, +E> = Ok(value: T) | Err(error: E)
}
