/** Option and Result values standing in for Java's null and thrown exceptions. */
module Wrappers {

  /** `None` plays the role of a Java `null` reference. */
  datatype Option<+T> = None | Some(value: T)

  /** `Err` carries the exception a Java method would throw. */
  datatype Result<+T, +E> = Ok(value: T) | Err(error: E)
}
