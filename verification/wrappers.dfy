/** Wrappers: an absent value (Java `null`) and an error result. */
module Wrappers {

  /** `None` stands for a Java `null` return. */
  datatype Option<+T> = None | Some(value: T)

  /** `Failure` stands for a thrown exception carrying a message. */
  datatype Result<+T, +E> = Success(value: T) | Failure(error: E)
}
