/** Option, Result and Outcome: the model's stand-ins for Java's null and exceptions. */
module Wrappers {

  /** A value that may be absent: Java's `null` for a reference. */
  datatype Option<+T> = None | Some(value: T) {
    function GetOr(default: T): T {
      match this
      case Some(v) => v
      case None => default
    }
  }

  /** A value, or the exception that replaced it. */
  datatype Result<+T, +E> = Ok(value: T) | Err(error: E)

  /** A `void` call that completed, or the exception it threw. */
  datatype Outcome<+E> = Pass | Fail(error: E)

  /** Appending in two steps is appending the joined pieces. */
  lemma AppendAssoc<T>(a: seq<T>, b: seq<T>, c: seq<T>)
    ensures a + (b + c) == (a + b) + c
  {
  }
}
