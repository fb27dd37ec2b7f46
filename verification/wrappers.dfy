/** Small failure-compatible helper types shared by the other modules. */
module Wrappers {

  /** A value that may be absent: a nullable handle, or the result of a failed match. */
  datatype Option<+T> = None | Some(value: T)

  /** The set holding the value of `o`, empty when `o` is `None`. */
  function OptSet<T>(o: Option<T>): set<T> {
    match o
    case None => {}
    case Some(v) => {v}
  }
}
