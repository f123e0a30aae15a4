/** Small value types shared by every module of the relay model. */
module Common {

  /** One octet of a TCP byte stream. */
  type byte = x: int | 0 <= x < 256

  /** A value that may be missing: Python's `None` or an operation that raised. */
  datatype Option<T> = None | Some(value: T)

  /** The outcome of an operation that either succeeds or raises an error. */
  datatype Result<T, E> = Ok(value: T) | Err(error: E)

  lemma AppendAssoc<T>(a: seq<T>, b: seq<T>, c: seq<T>)
    ensures a + (b + c) == (a + b) + c
  {
  }
}
