/** Small value types shared by the other modules. */
module Common {
  /** A value that may be absent, as Python's `None` or a missing argument. */
  datatype Option<T> = None | Some(value: T)

  /** One octet on the wire. */
  newtype byte = x: int | 0 <= x < 256
}
