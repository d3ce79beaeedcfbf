/** Small value types shared by every module of the model. */
module Base {

  /** A value that may be absent: Python's `None` versus a present value. */
  datatype Option<T> = None | Some(value: T)

  /** One octet of a file or of a network chunk. */
  newtype Byte = b: int | 0 <= b < 256

  type Bytes = seq<Byte>
}
