/** Optional values, fallible results and byte strings shared by every model in this project. */
module Wrappers {

  datatype Option<+T> = None | Some(value: T)

  /** `Err` stands for the exception a Python function raises. */
  datatype Result<+T, +E> = Ok(value: T) | Err(error: E)

  type Byte = x: int | 0 <= x < 256
  type Bytes = seq<Byte>
}
