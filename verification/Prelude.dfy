/** Types shared by the models. */
module Prelude {
  datatype Option<+T> = None | Some(value: T)

  /** An unsigned char. */
  type Byte = x: int | 0 <= x < 256
}
