/** Types shared by the message queue and the network code. */
module Basics {
  newtype Byte = b: int | 0 <= b < 256

  datatype Option<+T> = None | Some(value: T)
}
