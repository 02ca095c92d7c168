module Wrappers {
  datatype Option<+T> = None | Some(value: T)

  /** `uint8_t`. */
  type byte = b: nat | b < 256
}
