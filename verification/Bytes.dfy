/** Bytes, as all parts of the model use them. */
module Bytes {
  type Byte = b: nat | b < 256
}
