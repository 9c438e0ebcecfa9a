/** Bytes as bit vectors. */
module Bits {
  type Byte = bv8
}
