/** Bytes as the C sources read them: unsigned. */
module Bytes {
  type byte = x: int | 0 <= x < 256
}
