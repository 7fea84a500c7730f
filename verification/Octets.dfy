/** Bytes as C's `unsigned char` holds them. */
module Octets {
  type Byte = x: int | 0 <= x < 256

  type Bytes = seq<Byte>

  /** A C string is held without its NUL. */
  ghost predicate NulFree(s: Bytes) {
    forall i | 0 <= i < |s| :: s[i] != 0
  }
}
