/** Fixed-width scalar types of the JVM that the model keeps explicit. */
module Scalars {

  /** An unsigned view of one byte of a `byte[]` payload. */
  newtype byte = x: int | 0 <= x < 0x100

  /** A Java `long`: the width of timeouts and of the backup protocol's index and timestamp. */
  newtype int64 = x: int | -0x8000_0000_0000_0000 <= x < 0x8000_0000_0000_0000

}
