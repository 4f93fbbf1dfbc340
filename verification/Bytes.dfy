/** The driver's UCHAR and ULONG. */
module Bytes {
  type byte = b: int | 0 <= b < 256

  /** ULONG is taken to be 32 bits wide. */
  const ULONG_MOD := 0x1_0000_0000
}
