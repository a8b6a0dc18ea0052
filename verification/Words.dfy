/** The 32-bit words of the C code as numbers, and the optional value. */
module Words {

  const U32: nat := 0x1_0000_0000

  /** The range of `uint32_t`. */
  type Uint32 = n: nat | n < U32

  datatype Option<T> = None | Some(value: T)
}
