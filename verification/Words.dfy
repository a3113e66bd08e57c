/** Unsigned machine words: `cl_uint` (32 bits) and `cl_ulong` / `size_t` (64 bits). */
module Words {

  const TWO_32: nat := 0x1_0000_0000
  const TWO_64: nat := 0x1_0000_0000_0000_0000

  /** The value an unsigned 32-bit variable holds after being assigned x. */
  function Wrap32(x: int): nat {
    x % 0x1_0000_0000
  }

  /** The value an unsigned 64-bit variable holds after being assigned x. */
  function Wrap64(x: int): nat {
    x % 0x1_0000_0000_0000_0000
  }
}
