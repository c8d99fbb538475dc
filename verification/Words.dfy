/** Fixed-width words of the original, as ranges of the integers, and the option type. */
module Words {
  datatype Option<+T> = None | Some(value: T)

  const COUNTER_MODULUS := 0x1_0000_0000

  type Byte = x: int | 0 <= x < 0x100
  type Uint16 = x: int | 0 <= x < 0x1_0000
  type Uint32 = x: int | 0 <= x < 0x1_0000_0000

  /** `counter++` on an unsigned int. */
  function Increment(c: Uint32): Uint32 {
    (c + 1) % COUNTER_MODULUS
  }
}
