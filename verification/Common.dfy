/** What every module may need. */
module Common {
  datatype Option<+T> = None | Some(value: T)

  /** Conversion of a wider integer to a signed 32-bit one: the value wraps around. */
  function ToInt32(v: int): int {
    (v + 0x8000_0000) % 0x1_0000_0000 - 0x8000_0000
  }
}
