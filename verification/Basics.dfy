/** What several of the modules share. */
module Basics {

  datatype Option<T> = None | Some(value: T)

  /** One past the largest value of uint32_t and of uint64_t. */
  const TWO_TO_THE_32: nat := 0x1_0000_0000
  const TWO_TO_THE_64: nat := 0x1_0000_0000_0000_0000
}
