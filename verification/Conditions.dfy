/** Conditions and their keys (DDCore/include/DD4hep/Conditions.h). */
module Conditions {

  const WORD: int := 0x1_0000_0000

  type Key32 = x: int | 0 <= x < WORD witness 0
  type Key64 = x: int | 0 <= x < WORD * WORD witness 0

  /** The detector key is the high word. */
  function HashOf(det: Key32, item: Key32): (h: Key64)
    ensures h / WORD == det && h % WORD == item
  {
    det * WORD + item
  }

  /** A condition with the hash of its key. */
  datatype Condition = Condition(hash: Key64, value: int)
}
