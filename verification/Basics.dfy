/** Types and constants shared by the models. */
module Basics {

  datatype Option<+T> = None | Some(value: T)

  type Byte = b: int | 0 <= b < 256

  const MAX_INT64 := 0x7FFF_FFFF_FFFF_FFFF
  const TWO_64 := 0x1_0000_0000_0000_0000

  /** Two's complement wrap-around of a 64-bit sum. */
  function Wrap(i: int): int {
    var r := i % TWO_64;
    if r > MAX_INT64 then r - TWO_64 else r
  }

  predicate IsInt64(i: int) {
    -MAX_INT64 - 1 <= i <= MAX_INT64
  }

  /** Wrapping lands in range, and changes nothing there. */
  lemma WrapFacts(i: int)
    ensures IsInt64(Wrap(i)) && (IsInt64(i) ==> Wrap(i) == i)
    ensures MAX_INT64 < i <= 2 * MAX_INT64 ==> Wrap(i) == i - TWO_64 < 0
  {
  }
}
