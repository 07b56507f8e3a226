/**
 * Values shared by the lazy-list modules: optional values, the outcome of a
 * Kotlin call that may throw, and Kotlin's 32-bit `Int`.
 */
module Common {

  /** A Kotlin nullable value. */
  datatype Option<+T> = None | Some(value: T)

  /** The exceptions the modelled code raises itself. */
  datatype Error =
    | NullPointer                      // `x!!` on a null value
    | IllegalArgument(message: string) // a failed `require(...)`

  /** The message Kotlin's `require(c)` throws when no message is given. */
  const FailedRequirement: string := "Failed requirement."

  /** A call that either returns a value or throws. */
  datatype Result<+T> = Ok(value: T) | Err(error: Error)

  const MinInt32: int := -0x8000_0000
  const MaxInt32: int := 0x7fff_ffff

  /** Kotlin's `Int`: a 32-bit two's-complement integer. */
  newtype int32 = x: int | -0x8000_0000 <= x < 0x8000_0000

  /**
   * Two's-complement wrap-around, as Kotlin's `Int` addition and
   * `Long.toInt()` perform it.
   */
  function Wrap32(x: int): (r: int32)
    ensures MinInt32 <= x <= MaxInt32 ==> r as int == x
    ensures (x - r as int) % 0x1_0000_0000 == 0
  {
    ((x + 0x8000_0000) % 0x1_0000_0000 - 0x8000_0000) as int32
  }
}
