/** Kotlin/JVM value semantics the module relies on: the ranges of `Int` and
    `Long`, two's-complement wrap-around of their arithmetic, nullable values
    and the replies an asynchronous bridge function settles its promise with. */
module Kotlin {

  const INT_MIN: int := -0x8000_0000
  const INT_MAX: int := 0x7FFF_FFFF
  const LONG_MIN: int := -0x8000_0000_0000_0000
  const LONG_MAX: int := 0x7FFF_FFFF_FFFF_FFFF

  /** A value of Kotlin's 64-bit `Long`. */
  type Long = x: int | LONG_MIN <= x <= LONG_MAX

  /** A value of Kotlin's 32-bit `Int`. */
  type Int32 = x: int | INT_MIN <= x <= INT_MAX

  /** A byte of a downloaded file. */
  type Byte = b: int | 0 <= b < 256

  /** A nullable value (`T?`). */
  datatype Option<+T> = None | Some(value: T)

  /** The result of a 64-bit `Long` operation whose exact value is `x`:
      two's-complement wrap-around into the `Long` range. */
  function WrapLong(x: int): (r: Long)
    ensures (r - x) % 0x1_0000_0000_0000_0000 == 0
    ensures LONG_MIN <= x <= LONG_MAX ==> r == x
  {
    (x - LONG_MIN) % 0x1_0000_0000_0000_0000 + LONG_MIN
  }

  /** The result of a 32-bit `Int` operation whose exact value is `x`. */
  function WrapInt(x: int): (r: Int32)
    ensures (r - x) % 0x1_0000_0000 == 0
    ensures INT_MIN <= x <= INT_MAX ==> r == x
  {
    (x - INT_MIN) % 0x1_0000_0000 + INT_MIN
  }

  /** The error codes the module rejects a promise with. */
  datatype ErrorCode =
    | ERR_ALREADY_DOWNLOADING
    | ERR_DOWNLOAD
    | ERR_DOWNLOAD_TIMEOUT
    | ERR_DOWNLOAD_CANCELLED
    | ERR_MODEL_NOT_FOUND
    | ERR_CREATE_MODEL
    | MODEL_CREATION_FAILED
    | INVALID_HANDLE
    | RELEASE_FAILED

  /** How a promise handed to an `AsyncFunction` is settled. */
  datatype Reply<+T> = Resolved(value: T) | Rejected(code: ErrorCode)

  /** The state of a promise that may not have been settled yet. */
  datatype Promise<+T> = Pending | Settled(reply: Reply<T>)
}
