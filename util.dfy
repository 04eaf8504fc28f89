/** Value types shared by every component: bytes, addresses and the
    failure-carrying wrappers used for actor aborts and error returns. */
module Util {

  /** One octet, as Go's `byte`. */
  newtype byte = b: int | 0 <= b < 256

  /** Go's `util.Bytes` (a `[]byte`). */
  type Bytes = seq<byte>

  /** An actor or miner address (`addr.Address`), kept opaque as a number. */
  type Address = nat

  /** A chain epoch (`block.ChainEpoch`, a signed 64-bit integer in Go). */
  type ChainEpoch = int

  datatype Option<+T> = None | Some(value: T)

  /** Pass, or a failure carrying the reason; an actor abort is a `Fail`. */
  datatype Outcome<+E> = Pass | Fail(error: E)

  datatype Result<+R, +E> = Success(value: R) | Failure(error: E)
}
