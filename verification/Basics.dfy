/** Values shared by every component: options, results, machine words, digests and nonces. */
module Basics {

  datatype Option<+T> = None | Some(value: T)

  datatype Result<+T, +E> = Ok(value: T) | Err(error: E)

  type U32 = x: int | 0 <= x < 0x1_0000_0000

  type U64 = x: int | 0 <= x < 0x1_0000_0000_0000_0000

  type Byte = x: int | 0 <= x < 256

  type Bytes32 = s: seq<Byte> | |s| == 32 witness ZERO_BYTES

  const ZERO_BYTES: seq<Byte> :=
    [0, 0, 0, 0, 0, 0, 0, 0, 0, 0, 0, 0, 0, 0, 0, 0, 0, 0, 0, 0, 0, 0, 0, 0, 0, 0, 0, 0, 0, 0, 0, 0]

  /** A SHA-256 value or an execution or semantic root: exactly 32 bytes. */
  datatype Digest = Digest(bytes: Bytes32)

  /** The execution root of a session in which nothing has been committed. */
  const ZERO_ROOT := Digest(ZERO_BYTES)

  /** A one-shot token: two 64-bit limbs. */
  datatype Nonce = Nonce(high: U64, low: U64)

  function Min(a: int, b: int): int {
    if a <= b then a else b
  }

  function Max(a: int, b: int): int {
    if a <= b then b else a
  }
}
