/** Go's fixed-width integer types and the optional value used across the model. */
module GoTypes {

  /** Go's `byte` (uint8). Go strings are byte strings, so they are `seq<byte>` here. */
  newtype byte = x: int | 0 <= x < 0x100

  /** Go's `uint32`. */
  newtype uint32 = x: int | 0 <= x < 0x1_0000_0000

  const TWO_32: int := 0x1_0000_0000

  /** `uint32(x)` for a signed Go integer: two's-complement truncation, i.e. x mod 2^32. */
  function ToUint32(x: int): uint32
  {
    (x % TWO_32) as uint32
  }

  /** `byte(x)` for an unsigned integer: keep the low eight bits. */
  function LowByte(x: nat): byte
  {
    (x % 0x100) as byte
  }

  datatype Option<+T> = None | Some(value: T)

  /** A Go `(T, error)` pair where exactly one side is meaningful. */
  datatype Result<+T> = Ok(value: T) | Err(message: string)
}
