/** Machine bytes and the unsigned ranges the protocol is written in. */
module Bytes {
  datatype Option<T> = None | Some(value: T)

  type byte = b: int | 0 <= b < 256

  const TWO16: int := 0x1_0000
  const TWO31: int := 0x8000_0000
  const TWO32: int := 0x1_0000_0000
  const TWO64: int := 0x1_0000_0000_0000_0000

  type u16 = x: int | 0 <= x < TWO16
  type u32 = x: int | 0 <= x < TWO32
  type u64 = x: int | 0 <= x < TWO64

  /** Unsigned 64-bit addition and multiplication as the machine performs them. */
  function Add64(a: u64, b: u64): u64 { (a + b) % TWO64 }
  function Mul64(a: u64, b: u64): u64 { (a * b) % TWO64 }
}
