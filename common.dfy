/** Machine integer types, the Option wrapper and the USB write outcome shared by
    every firmware binary and by the host tool. */
module Common {

  /** An unsigned 8-bit value (`u8`). */
  type byte = x: int | 0 <= x < 0x100

  /** An unsigned 16-bit value (`u16`). */
  type u16 = x: int | 0 <= x < 0x1_0000

  /** An unsigned 32-bit value (`u32`). */
  type u32 = x: int | 0 <= x < 0x1_0000_0000

  /** A reading of the free-running 32-bit hardware timer. */
  type Tick = u32

  const U32_MAX: u32 := 0xFFFF_FFFF

  /** Size in bytes of one pool block (`[u8; 4096]`). */
  const BLOCK_SIZE: nat := 4096

  /** A pool block: a fixed-size byte buffer owned by one holder at a time. */
  type Block = array<byte>

  datatype Option<T> = None | Some(value: T)

  /** The three outcomes of `serial.write(..)`: `Ok(n)`, `Err(UsbError::WouldBlock)`
      and any other `Err(_)`. */
  datatype WriteResult = Written(n: nat) | WouldBlock | WriteError

  function Min(a: int, b: int): (r: int)
    ensures r <= a && r <= b && (r == a || r == b)
  {
    if a <= b then a else b
  }

  function Max(a: int, b: int): (r: int)
    ensures r >= a && r >= b && (r == a || r == b)
  {
    if a >= b then a else b
  }

  /** `u32::wrapping_add` / `fetch_add` on an `AtomicU32`. */
  function WrappingAdd(a: u32, b: nat): (r: u32)
    ensures a + b < 0x1_0000_0000 ==> r == a + b
  {
    (a + b) % 0x1_0000_0000
  }
}
