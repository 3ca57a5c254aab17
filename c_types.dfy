// The fixed-width C integer types the engine and the driver use.
module CTypes {
  /** uint8_t, one byte of the device. */
  type byte = x: int | 0 <= x < 0x100

  /** uint16_t: every pointer, size and count of the engine. */
  type u16 = x: int | 0 <= x < 0x1_0000

  /** Conversion of an `int` result back into a `uint16_t` (wrap-around modulo 2^16). */
  function Trunc16(x: int): (r: u16)
    ensures 0 <= x < 0x1_0000 ==> r == x
    ensures -0x1_0000 <= x < 0 ==> r == x + 0x1_0000
    ensures 0x1_0000 <= x < 0x2_0000 ==> r == x - 0x1_0000
  {
    x % 0x1_0000
  }
}
