/** Fixed-width C integer types used by the serial line readers, and the
    C conversions between them and mathematical integers. */
module CTypes {

  /** uint8_t */
  newtype uint8 = x: int | 0 <= x < 0x100

  /** uint16_t */
  newtype uint16 = x: int | 0 <= x < 0x1_0000

  /** A pointer that may be NULL: None is NULL, Some(block) the bytes it points to. */
  datatype Option<+T> = None | Some(value: T)

  /** Conversion of an integer to uint8_t: C reduces modulo 2^8. */
  function ToUint8(x: int): (r: uint8)
    ensures (r as int - x) % 0x100 == 0
    ensures 0 <= x < 0x100 ==> r as int == x
  {
    (x % 0x100) as uint8
  }

  /** Conversion of an integer (a `long`) to uint16_t: C reduces modulo 2^16. */
  function ToUint16(x: int): (r: uint16)
    ensures (r as int - x) % 0x1_0000 == 0
    ensures 0 <= x < 0x1_0000 ==> r as int == x
  {
    (x % 0x1_0000) as uint16
  }

  function Min(a: int, b: int): (m: int)
    ensures m <= a && m <= b && (m == a || m == b)
  {
    if a <= b then a else b
  }
}
