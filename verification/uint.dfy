/** The fixed-width integers of the C source, with the wrap-around of
    their arithmetic written out explicitly. */
module Uint {

  const U32Limit: int := 0x1_0000_0000

  type u8 = x: int | 0 <= x < 0x100
  type u32 = x: int | 0 <= x < 0x1_0000_0000
  /** A C `int` on the 32-bit target. */
  type i32 = x: int | -0x8000_0000 <= x < 0x8000_0000

  /** `a + b` evaluated in uint32_t. */
  function Add32(a: u32, b: u32): (r: u32)
    ensures a + b < U32Limit ==> r == a + b
    ensures a + b >= U32Limit ==> r == a + b - U32Limit
  {
    (a + b) % U32Limit
  }

  /** `a - b` evaluated in uint32_t. */
  function Sub32(a: u32, b: u32): (r: u32)
    ensures a >= b ==> r == a - b
    ensures a < b ==> r == U32Limit + a - b
  {
    (a - b) % U32Limit
  }

  /** The implicit conversion of a C `int` argument to a uint32_t parameter. */
  function ToU32(x: i32): (r: u32)
    ensures x >= 0 ==> r == x
    ensures x < 0 ==> r == U32Limit + x
  {
    x % U32Limit
  }
}
