/** The C integer types the VM's data structures use, and the conversions
    between them that C performs on assignment: to an unsigned type the
    value is reduced modulo `2^width`; to `int32_t`, a value above its range
    wraps (two's complement, as every compiler the VM targets does). */
module CTypes {

  const U32_LIMIT: nat := 0x1_0000_0000
  const U64_LIMIT: nat := 0x1_0000_0000_0000_0000

  /** `uint32_t`. */
  type U32 = x: int | 0 <= x < 0x1_0000_0000

  /** `int32_t`. */
  type I32 = x: int | -0x8000_0000 <= x < 0x8000_0000

  /** An `int32_t` converted to `uint32_t`. */
  function ToU32(x: I32): (r: U32)
    ensures r % U32_LIMIT == x % U32_LIMIT
    ensures ToI32(r) == x
  {
    if x < 0 then x + 0x1_0000_0000 else x
  }

  /** A `uint32_t` converted to `int32_t`. */
  function ToI32(x: U32): (r: I32)
    ensures r % U32_LIMIT == x
    ensures 0 <= r ==> r == x
  {
    if x < 0x8000_0000 then x else x - 0x1_0000_0000
  }

  /** `uint32_t` subtraction `a - b`. */
  function SubU32(a: U32, b: U32): (r: U32)
    ensures b <= a ==> r == a - b
    ensures a < b ==> r == a - b + U32_LIMIT
  {
    (a - b) % 0x1_0000_0000
  }

  /** `size_t` (64 bits) subtraction `a - b`. */
  function SubSize(a: nat, b: nat): (r: nat)
    requires a < U64_LIMIT && b < U64_LIMIT
    ensures r < U64_LIMIT
    ensures b <= a ==> r == a - b
    ensures a < b ==> r == a - b + U64_LIMIT
  {
    (a - b) % U64_LIMIT
  }

  /** An `int32_t` converted to the 64-bit `size_t`. */
  function ToSize(x: I32): (r: nat)
    ensures r < U64_LIMIT && r % U32_LIMIT == x % U32_LIMIT
    ensures 0 <= x ==> r == x
  {
    if x < 0 then x + U64_LIMIT else x
  }
}
