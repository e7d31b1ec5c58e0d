/** Java's fixed-width integer types and its wrap-around on overflow and narrowing. */
module JavaInts {

  const INT32_MIN: int := -0x8000_0000
  const INT32_MAX: int := 0x7fff_ffff
  const INT64_MIN: int := -0x8000_0000_0000_0000
  const INT64_MAX: int := 0x7fff_ffff_ffff_ffff

  /** Java `int`. */
  newtype int32 = x: int | -0x8000_0000 <= x < 0x8000_0000

  /** Java `long`. */
  newtype int64 = x: int | -0x8000_0000_0000_0000 <= x < 0x8000_0000_0000_0000

  /** The value of a `long` expression: the low 64 bits of the exact value, in two's complement. */
  function WrapLong(x: int): (r: int64)
    ensures (r as int - x) % 0x1_0000_0000_0000_0000 == 0
    ensures INT64_MIN <= x <= INT64_MAX ==> r as int == x
  {
    var low := x % 0x1_0000_0000_0000_0000;
    if low < 0x8000_0000_0000_0000 then low as int64 else (low - 0x1_0000_0000_0000_0000) as int64
  }

  /** The `(int)` cast of a `long`: keeps the low 32 bits, read in two's complement. */
  function Narrow(x: int64): (r: int32)
    ensures (r as int - x as int) % 0x1_0000_0000 == 0
    ensures INT32_MIN <= x as int <= INT32_MAX ==> r as int == x as int
  {
    var low := x as int % 0x1_0000_0000;
    if low < 0x8000_0000 then low as int32 else (low - 0x1_0000_0000) as int32
  }
}
