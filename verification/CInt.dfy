/** The C integer operations the calendar code relies on, spelled out over `int`:
    a 32-bit `int`, a 32-bit `unsigned`, a 64-bit `BBInt64`, truncating `/` and `%`,
    and conversions modulo 2^32. */
module CInt {
  const INT_MIN: int := -0x8000_0000
  const INT_MAX: int := 0x7FFF_FFFF
  const INT64_MIN: int := -0x8000_0000_0000_0000
  const INT64_MAX: int := 0x7FFF_FFFF_FFFF_FFFF
  const TWO_32: int := 0x1_0000_0000

  datatype Option<+T> = None | Some(value: T)

  predicate IsInt(x: int) {
    INT_MIN <= x <= INT_MAX
  }

  predicate IsUnsigned(x: int) {
    0 <= x < TWO_32
  }

  predicate IsInt64(x: int) {
    INT64_MIN <= x <= INT64_MAX
  }

  /** Conversion to `unsigned`: reduction modulo 2^32. */
  function Unsigned(x: int): (u: int)
    ensures IsUnsigned(u)
  {
    if IsUnsigned(x) then x else x % TWO_32
  }

  /** Conversion of a wider value to `int`: the low 32 bits read as two's complement. */
  function Narrow(x: int): (i: int)
    ensures IsInt(i)
  {
    if IsInt(x) then x
    else if x % TWO_32 <= INT_MAX then x % TWO_32
    else x % TWO_32 - TWO_32
  }

  /** C's `/` for a positive divisor: truncation toward zero. */
  function Quot(a: int, b: int): int
    requires b > 0
  {
    if a >= 0 then a / b else -((-a) / b)
  }

  /** C's `%` for a positive divisor: the remainder takes the sign of the dividend. */
  function Rem(a: int, b: int): int
    requires b > 0
  {
    a - b * Quot(a, b)
  }
}
