/** C++ integer semantics that the wall computation relies on: division
    that truncates toward zero, and `unsigned int` arithmetic that wraps. */
module CInt {

  const UINT_MAX := 0xFFFF_FFFF

  /** An `unsigned int`. */
  type UInt32 = x: int | 0 <= x <= UINT_MAX

  /** `a / 2` on a C++ `int`: the quotient is rounded toward zero, so the
      remainder takes the sign of `a` (Dafny's own `/` rounds down instead). */
  function Half(a: int): (q: int)
    ensures 0 <= a ==> 0 <= a - 2 * q <= 1
    ensures a < 0 ==> -1 <= a - 2 * q <= 0
  {
    if a >= 0 then a / 2 else -((-a) / 2)
  }

  /** Truncating division commutes with negation: `-w / 2 == -(w / 2)`. */
  lemma HalfOfNegation(a: int)
    ensures Half(-a) == -Half(a)
  {
  }

  /** `x + 1` on an `unsigned int`: `UINT_MAX` wraps around to 0, as C++
      defines `unsigned int` arithmetic modulo 2^32. */
  function Inc(x: UInt32): (r: UInt32)
    ensures r == (x + 1) % (UINT_MAX + 1)
  {
    if x == UINT_MAX then 0 else x + 1
  }

  /** `x -= 1` on an `unsigned int`: 0 wraps around to `UINT_MAX`, modulo
      2^32 as for `Inc`. */
  function Dec(x: UInt32): (r: UInt32)
    ensures r == (x - 1) % (UINT_MAX + 1)
  {
    if x == 0 then UINT_MAX else x - 1
  }

  /** A decrement followed by an increment leaves every `unsigned int` as it
      was, including 0, which passes through `UINT_MAX`. */
  lemma IncAfterDec(x: UInt32)
    ensures Inc(Dec(x)) == x
  {
  }
}
