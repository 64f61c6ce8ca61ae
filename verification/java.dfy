/** Java language semantics that the player code relies on: 32-bit ints,
    truncating division, nullable results and thrown exceptions. */
module Java {

  datatype Option<+T> = None | Some(value: T)

  datatype Result<+T, +E> = Success(value: T) | Failure(error: E)

  /** How a Java call ended: it returned normally, or it threw. */
  datatype Outcome =
    | Returned
    | NullPointerException
    | IllegalArgumentException(message: string)

  const INT_MIN: int := -0x8000_0000
  const INT_MAX: int := 0x7FFF_FFFF

  /** Java's `int`. */
  type Int32 = x: int | INT_MIN <= x <= INT_MAX

  /** Java's `a / b` for a positive divisor: the quotient truncated toward zero. */
  function Div(a: int, b: int): (q: int)
    requires b > 0
    ensures a >= 0 ==> 0 <= a - b * q < b
    ensures a < 0 ==> -b < a - b * q <= 0
  {
    if a >= 0 then a / b else -((-a) / b)
  }

  /** Java's `a % b` for a positive divisor: the remainder takes the sign of `a`. */
  function Rem(a: int, b: int): (r: int)
    requires b > 0
    ensures a >= 0 ==> 0 <= r < b
    ensures a < 0 ==> -b < r <= 0
  {
    a - b * Div(a, b)
  }
}
