/** Integer helpers shared by the C++ sources: the `utils::clip` template, the
    truncating `%` of C++, and the ranges of `int` and `uint8_t`. */
module Numeric {

  const INT32_MIN: int := -0x8000_0000
  const INT32_MAX: int := 0x7fff_ffff

  /** A value that fits a 32-bit C++ `int`. */
  predicate InInt32(x: int) {
    INT32_MIN <= x <= INT32_MAX
  }

  function Min(a: int, b: int): int { if a <= b then a else b }
  function Max(a: int, b: int): int { if a <= b then b else a }

  /** `utils::clip(n, low, high) = std::max(low, std::min(n, high))`; the same
      expression clamps clicks in the frame scene. */
  function Clip(n: int, low: int, high: int): (r: int)
    ensures low <= high ==> low <= r <= high
    ensures low <= n <= high ==> r == n
    ensures n < low ==> r == low
    ensures low <= high && high < n ==> r == high
  {
    Max(low, Min(n, high))
  }

  /** Clipping is monotone: it keeps the order of two values. */
  lemma ClipMonotone(a: int, b: int, low: int, high: int)
    requires a <= b
    ensures Clip(a, low, high) <= Clip(b, low, high)
  {
  }

  /** C++ `a % b` for `int`: the remainder truncates toward zero, so it takes the sign
      of `a` (Dafny's own `%` is Euclidean). */
  function CRem(a: int, b: int): (r: int)
    requires b > 0
    ensures a >= 0 ==> r == a % b && 0 <= r < b
    ensures a < 0 ==> -b < r <= 0
  {
    if a >= 0 then a % b else -((-a) % b)
  }

  /** Conversion of an `int` to `uint8_t`: reduction modulo 256. */
  function ToUint8(x: int): (r: int)
    ensures 0 <= r < 256
    ensures 0 <= x < 256 ==> r == x
  {
    x % 256
  }
}
