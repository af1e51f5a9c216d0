/**
 * Java's fixed-width integers: `int` and `long` values, the two's-complement
 * wrap-around of their arithmetic and narrowing casts, and `long` division,
 * which truncates toward zero (Dafny's `/` is Euclidean).
 */
module JavaInts {

  const INT_MIN: int := -0x8000_0000
  const INT_MAX: int := 0x7FFF_FFFF
  const LONG_MIN: int := -0x8000_0000_0000_0000
  const LONG_MAX: int := 0x7FFF_FFFF_FFFF_FFFF

  type int32 = x: int | -0x8000_0000 <= x <= 0x7FFF_FFFF
  type int64 = x: int | -0x8000_0000_0000_0000 <= x <= 0x7FFF_FFFF_FFFF_FFFF

  function Abs(x: int): nat { if x < 0 then -x else x }

  /** The `int` that an exact result becomes in Java: the one congruent to it modulo 2^32. */
  function WrapInt(x: int): (r: int32)
    ensures (x - r) % 0x1_0000_0000 == 0
    ensures INT_MIN <= x <= INT_MAX ==> r == x
  {
    if INT_MIN <= x <= INT_MAX then x
    else
      var d := x - INT_MIN;
      assert d - d % 0x1_0000_0000 == d / 0x1_0000_0000 * 0x1_0000_0000;
      d % 0x1_0000_0000 + INT_MIN
  }

  /** The `long` that an exact result becomes in Java: the one congruent to it modulo 2^64. */
  function WrapLong(x: int): (r: int64)
    ensures (x - r) % 0x1_0000_0000_0000_0000 == 0
    ensures LONG_MIN <= x <= LONG_MAX ==> r == x
  {
    if LONG_MIN <= x <= LONG_MAX then x
    else
      var d := x - LONG_MIN;
      assert d - d % 0x1_0000_0000_0000_0000 == d / 0x1_0000_0000_0000_0000 * 0x1_0000_0000_0000_0000;
      d % 0x1_0000_0000_0000_0000 + LONG_MIN
  }

  /** Java's `a / b` on `long`: the quotient is truncated toward zero; LONG_MIN / -1 wraps. */
  function LongDiv(a: int64, b: int64): (r: int64)
    requires b != 0
    ensures 0 <= a && 0 < b ==> r == a / b
  {
    if 0 <= a && 0 < b then
      QuotientAtMost(a, b);
      a / b
    else
      var magnitude := Abs(a) / Abs(b);
      QuotientAtMost(Abs(a), Abs(b));
      WrapLong(if (a < 0) == (b < 0) then magnitude else -magnitude)
  }

  /** The 32-bit pattern `e` read as a Java `int`. */
  function Signed32(e: bv32): (r: int32)
    ensures (r - e as int) % 0x1_0000_0000 == 0
  {
    if e as int <= INT_MAX then e as int else e as int - 0x1_0000_0000
  }

  /** Widening an `int` to `long` in a bitwise expression: the sign bit is copied into the upper half. */
  function SignExtend(e: bv32): (r: bv64)
    ensures r == 0 <==> e == 0
  {
    if e & 0x8000_0000 == 0 then e as bv64 else e as bv64 | 0xFFFF_FFFF_0000_0000
  }

  lemma MulMonotonic(a: nat, b: nat, c: nat)
    requires b <= c
    ensures a * b <= a * c
  {
  }

  lemma QuotientAtMost(n: nat, d: nat)
    requires d > 0
    ensures n / d <= n
  {
    var q := n / d;
    assert n == d * q + n % d;
    MulMonotonic(q, 1, d);
  }
}
