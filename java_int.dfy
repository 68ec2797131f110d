/**
 * Java and C fixed-width integer arithmetic over Dafny's unbounded integers:
 * two's-complement wrap-around, division and remainder that truncate toward
 * zero.
 */
module JavaInt {
  const INT_MIN: int := -0x8000_0000
  const INT_MAX: int := 0x7FFF_FFFF
  const TWO_32: int := 0x1_0000_0000
  const LONG_MIN: int := -0x8000_0000_0000_0000
  const LONG_MAX: int := 0x7FFF_FFFF_FFFF_FFFF

  predicate IsInt32(x: int) { INT_MIN <= x <= INT_MAX }
  predicate IsInt64(x: int) { LONG_MIN <= x <= LONG_MAX }

  type int32 = x: int | INT_MIN <= x <= INT_MAX

  /** The 32-bit two's-complement value congruent to x, as a Java int keeps it. */
  function Wrap32(x: int): (r: int32)
    ensures (x - r) % TWO_32 == 0
    ensures IsInt32(x) ==> r == x
  {
    var m := x % TWO_32;
    if m <= INT_MAX then m else m - TWO_32
  }

  /** Adding 2^32 does not change the wrapped value. */
  lemma Wrap32Shift(x: int)
    requires IsInt32(x)
    ensures Wrap32(x + TWO_32) == x
  {
    ModUnique(x + TWO_32, TWO_32, if x >= 0 then 1 else 0, if x >= 0 then x else x + TWO_32);
  }

  /** The unsigned reading of a 32-bit pattern. */
  function Unsigned(x: int32): (u: nat)
    ensures u < TWO_32 && Wrap32(u) == x
  {
    if x >= 0 then x else x + TWO_32
  }

  /** Java's and C's `/`: the quotient truncated toward zero. */
  function Div(a: int, b: int): (q: int)
    requires b != 0
    ensures a >= 0 && b > 0 ==> q == a / b
  {
    if a >= 0 then (if b > 0 then a / b else -(a / -b))
    else (if b > 0 then -(-a / b) else -a / -b)
  }

  /** Java's and C's `%`: the remainder takes the sign of the dividend. */
  function Rem(a: int, b: int): (r: int)
    requires b != 0
    ensures a == Div(a, b) * b + r
    ensures a >= 0 ==> 0 <= r < Abs(b)
    ensures a < 0 ==> -Abs(b) < r <= 0
  {
    DivRem(a, b);
    a - Div(a, b) * b
  }

  /** For a non-negative dividend and a positive divisor, Java's % is the Euclidean remainder. */
  lemma RemNonNegative(a: int, b: int)
    requires a >= 0 && b > 0
    ensures Rem(a, b) == a % b
  {
    assert a == (a / b) * b + a % b;
  }

  function Abs(x: int): (r: int)
    ensures r >= 0 && (r == x || r == -x)
  {
    if x < 0 then -x else x
  }

  lemma DivRem(a: int, b: int)
    requires b != 0
    ensures a >= 0 ==> 0 <= a - Div(a, b) * b < Abs(b)
    ensures a < 0 ==> -Abs(b) < a - Div(a, b) * b <= 0
  {
    var n, d := Abs(a), Abs(b);
    DivTimesDivisor(a, b);
    assert n == (n / d) * d + n % d && 0 <= n % d < d;
  }

  /** The truncated quotient times the divisor is the magnitude's floor multiple, signed like a. */
  lemma DivTimesDivisor(a: int, b: int)
    requires b != 0
    ensures a >= 0 ==> Div(a, b) * b == (Abs(a) / Abs(b)) * Abs(b)
    ensures a < 0 ==> Div(a, b) * b == -((Abs(a) / Abs(b)) * Abs(b))
  {
    var q, d := Abs(a) / Abs(b), Abs(b);
    MulNeg(q, d);
  }

  lemma MulNeg(x: int, y: int)
    ensures (-x) * (-y) == x * y && (-x) * y == -(x * y) && x * (-y) == -(x * y)
  {
  }

  function Min(a: int, b: int): int { if a <= b then a else b }
  function Max(a: int, b: int): int { if a >= b then a else b }

  function Pow2(k: nat): (p: nat)
    ensures p >= 1
  {
    if k == 0 then 1 else 2 * Pow2(k - 1)
  }

  lemma {:induction false} MulAtLeast(k: int, d: int)
    requires k >= 1 && d > 0
    ensures k * d >= d
    decreases k
  {
    if k > 1 {
      MulAtLeast(k - 1, d);
      assert k * d == (k - 1) * d + d;
    }
  }

  /** Euclidean division is unique: the quotient and remainder are pinned by their range. */
  lemma ModUnique(x: int, d: int, q: int, r: int)
    requires d > 0 && x == q * d + r && 0 <= r < d
    ensures x % d == r && x / d == q
  {
    var q', r' := x / d, x % d;
    assert x == q' * d + r';
    if q' > q {
      assert (q' - q) * d == r - r';
      MulAtLeast(q' - q, d);
    } else if q' < q {
      assert (q - q') * d == r' - r;
      MulAtLeast(q - q', d);
    }
  }

  lemma {:induction false} Pow2Monotone(k: nat, n: nat)
    requires k <= n
    ensures Pow2(k) <= Pow2(n)
    ensures k < n ==> Pow2(k) < Pow2(n)
    decreases n
  {
    if k < n { Pow2Monotone(k, n - 1); }
  }
}
