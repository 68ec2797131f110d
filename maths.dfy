/** Integer clamping. */
module Maths {
  import opened JavaInt

  /** clampInt(value, min, max) = Math.max(min, Math.min(max, value)). */
  function ClampInt(value: int32, min: int32, max: int32): (r: int32)
    ensures min <= max ==> min <= r <= max
    ensures min <= value <= max ==> r == value
    ensures value < min ==> r == min
    ensures min <= max < value ==> r == max
    ensures max < min ==> r == min
  {
    Max(min, Min(max, value))
  }

  /** Clamping twice is clamping once. */
  lemma ClampIdempotent(value: int32, min: int32, max: int32)
    ensures ClampInt(ClampInt(value, min, max), min, max) == ClampInt(value, min, max)
  {
  }
}
