/**
 * A string hash for Bloom filters: starting from a seed, each character
 * folds in as h := (h * 31 + c) % size.
 */
module HashFunction {
  import opened JavaInt

  /** HashFunction: the table size and the seed drawn when it was made. */
  datatype HashFunction = HashFunction(size: int32, seed: int32)

  /**
   * The constructor draws the seed as (int)(Math.random() * Integer.MAX_VALUE),
   * a value in [0, Integer.MAX_VALUE); the draw is the parameter here.
   */
  function NewHashFunction(size: int32, draw: int32): (f: HashFunction)
    requires 0 <= draw < INT_MAX
    ensures f.size == size && 0 <= f.seed < INT_MAX
  {
    HashFunction(size, draw)
  }

  /** One step as written: h * 31 + c wraps as a Java int before the remainder. */
  function StepAsWritten(h: int32, c: char, size: int32): (r: int32)
    requires size != 0
    ensures -Abs(size) < r < Abs(size)
  {
    Rem(Wrap32(h * 31 + c as int), size)
  }

  /** hash(value) as written: the fold of StepAsWritten over the characters. */
  function HashAsWritten(f: HashFunction, s: string): (r: int32)
    requires f.size != 0
    ensures s != [] ==> -Abs(f.size) < r < Abs(f.size)
  {
    if s == [] then f.seed else StepAsWritten(HashAsWritten(f, s[..|s| - 1]), s[|s| - 1], f.size)
  }

  /**
   * A seed near Integer.MAX_VALUE overflows on the first character: the hash
   * of "a" is -613, and BitSet.set(-613) throws.
   */
  lemma HashAsWrittenOverflows()
    ensures HashAsWritten(HashFunction(1000, 2147483646), "a") == -613
  {
    var f := HashFunction(1000, 2147483646);
    assert "a"[..0] == [];
    assert Wrap32(2147483646 * 31 + 97) == -2147483613 by {
      Wrap32Shift(-2147483613);
      assert 2147483646 * 31 + 97 == -2147483613 + 16 * TWO_32;
      assert Wrap32(-2147483613 + 16 * TWO_32) == Wrap32(-2147483613 + TWO_32) by {
        WrapPeriodic(-2147483613 + TWO_32, 15);
      }
    }
  }

  lemma WrapPeriodic(x: int, k: nat)
    ensures Wrap32(x + k * TWO_32) == Wrap32(x)
  {
    var m := x % TWO_32;
    ModUnique(x + k * TWO_32, TWO_32, x / TWO_32 + k, m);
  }

  /** One step as intended: the same fold computed without 32-bit overflow (as Java long). */
  function Step(h: int, c: char, size: int): int
    requires size > 0
  {
    (h * 31 + c as int) % size
  }

  /** hash(value) as intended: the fold of Step over the characters, starting from the seed. */
  function Hash(f: HashFunction, s: string): (r: int)
    requires f.size > 0
    ensures s == [] ==> r == f.seed
    ensures s != [] ==> 0 <= r < f.size
  {
    if s == [] then f.seed else Step(Hash(f, s[..|s| - 1]), s[|s| - 1], f.size)
  }

  /** hash(value): the loop over the characters, keeping the running hash. */
  method ComputeHash(f: HashFunction, s: string) returns (h: int)
    requires f.size > 0
    ensures h == Hash(f, s)
    ensures f.seed >= 0 ==> h >= 0
  {
    h := f.seed;
    var i := 0;
    while i < |s|
      invariant 0 <= i <= |s|
      invariant h == Hash(f, s[..i])
    {
      assert s[..i + 1][..i] == s[..i];
      h := Step(h, s[i], f.size);
      i := i + 1;
    }
    assert s[..|s|] == s;
  }

  /**
   * As long as no intermediate product overflows (the seed and the table
   * size are small enough), the code as written computes the intended hash.
   */
  lemma {:induction false} NoOverflowAgrees(f: HashFunction, s: string)
    requires f.size > 0 && 0 <= f.seed
    requires f.seed * 31 + 0x10FFFF <= INT_MAX && f.size * 31 + 0x10FFFF <= INT_MAX
    ensures HashAsWritten(f, s) == Hash(f, s)
    ensures s != [] ==> 0 <= HashAsWritten(f, s) < f.size
  {
    if s != [] {
      var p := s[..|s| - 1];
      NoOverflowAgrees(f, p);
      var h := Hash(f, p);
      assert 0 <= h <= f.seed || 0 <= h < f.size;
      var x := h * 31 + s[|s| - 1] as int;
      assert 0 <= x <= INT_MAX;
      RemNonNegative(x, f.size);
    }
  }
}
