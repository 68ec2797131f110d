/** Integer helpers: the binomial coefficient by the multiplicative formula. */
module MathF {
  import opened JavaInt

  /** The binomial coefficient C(m, i), by Pascal's rule. */
  function Choose(m: nat, i: nat): nat
  {
    if i == 0 then 1 else if m == 0 then 0 else Choose(m - 1, i - 1) + Choose(m - 1, i)
  }

  /** C(m, i) = 0 when i exceeds m. */
  lemma {:induction false} ChooseAbove(m: nat, i: nat)
    requires i > m
    ensures Choose(m, i) == 0
  {
    if m > 0 {
      ChooseAbove(m - 1, i - 1);
      ChooseAbove(m - 1, i);
    }
  }

  /** C(m, 1) = m. */
  lemma {:induction false} ChooseOne(m: nat)
    ensures Choose(m, 1) == m
  {
    if m > 0 {
      ChooseOne(m - 1);
    }
  }

  /** C(m, m) = 1. */
  lemma {:induction false} ChooseAll(m: nat)
    ensures Choose(m, m) == 1
  {
    if m > 0 {
      ChooseAll(m - 1);
      ChooseAbove(m - 1, m);
    }
  }

  lemma Distrib(x: int, y: int, z: int)
    ensures x * (y + z) == x * y + x * z
  {
  }

  /** The absorption identity i C(m, i) = m C(m - 1, i - 1): each step's division is exact. */
  lemma {:induction false} Absorb(m: nat, i: nat)
    requires m >= 1 && i >= 1
    ensures i * Choose(m, i) == m * Choose(m - 1, i - 1)
  {
    if m == 1 {
      if i > 1 {
        ChooseAbove(0, i - 1);
        ChooseAbove(0, i);
      }
    } else if i == 1 {
      ChooseOne(m);
    } else {
      var a, b := Choose(m - 1, i - 1), Choose(m - 1, i);
      var lo, hi := Choose(m - 2, i - 2), Choose(m - 2, i - 1);
      assert Choose(m, i) == a + b;
      assert a == lo + hi;
      Absorb(m - 1, i);
      Absorb(m - 1, i - 1);
      AbsorbStep(i, m, a, b, lo, hi);
    }
  }

  /** The arithmetic of Absorb's inductive step. */
  lemma AbsorbStep(i: int, m: int, a: int, b: int, lo: int, hi: int)
    requires a == lo + hi
    requires i * b == (m - 1) * hi
    requires (i - 1) * a == (m - 1) * lo
    ensures i * (a + b) == m * a
  {
    Distrib(i, a, b);
    assert i * a == a + (i - 1) * a;
    Distrib(m - 1, lo, hi);
    assert m * a == a + (m - 1) * a;
  }

  /** One loop step: C(m - 1, i - 1) * m / i is exactly C(m, i). */
  lemma StepExact(m: nat, i: nat)
    requires 1 <= i <= m
    ensures Div(Choose(m - 1, i - 1) * m, i) == Choose(m, i)
  {
    Absorb(m, i);
    assert Choose(m - 1, i - 1) * m == Choose(m, i) * i;
    ExactQuotient(Choose(m, i), i);
  }

  /** A multiple of d divided by d. */
  lemma ExactQuotient(c: nat, d: int)
    requires d > 0
    ensures Div(c * d, d) == c
  {
    ModUnique(c * d, d, c, 0);
  }

  /**
   * binomialCoefficient(n, k): result := result * (n - k + i) / i for
   * i = 1..k. After step i the result is C(n - k + i, i), so for
   * 0 <= k <= n it ends at C(n, k); for k <= 0 the loop does not run.
   */
  method BinomialCoefficient(n: int, k: int) returns (result: int)
    ensures k <= 0 ==> result == 1
    ensures 0 <= k <= n ==> result == Choose(n, k)
  {
    result := 1;
    var i := 1;
    while i <= k
      invariant 1 <= i && (k >= 0 ==> i <= k + 1) && (k <= 0 ==> i == 1 && result == 1)
      invariant 0 <= k <= n ==> result == Choose(n - k + i - 1, i - 1)
    {
      if 0 <= k <= n {
        StepExact(n - k + i, i);
      }
      result := Div(result * (n - k + i), i);
      i := i + 1;
    }
  }

  /** binomialCoefficient(n, 0) = 1, (n, 1) = n and (n, n) = 1 through the formula's reference value. */
  lemma BinomialEdges(n: nat)
    ensures Choose(n, 0) == 1
    ensures Choose(n, 1) == n
    ensures Choose(n, n) == 1
  {
    ChooseOne(n);
    ChooseAll(n);
  }
}
