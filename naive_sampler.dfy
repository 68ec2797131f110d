/**
 * A sampler that forwards one item in every |sampleRate|: the first item,
 * then every |sampleRate|-th after it. Java's remainder takes the sign of
 * the dividend, so a negative rate counts like its absolute value.
 */
module NaiveSampler {
  import opened JavaInt

  class NaiveSampler<T> {
    const sampleRate: int32
    var counter: int32
    /** How many items accept has seen (not a field of the original; it states the invariant). */
    ghost var accepted: nat

    ghost predicate Valid()
      reads this
    {
      sampleRate != 0 && 0 <= counter < Abs(sampleRate) && counter == accepted % Abs(sampleRate)
    }

    /** NaiveSampler(sampleRate, callback): the counter starts at 0. */
    constructor(sampleRate: int32)
      requires sampleRate != 0
      ensures Valid() && this.sampleRate == sampleRate && counter == 0 && accepted == 0
    {
      this.sampleRate := sampleRate;
      counter := 0;
      accepted := 0;
      ModUnique(0, Abs(sampleRate), 0, 0);
    }

    /**
     * accept(t): calls the callback (forwarded = true) when the counter is 0,
     * then advances the counter by Java's `(counter + 1) % sampleRate`. The
     * sum can pass Integer.MAX_VALUE only when sampleRate is Integer.MIN_VALUE,
     * and both the wrapped and the exact sum then leave remainder 0.
     */
    method Accept(t: T) returns (forwarded: bool)
      requires Valid()
      modifies this
      ensures Valid() && accepted == old(accepted) + 1
      ensures forwarded <==> old(accepted) % Abs(sampleRate) == 0
      ensures Abs(sampleRate) == 1 ==> forwarded
    {
      forwarded := counter == 0;
      RemOfNonNegative(counter + 1, sampleRate);
      counter := Rem(counter + 1, sampleRate);
      CounterStep(accepted, Abs(sampleRate));
      accepted := accepted + 1;
    }
  }

  lemma CounterStep(n: nat, rate: int)
    requires rate > 0
    ensures (n % rate + 1) % rate == (n + 1) % rate
  {
    var q, r := n / rate, n % rate;
    assert n + 1 == q * rate + (r + 1);
    if r + 1 < rate {
      assert (n + 1) % rate == r + 1 by {
        ModUnique(n + 1, rate, q, r + 1);
      }
    } else {
      assert n + 1 == (q + 1) * rate + 0;
      ModUnique(n + 1, rate, q + 1, 0);
    }
  }

  /** For a non-negative dividend, Java's remainder is the remainder by the divisor's absolute value. */
  lemma RemOfNonNegative(a: int, b: int)
    requires a >= 0 && b != 0
    ensures Rem(a, b) == a % Abs(b)
  {
    var q := if b > 0 then Div(a, b) else -Div(a, b);
    assert a == q * Abs(b) + Rem(a, b);
    ModUnique(a, Abs(b), q, Rem(a, b));
  }
}
