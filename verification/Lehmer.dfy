/**
 `Random`: the multiplicative generator modulo the prime 2^31 - 1, reduced with shifts and adds.
 */
module Lehmer {
  import opened Common

  const M := 0x7FFF_FFFF
  const A := 16807
  const TWO31 := 0x8000_0000
  const TWO32 := 0x1_0000_0000

  /** The inverse of the multiplier modulo M. */
  const A_INVERSE := 1407677000

  type Seed = s: int | 1 <= s < M witness 1

  /** The sequence that the generator promises. */
  function Step(s: int): int { s * A % M }

  lemma {:induction false} MulMod(x: int, y: int)
    ensures (x % M) * y % M == x * y % M
  {
    var q := x / M;
    assert x == M * q + x % M;
    assert x * y == M * (q * y) + (x % M) * y by {
      assert (M * q + x % M) * y == M * q * y + (x % M) * y;
    }
    ModShift((x % M) * y, q * y);
  }

  lemma {:induction false} ModShift(x: int, k: int)
    ensures (x + M * k) % M == x % M
  {
    ModUnique(x + M * k, x / M + k, x % M, M);
  }

  /** Multiplying by the inverse undoes a step, so steps stay away from zero and are injective. */
  lemma {:induction false} StepInverts(s: Seed)
    ensures Step(s) * A_INVERSE % M == s
  {
    MulMod(s * A, A_INVERSE);
    assert s * A * A_INVERSE == s + M * (11017 * s);
    ModShift(s, 11017 * s);
  }

  lemma {:induction false} StepStaysInRange(s: Seed)
    ensures 1 <= Step(s) < M
  {
    StepInverts(s);
  }

  lemma {:induction false} StepIsInjective(s: Seed, t: Seed)
    requires Step(s) == Step(t)
    ensures s == t
  {
    StepInverts(s);
    StepInverts(t);
  }

  /** The shift-and-add reduction: the high and low halves add up to the product modulo M. */
  lemma {:induction false} FoldedProduct(s: Seed)
    ensures var product := s * A; var folded := product / TWO31 + product % TWO31;
            && 0 < folded < TWO32
            && Step(s) == if folded > M then folded - M else folded
  {
    var product := s * A;
    var high, low := product / TWO31, product % TWO31;
    assert product == M * high + (high + low);
    StepStaysInRange(s);
    ModShift(high + low, high);
    assert high < A;
  }

  class Random {
    var seed: int

    ghost predicate Valid()
      reads this
    {
      1 <= seed < M
    }

    /** Only 31 bits of the argument count, and the two bad seeds become one. */
    constructor (s: int)
      requires 0 <= s < TWO32
      ensures Valid() && seed == if s % TWO31 == 0 || s % TWO31 == M then 1 else s % TWO31
    {
      var masked := s % TWO31;
      seed := if masked == 0 || masked == M then 1 else masked;
    }

    method Next() returns (r: int)
      requires Valid()
      modifies this
      ensures Valid() && seed == r == Step(old(seed))
    {
      FoldedProduct(seed);
      var product := seed * A;
      seed := (product / TWO31 + product % TWO31) % TWO32;
      if seed > M {
        seed := seed - M;
      }
      r := seed;
    }
  }
}
