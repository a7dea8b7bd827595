/**
 The period of the generator: from any seed it runs through every number from 1 to M - 1.
 */
module LehmerPeriod {
  import opened Lehmer
  import opened LehmerPowers

  /** M - 1, which is 2 * 3 * 3 * 7 * 11 * 31 * 151 * 331. */
  const N := 2147483646

  // ----- divisibility -----

  /** `g == x * s + p * t`, and `g` divides both. */
  lemma {:induction false} Bezout(x: nat, p: nat) returns (g: nat, s: int, t: int, a: nat, b: nat)
    requires x > 0 || p > 0
    ensures g > 0 && g == x * s + p * t && x == g * a && p == g * b
    decreases p
  {
    if p == 0 {
      g, s, t, a, b := x, 1, 0, 1, 0;
    } else {
      var q, r := x / p, x % p;
      var s', t', a', b';
      g, s', t', a', b' := Bezout(p, r);
      s, t := t', s' - q * t';
      a, b := q * a' + b', a';
      assert x == p * q + r;
      assert x * t' == p * q * t' + r * t' by { assert (p * q + r) * t' == p * q * t' + r * t'; }
      assert p * (s' - q * t') == p * s' - p * q * t' by { assert p * (q * t') == p * q * t'; }
      assert g * (q * a' + b') == g * a' * q + g * b' by { assert g * (q * a') == g * a' * q; }
    }
  }

  ghost predicate Product(x: int, g: int, b: int) { x == g * b }

  ghost predicate Divides(g: nat, x: nat) {
    exists b: nat :: Product(x, g, b)
  }

  ghost predicate Prime(p: nat) {
    p > 1 && forall g: nat, b: nat :: Product(p, g, b) ==> g == 1 || g == p
  }

  /** A divisor of `p * m` that the prime `p` does not divide is a divisor of `m`. */
  lemma {:induction false} Euclid(x: nat, y: nat, p: nat, m: nat) returns (z: int)
    requires Prime(p) && x * y == p * m && x > 0 && !Divides(p, x)
    ensures m == x * z
  {
    var g, s, t, a, b := Bezout(x, p);
    assert Product(p, g, b) && Product(x, g, a);
    assert g != p;
    z := m * s + y * t;
    assert (x * y) * t == x * (y * t);
    assert x * (m * s + y * t) == x * (m * s) + x * (y * t);
  }

  // ----- exponents that give one -----

  lemma {:induction false} Cancel(a: nat, k: nat)
    requires Power(a) == Power(a + k)
    ensures Power(k) == 1
  {
    if a > 0 {
      PowerInRange(a - 1);
      PowerInRange(a - 1 + k);
      StepIsInjective(Power(a - 1), Power(a - 1 + k));
      Cancel(a - 1, k);
    }
  }

  lemma {:induction false} UnitMultiple(d: nat, q: nat)
    requires Power(d) == 1
    ensures Power(d * q) == 1
  {
    if q > 0 {
      UnitMultiple(d, q - 1);
      assert d * q == d * (q - 1) + d;
      PowerAdds(d * (q - 1), d);
    }
  }

  lemma {:induction false} UnitRemainder(d: nat, q: nat, r: nat)
    requires Power(d) == 1 && Power(d * q + r) == 1
    ensures Power(r) == 1
  {
    UnitMultiple(d, q);
    PowerAdds(d * q, r);
    PowerInRange(r);
  }

  /** The least positive exponent that gives one. */
  lemma {:induction false} LeastUnit(k: nat) returns (d: nat)
    requires k > 0 && Power(k) == 1
    ensures 0 < d <= k && Power(d) == 1 && forall e: nat :: 0 < e < d ==> Power(e) != 1
    decreases k
  {
    if e: nat :| 0 < e < k && Power(e) == 1 {
      d := LeastUnit(e);
    } else {
      d := k;
    }
  }

  /**
   If `d == P * x` gives one, `x` divides `p * m`, and `P * m` does not give one, then `p` divides `x`:
   the whole factor `p` is in `d`.
   */
  lemma {:induction false} StripPrime(d: nat, P: nat, x: nat, y: nat, p: nat, m: nat) returns (x': nat)
    requires Prime(p) && d == P * x && x > 0 && x * y == p * m
    requires Power(d) == 1 && Power(P * m) != 1
    ensures x == p * x' && x' * y == m && d == (P * p) * x'
  {
    if Divides(p, x) {
      x' :| Product(x, p, x');
      assert p * (x' * y) == p * m by { assert (p * x') * y == p * (x' * y); }
      CancelFactor(p, x' * y, m);
      assert P * (p * x') == (P * p) * x';
    } else {
      var z := Euclid(x, y, p, m);
      assert (P * x) * z == P * (x * z);
      UnitMultiple(d, z);
    }
  }

  lemma {:induction false} CancelFactor(p: nat, a: int, b: int)
    requires p > 0 && p * a == p * b
    ensures a == b
  {
    assert p * (a - b) == 0;
  }

  // ----- the order of the multiplier -----

  predicate NoDivisor(p: nat, k: nat) {
    k <= 1 || (p % k != 0 && NoDivisor(p, k - 1))
  }

  lemma {:induction false} NoDivisorAt(p: nat, k: nat, g: nat)
    requires NoDivisor(p, k) && 1 < g <= k
    ensures p % g != 0
  {
    if g < k { NoDivisorAt(p, k - 1, g); }
  }

  /** It is enough to try the divisors up to the square root. */
  lemma {:induction false} TrialDivision(p: nat, r: nat)
    requires 1 < p < (r + 1) * (r + 1) && NoDivisor(p, r) && r < p
    ensures Prime(p)
  {
    forall g: nat, b: nat | Product(p, g, b) ensures g == 1 || g == p {
      if g > r && b > r {
        MulGrows(g, b, r + 1);
      } else if g <= r {
        NotAFactor(p, r, g, b);
      } else {
        assert p == b * g;
        NotAFactor(p, r, b, g);
      }
    }
  }

  lemma {:induction false} MulGrows(g: nat, b: nat, r: nat)
    requires g >= r && b >= r
    ensures g * b >= r * r
  {
    assert g * b >= r * b;
    assert r * b >= r * r;
  }

  lemma {:induction false} NotAFactor(p: nat, r: nat, g: nat, b: nat)
    requires p > 0 && NoDivisor(p, r) && g <= r && p == g * b
    ensures g == 1
  {
    if g > 1 {
      NoDivisorAt(p, r, g);
      QuotientIsExact(g, b, p / g, p % g);
    }
  }

  lemma {:induction false} QuotientIsExact(g: nat, b: int, q: int, r: nat)
    requires r < g && g * b == g * q + r
    ensures r == 0
  {
    var k := b - q;
    assert g * k == r by { assert g * (b - q) == g * b - g * q; }
    if k >= 1 {
      assert g * k == g + g * (k - 1);
    } else if k <= -1 {
      assert g * k == g * (k + 1) - g;
    }
  }

  lemma {:induction false} Primes()
    ensures Prime(2) && Prime(3) && Prime(7) && Prime(11) && Prime(31) && Prime(151) && Prime(331)
  {
    hide Prime;
    TrialDivision(2, 1);
    TrialDivision(3, 1);
    TrialDivision(7, 2);
    TrialDivision(11, 3);
    TrialDivision(31, 5);
    assert NoDivisor(151, 6);
    TrialDivision(151, 12);
    assert NoDivisor(331, 6);
    assert NoDivisor(331, 12);
    TrialDivision(331, 18);
  }

  /** A divisor of N that gives one is N itself: no prime factor of N can be missing from it. */
  lemma {:induction false} OrderIsFull(d: nat, y: nat)
    requires d > 0 && Power(d) == 1 && d * y == N
    ensures d == N
  {
    hide Power;
    hide Prime;
    Primes();
    PowerOver2();
    PowerOver3();
    PowerOver7();
    PowerOver11();
    PowerOver31();
    PowerOver151();
    PowerOver331();
    var x := StripPrime(d, 1, d, y, 2, 1073741823);
    x := StripPrime(d, 2, x, y, 3, 357913941);
    x := StripPrime(d, 6, x, y, 3, 119304647);
    x := StripPrime(d, 18, x, y, 7, 17043521);
    x := StripPrime(d, 126, x, y, 11, 1549411);
    x := StripPrime(d, 1386, x, y, 31, 49981);
    x := StripPrime(d, 42966, x, y, 151, 331);
    x := StripPrime(d, 6487866, x, y, 331, 1);
  }

  /** No positive exponent below N gives one. */
  lemma {:induction false} NoShortCycle(k: nat)
    requires k > 0 && Power(k) == 1
    ensures k >= N
  {
    hide Power;
    var d := LeastUnit(k);
    PowerOver2();
    var q, r := N / d, N % d;
    assert d * q + r == N;
    UnitRemainder(d, q, r);
    assert r == 0;
    OrderIsFull(d, q);
  }

  lemma {:induction false} PowersDiffer(i: nat, j: nat)
    requires i < j < N
    ensures Power(i) != Power(j)
  {
    hide Power;
    if Power(i) == Power(j) {
      Cancel(i, j - i);
      NoShortCycle(j - i);
    }
  }

  // ----- every number is a power -----

  ghost function Image(f: nat -> int, n: nat): set<int> {
    if n == 0 then {} else Image(f, n - 1) + {f(n - 1)}
  }

  ghost function Numbers(n: nat): set<int> {
    if n == 0 then {} else Numbers(n - 1) + {n}
  }

  lemma {:induction false} NumbersAre(n: nat)
    ensures |Numbers(n)| == n && forall x :: x in Numbers(n) <==> 1 <= x <= n
  {
    if n > 0 { NumbersAre(n - 1); }
  }

  lemma {:induction false} ImageIs(f: nat -> int, n: nat)
    ensures forall x :: x in Image(f, n) <==> exists i: nat :: i < n && f(i) == x
  {
    if n > 0 { ImageIs(f, n - 1); }
  }

  lemma {:induction false} ImageSize(f: nat -> int, n: nat)
    requires forall i: nat, j: nat :: i < j < n ==> f(i) != f(j)
    ensures |Image(f, n)| == n
  {
    if n > 0 {
      ImageSize(f, n - 1);
      ImageIs(f, n - 1);
    }
  }

  /** An injective function from the first `n` numbers to 1 .. n takes every value. */
  lemma {:induction false} Pigeonhole(f: nat -> int, n: nat, x: int) returns (i: nat)
    requires forall i: nat :: i < n ==> 1 <= f(i) <= n
    requires forall i: nat, j: nat :: i < j < n ==> f(i) != f(j)
    requires 1 <= x <= n
    ensures i < n && f(i) == x
  {
    ImageSize(f, n);
    ImageIs(f, n);
    NumbersAre(n);
    var missing := Numbers(n) - Image(f, n);
    forall y | y in Image(f, n) ensures y in Numbers(n) {
      var k: nat :| k < n && f(k) == y;
    }
    assert Image(f, n) + missing == Numbers(n) && Image(f, n) !! missing;
    assert |missing| == 0;
    assert x !in missing;
    assert x in Image(f, n);
    i :| i < n && f(i) == x;
  }

  lemma {:induction false} EveryNumberIsAPower(t: Seed) returns (i: nat)
    ensures i < N && Power(i) == t
  {
    var f := (i: nat) => Power(i);
    forall i: nat | i < N ensures 1 <= f(i) <= N {
      PowerInRange(i);
    }
    forall i: nat, j: nat | i < j < N ensures f(i) != f(j) {
      PowersDiffer(i, j);
    }
    i := Pigeonhole(f, N, t);
  }

  // ----- the generator -----

  /** The state after `n` calls of `Next`. */
  function Iterate(s: int, n: nat): int {
    if n == 0 then s else Step(Iterate(s, n - 1))
  }

  lemma {:induction false} IterateIsPower(i: nat, n: nat)
    ensures Iterate(Power(i), n) == Power(i + n)
  {
    if n > 0 { IterateIsPower(i, n - 1); }
  }

  /** From any seed, every number from 1 to M - 1 comes up within M - 1 calls. */
  lemma {:induction false} ReachesEveryNumber(s: Seed, t: Seed) returns (n: nat)
    ensures n < N && Iterate(s, n) == t
  {
    hide Power;
    var i := EveryNumberIsAPower(s);
    var j := EveryNumberIsAPower(t);
    n := if i <= j then j - i else N + j - i;
    IterateIsPower(i, n);
    if i > j {
      PowerOver2();
      PowerAdds(N, j);
    }
  }

  /** And no sooner than after M - 1 calls does it come back to where it was. */
  lemma {:induction false} PeriodIsExact(s: Seed, n: nat)
    ensures Iterate(s, N) == s
    ensures 0 < n < N ==> Iterate(s, n) != s
  {
    hide Power;
    var i := EveryNumberIsAPower(s);
    IterateIsPower(i, N);
    PowerOver2();
    PowerAdds(i, N);
    if 0 < n < N {
      IterateIsPower(i, n);
      if Power(i + n) == Power(i) {
        Cancel(i, n);
        NoShortCycle(n);
      }
    }
  }
}
