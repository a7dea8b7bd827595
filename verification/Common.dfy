/** Definitions and facts that several modules share. */
module Common {

  datatype Option<T> = None | Some(value: T)

  /** Quotient and remainder are unique. */
  lemma {:induction false} ModUnique(x: int, q: int, r: nat, m: nat)
    requires x == m * q + r && r < m
    ensures x % m == r
  {
    var d := x / m - q;
    assert x % m - r == -(m * d);
    assert d >= 1 ==> m * d >= m;
    assert d <= -1 ==> m * d + m <= 0;
  }
}
