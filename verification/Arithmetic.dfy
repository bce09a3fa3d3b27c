/** Powers, products and quotients, for the modules that count in bits and digits. */
module Arithmetic {

  function Pow(b: nat, e: nat): (r: nat)
    ensures b >= 1 ==> r >= 1
  {
    if e == 0 then 1 else b * Pow(b, e - 1)
  }

  lemma {:induction false} PowSum(b: nat, m: nat, n: nat)
    ensures Pow(b, m + n) == Pow(b, m) * Pow(b, n)
  {
    if m > 0 {
      PowSum(b, m - 1, n);
      assert Pow(b, m + n) == b * (Pow(b, m - 1) * Pow(b, n));
      Regroup(b, Pow(b, m - 1), Pow(b, n));
    }
  }

  lemma {:induction false} Regroup(a: int, b: int, c: int)
    ensures a * (b * c) == (a * b) * c && (a * b) * c == (a * c) * b
  {
  }

  lemma {:induction false} MulMonotone(a: int, b: int, k: int)
    requires a <= b && k >= 0
    ensures a * k <= b * k
  {
  }

  lemma {:induction false} MulStrict(a: int, b: int, k: int)
    requires a < b && k > 0
    ensures a * k < b * k
  {
  }

  /** A quotient and remainder that fit are the quotient and remainder. */
  lemma {:induction false} DivisionIsUnique(x: int, m: int, q: int, r: int)
    requires m > 0 && x == q * m + r && 0 <= r < m
    ensures x / m == q && x % m == r
  {
    var q2, r2 := x / m, x % m;
    assert x == m * q2 + r2;
    assert m * q2 == q2 * m;
    assert (q + 1) * m == q * m + m && (q2 + 1) * m == q2 * m + m;
    if q < q2 { MulMonotone(q + 1, q2, m); } else if q2 < q { MulMonotone(q2 + 1, q, m); }
  }
}
