/** The few facts about products and remainders that several models share. */
module Arith {
  lemma {:induction false} Scale(i: int, j: int, size: nat)
    requires i < j
    ensures i * size + size <= j * size
  {
    assert j * size == i * size + (j - i) * size;
    assert (j - i) * size == size + (j - i - 1) * size;
  }

  /** Quotient and remainder are unique. */
  lemma {:induction false} Remainder(x: int, m: nat, q: int, r: int)
    requires m > 0 && x == q * m + r && 0 <= r < m
    ensures x % m == r && x / m == q
  {
    var q2, r2 := x / m, x % m;
    assert x == q2 * m + r2;
    if q < q2 {
      Scale(q, q2, m);
    } else if q2 < q {
      Scale(q2, q, m);
    }
  }

  lemma {:induction false} DoubleRight(a: int, b: int)
    ensures a * (2 * b) == 2 * (a * b)
  {
  }

  /** Dividing by at least two makes a positive number smaller. */
  lemma {:induction false} QuotientSmaller(x: nat, m: nat)
    requires m >= 2 && x >= 1
    ensures 0 <= x / m < x
  {
    var q := x / m;
    assert x == q * m + x % m;
    if q >= 1 {
      Scale(1, m, q);
      assert m * q == q * m;
    }
  }

  lemma {:induction false} DivMod(x: int, m: nat)
    requires m > 0
    ensures x == x / m * m + x % m && 0 <= x % m < m
  {
  }
}
