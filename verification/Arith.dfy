/** Division facts that the solver does not find unaided for a symbolic divisor. */
module Arith {

  lemma {:induction false} MulAtLeast(b: int, x: int)
    requires 0 < b && 1 <= x
    ensures b * x >= b
  {
  }

  lemma {:induction false} MulMono(a: int, b: int, d: int)
    requires a <= b && 0 <= d
    ensures a * d <= b * d
  {
  }

  /** Two Euclidean decompositions of one number agree. */
  lemma {:induction false} EuclidUnique(b: int, q: int, m: int, q': int, m': int)
    requires 0 <= m < b && 0 <= m' < b && b * q + m == b * q' + m'
    ensures q == q' && m == m'
  {
    if q > q' {
      MulAtLeast(b, q - q');
    } else if q < q' {
      MulAtLeast(b, q' - q);
    }
  }

  lemma {:induction false} DivModUnique(a: int, b: int, q: int, m: int)
    requires 0 <= m < b && a == b * q + m
    ensures a / b == q && a % b == m
  {
    EuclidUnique(b, q, m, a / b, a % b);
  }

  lemma {:induction false} AddModulus(a: int, b: int)
    requires 0 < b
    ensures (a + b) % b == a % b
    ensures (a + b) / b == a / b + 1
  {
    DivModUnique(a + b, b, a / b + 1, a % b);
  }

  /** Two numbers less than one modulus apart have distinct remainders. */
  lemma {:induction false} DistinctRemainders(x: int, y: int, b: int)
    requires 0 < b && x < y < x + b
    ensures x % b != y % b
  {
    var q, q' := x / b, y / b;
    if x % b == y % b {
      assert b * (q' - q) == y - x;
      if q' > q { MulAtLeast(b, q' - q); } else if q' < q { MulAtLeast(b, q - q'); }
    }
  }

  function Min(a: int, b: int): int { if a <= b then a else b }

  function Max(a: int, b: int): int { if a >= b then a else b }
}
