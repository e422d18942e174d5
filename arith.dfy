/** Facts about multiplication, division and remainder on naturals, kept
    apart from the proofs about sequences that use them. */
module Arith {
  lemma MulLe(a: int, b: int, d: int)
    requires a <= b && d >= 0
    ensures a * d <= b * d
  {
    assert b * d - a * d == (b - a) * d;
  }

  /** Euclidean division is unique: a quotient and a remainder in range are
      `n / d` and `n % d`. */
  lemma DivModUnique(n: int, d: int, q: int, r: int)
    requires d > 0 && 0 <= r < d && n == q * d + r
    ensures n / d == q && n % d == r
  {
    var q', r' := n / d, n % d;
    assert n == q' * d + r';
    if q' > q {
      MulLe(q + 1, q', d);
    } else if q' < q {
      MulLe(q' + 1, q, d);
    }
  }

  /** Position `(i * b + j) * c + k` of a grid of `a` by `b` by `c` cells,
      and the coordinates recovered from it. */
  lemma GridIndex(i: nat, j: nat, k: nat, a: nat, b: nat, c: nat)
    requires i < a && j < b && k < c
    ensures (i * b + j) * c + k < a * b * c
    ensures ((i * b + j) * c + k) / (b * c) == i
    ensures ((i * b + j) * c + k) / c % b == j
    ensures ((i * b + j) * c + k) % c == k
  {
    var n := (i * b + j) * c + k;
    DivModUnique(n, c, i * b + j, k);
    DivModUnique(i * b + j, b, i, j);
    MulLe(j + 1, b, c);
    assert n == i * (b * c) + (j * c + k);
    DivModUnique(n, b * c, i, j * c + k);
    MulLe(i + 1, a, b * c);
  }

  /** Every position of a nonempty grid has coordinates in range. */
  lemma GridCoords(n: nat, a: nat, b: nat, c: nat)
    requires n < a * b * c
    ensures b > 0 && c > 0
    ensures n / (b * c) < a && n / c % b < b && n % c < c
  {
    assert n == (b * c) * (n / (b * c)) + n % (b * c);
    if n / (b * c) >= a {
      MulLe(a, n / (b * c), b * c);
    }
  }

  /** Filling one row of a grid moves the position to the next row. */
  lemma NextRow(i: nat, b: nat, c: nat)
    ensures (i * b + b) * c == (i + 1) * b * c
  {
  }
}
