/** Facts about row-major positions `y * n + x`, which the flat iterator and the reshape of the
    start vector both rely on; the solver does not find them unaided. */
module Arith {

  /** Multiplying by at least one does not shrink a natural number. */
  lemma MulGrows(d: int, n: nat)
    requires d >= 1
    ensures d * n >= n
  {
    assert d * n == (d - 1) * n + n;
  }

  /** A position `y * n + x` with `x < n` divides back into `y` and `x`. */
  lemma DivModOfPos(p: nat, n: nat, x: nat, y: nat)
    requires x < n && p == y * n + x
    ensures p / n == y && p % n == x
  {
    var q, r := p / n, p % n;
    assert (y - q) * n == r - x;
    if q < y {
      MulGrows(y - q, n);
      assert false;
    } else if q > y {
      MulGrows(q - y, n);
      assert false;
    }
  }

  /** The position `y * n + x` with `x < n` lies inside an `n` by `m` field exactly when `y < m`. */
  lemma PosInField(n: nat, m: nat, x: nat, y: nat)
    requires x < n
    ensures y * n + x < n * m <==> y < m
  {
    if y < m {
      assert (y + 1) * n <= m * n;
    } else {
      assert y * n >= m * n;
    }
  }
}
