/** Facts about Euclidean division that the layout and indexing proofs rely on. */
module Arith {

  /** A quotient/remainder pair with `0 <= r < n` determines `a % n` and `a / n`. */
  lemma DivModUnique(a: int, q: int, r: int, n: int)
    requires n > 0 && 0 <= r < n && a == q * n + r
    ensures a % n == r && a / n == q
  {
    var q', r' := a / n, a % n;
    assert a == q' * n + r';
    assert (q - q') * n == r' - r;
    if q > q' {
      MulAtLeast(q - q', n);
    } else if q < q' {
      MulAtLeast(q' - q, n);
    }
  }

  lemma MulAtLeast(d: int, n: int)
    requires d >= 1 && n > 0
    ensures d * n >= n
  {
  }

  /** Shifting by a whole number of periods leaves the residue alone. */
  lemma ModShift(i: int, k: int, n: int)
    requires n > 0
    ensures (i + k * n) % n == i % n
  {
    var q, r := i / n, i % n;
    assert i == q * n + r;
    assert i + k * n == (q + k) * n + r;
    DivModUnique(i + k * n, q + k, r, n);
  }
}
