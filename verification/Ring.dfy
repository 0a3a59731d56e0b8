/** Positions of a stream in a ring buffer of `n` cells. */
module Ring {

  /** The cell of position `p`; for `n` a power of two, `p & (n - 1)`. */
  ghost function Idx(n: nat, p: nat): (i: nat)
    requires n > 0
    ensures i < n
  {
    if p < n then p else Idx(n, p - n)
  }

  lemma MulBounds(m: nat, d: int)
    requires m > 0
    ensures d >= 1 ==> m * d >= m
    ensures d <= -1 ==> m * d + m <= 0
  {
  }

  lemma ModUnique(a: nat, m: nat, q: int, r: nat)
    requires m > 0 && r < m && a == m * q + r
    ensures a % m == r
  {
    assert a == m * (a / m) + a % m;
    assert m * (q - a / m) == a % m - r;
    MulBounds(m, q - a / m);
  }

  /** Adding the modulus does not change a remainder. */
  lemma ModStep(a: nat, m: nat)
    requires m > 0
    ensures (m + a) % m == a % m
  {
    assert a == m * (a / m) + a % m;
    assert m + a == m * (a / m + 1) + a % m;
    ModUnique(m + a, m, a / m + 1, a % m);
  }

  lemma {:induction false} IdxIsMod(n: nat, p: nat)
    requires n > 0
    ensures Idx(n, p) == p % n
  {
    if p >= n {
      IdxIsMod(n, p - n);
      ModStep(p - n, n);
    } else {
      ModUnique(p, n, 0, p);
    }
  }

  lemma {:induction false} IdxApart(n: nat, p: nat, q: nat)
    requires n > 0 && p < q < p + n
    ensures Idx(n, p) != Idx(n, q)
  {
    if p >= n { IdxApart(n, p - n, q - n); }
  }

  lemma {:induction false} IdxPlus(n: nat, p: nat, k: nat)
    requires n > 0 && k <= n
    ensures Idx(n, p + k) == if Idx(n, p) + k < n then Idx(n, p) + k else Idx(n, p) + k - n
  {
    if p >= n { IdxPlus(n, p - n, k); }
  }
}
