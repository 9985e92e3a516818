/** Division facts the solver does not find alone. */
module Arithmetic {
  function Min(a: int, b: int): int { if a <= b then a else b }

  function Pow2(k: nat): (r: nat)
    ensures r > 0
  {
    if k == 0 then 1 else 2 * Pow2(k - 1)
  }

  /** The numbers below `n`. */
  function Range(n: nat): (r: set<nat>)
    ensures forall i: nat :: i in r <==> i < n
  {
    if n == 0 then {} else Range(n - 1) + {n - 1}
  }

  lemma {:induction false} RangeSize(n: nat)
    ensures |Range(n)| == n
  {
    if n > 0 { RangeSize(n - 1); }
  }

  lemma MulBeyond(n: int, d: int)
    requires n > 0
    ensures d >= 1 ==> n * d >= n
    ensures d <= -1 ==> n * d <= -n
  {
  }

  lemma DivModUnique(x: int, n: int, q: int, r: int)
    requires n > 0 && x == n * q + r && 0 <= r < n
    ensures x / n == q && x % n == r
  {
    var d := x / n - q;
    assert n * (x / n) + x % n == x;
    assert n * d == r - x % n by { assert n * d == n * (x / n) - n * q; }
    MulBeyond(n, d);
  }

  lemma MultipleMod(k: int, n: int)
    requires n > 0
    ensures (n * k) % n == 0 && (n * k) / n == k
  {
    DivModUnique(n * k, n, k, 0);
  }

  /** Adding a multiple of the divisor moves the quotient and keeps the remainder. */
  lemma AddMultiple(x: int, k: int, n: int)
    requires n > 0
    ensures (x + n * k) % n == x % n && (x + n * k) / n == x / n + k
  {
    assert x + n * k == n * (x / n + k) + x % n by { assert n * (x / n + k) == n * (x / n) + n * k; }
    DivModUnique(x + n * k, n, x / n + k, x % n);
  }

  lemma DivIsMonotone(x: int, y: int, n: int)
    requires n > 0 && x <= y
    ensures x / n <= y / n
  {
    assert n * (x / n) <= x && y < n * (y / n) + n;
    var d := x / n - y / n;
    assert n * d == n * (x / n) - n * (y / n);
    MulBeyond(n, d);
  }

  lemma MulIsMonotone(a: int, b: int, n: int)
    requires n >= 0 && a <= b
    ensures a * n <= b * n && n * a <= n * b
  {
  }
}
