/** Facts about multiplication and Euclidean division that the solver does not find by itself. */
module Arith {

  lemma MulAtLeast(m: int, k: int)
    requires 0 < m && 1 <= k
    ensures m <= m * k
  {
  }

  lemma MulAtMost(m: int, k: int)
    requires 0 < m && k <= -1
    ensures m * k <= -m
  {
  }

  lemma DivUnique(a: int, m: int, q: int, r: int)
    requires 0 < m && 0 <= r < m && a == m * q + r
    ensures a / m == q && a % m == r
  {
    var q' := a / m;
    assert m * (q - q') == a % m - r;
    if q' < q { MulAtLeast(m, q - q'); }
    if q < q' { MulAtMost(m, q - q'); }
  }

  lemma SmallMod(a: int, m: int)
    requires 0 <= a < m
    ensures a % m == a && a / m == 0
  {
    DivUnique(a, m, 0, a);
  }

  lemma ModOfMultiple(x: int, m: int)
    requires 0 < m
    ensures (m * x) % m == 0 && (m * x) / m == x
  {
    DivUnique(m * x, m, x, 0);
  }

  lemma AlignedSum(a: int, b: int, m: int)
    requires 0 < m && a % m == 0 && b % m == 0
    ensures (a + b) % m == 0 && (a - b) % m == 0
  {
    var x, y := a / m, b / m;
    assert a + b == m * (x + y) && a - b == m * (x - y);
    ModOfMultiple(x + y, m);
    ModOfMultiple(x - y, m);
  }

  /** A multiple of m strictly between -m and m is 0. */
  lemma SmallMultipleIsZero(a: int, m: int)
    requires 0 < m && a % m == 0 && -m < a < m
    ensures a == 0
  {
    var q := a / m;
    assert a == m * q;
    if 1 <= q { MulAtLeast(m, q); }
    if q <= -1 { MulAtMost(m, q); }
  }
}
