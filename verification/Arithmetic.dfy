/** Powers of two, and facts about integer division that the solver does not find by itself. */
module Arithmetic {

  function Pow2(k: nat): (r: nat)
    ensures r > 0
  {
    if k == 0 then 1 else 2 * Pow2(k - 1)
  }

  lemma StrictFactor(a: int, b: int, m: nat)
    requires 0 < m && a < b
    ensures a * m < b * m
  {
    Distribute(b, a, m);
    assert (b - a) * m > 0;
  }

  lemma CancelFactor(a: int, b: int, m: nat)
    requires 0 < m && a * m <= b * m
    ensures a <= b
  {
    if b < a { StrictFactor(b, a, m); }
  }

  lemma DivideTimes(x: nat, m: nat)
    requires 0 < m
    ensures x / m * m <= x
  {
  }

  lemma Distribute(a: int, b: int, m: int)
    ensures (a + b) * m == a * m + b * m
    ensures (a - b) * m == a * m - b * m
  {
  }

  lemma DivideUnique(x: int, m: nat, q: int, r: nat)
    requires 0 < m && x == q * m + r && r < m
    ensures x / m == q && x % m == r
  {
    var d := x / m - q;
    Distribute(x / m, q, m);
    CancelStrict(d, m);
  }

  lemma CancelStrict(d: int, m: int)
    requires 0 < m && 0 - m < d * m < m
    ensures d == 0
  {
  }

  lemma MultipleModulo(n: int, m: nat)
    requires 0 < m
    ensures (n * m) % m == 0 && (n * m) / m == n
  {
    DivideUnique(n * m, m, n, 0);
  }

  lemma ModuloShift(x: int, q: int, m: nat)
    requires 0 < m
    ensures (x + q * m) % m == x % m
  {
    Distribute(x / m, q, m);
    DivideUnique(x + q * m, m, x / m + q, x % m);
  }

  /** Reducing a summand first makes no difference. */
  lemma ModuloAdd(a: int, b: int, m: nat)
    requires 0 < m
    ensures (a % m + b) % m == (a + b) % m
  {
    ModuloShift(a % m + b, a / m, m);
  }

  lemma ModuloEqual(a: int, b: int, m: nat)
    requires 0 < m && a % m == b % m
    ensures (b - a) % m == 0
  {
    var qa, qb := a / m, b / m;
    Distribute(qb, qa, m);
    assert b - a == (qb - qa) * m;
    MultipleModulo(qb - qa, m);
  }

  lemma ModuloDifference(a: int, b: int, m: nat)
    requires 0 < m
    ensures a % m == b % m <==> (b - a) % m == 0
  {
    if a % m == b % m {
      ModuloEqual(a, b, m);
    }
    if (b - a) % m == 0 {
      var q := (b - a) / m;
      assert b == a + q * m;
      ModuloShift(a, q, m);
    }
  }
}
