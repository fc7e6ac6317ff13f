/** The few facts about division by a variable that the proofs need. */
module Arithmetic {

  function Min(a: int, b: int): int {
    if a < b then a else b
  }

  lemma MulBound(m: int, d: int)
    requires m >= 0
    ensures d >= 1 ==> m * d >= m
    ensures d <= -1 ==> m * d <= -m
  {
  }

  lemma DivModUnique(a: int, m: nat, q: int, r: nat)
    requires a == m * q + r && r < m
    ensures a / m == q && a % m == r
  {
    MulBound(m, q - a / m);
    assert m * (q - a / m) == a % m - r;
  }

  lemma Doubles(q: int, k: int)
    ensures 2 * q * k == q * (2 * k)
  {
  }

  /** Adding a multiple of m does not change a remainder. */
  lemma ModShift(n: nat, b: nat, m: nat)
    requires m > 0 && n % m == 0
    ensures (n + b) % m == b % m
  {
    MulAdd(m, n / m, b / m);
    DivModUnique(n + b, m, n / m + b / m, b % m);
  }

  lemma MulAdd(m: int, a: int, b: int)
    ensures m * (a + b) == m * a + m * b
  {
  }

  lemma DivisibleByHalf(n: nat, h: nat)
    requires h > 0 && n % (2 * h) == 0
    ensures n % h == 0
  {
    var k := n / (2 * h);
    Doubles(h, k);
    DivModUnique(n, h, 2 * k, 0);
  }

  lemma SumDivisible(a: nat, b: nat, m: nat)
    requires m > 0 && a % m == 0 && b % m == 0
    ensures (a + b) % m == 0
  {
    ModShift(a, b, m);
  }

  lemma ModStep(a: nat, b: nat, n: nat)
    requires n > 0 && b <= n
    ensures a % n + b < n ==> (a + b) % n == a % n + b
    ensures a % n + b >= n ==> (a + b) % n == a % n + b - n
  {
    var q, r := a / n, a % n;
    assert a == n * q + r;
    if r + b < n {
      DivModUnique(a + b, n, q, r + b);
    } else {
      assert n * (q + 1) == n * q + n;
      DivModUnique(a + b, n, q + 1, r + b - n);
    }
  }
}
