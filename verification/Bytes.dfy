/** Machine integers and bit operations shared by the models. */
module Bytes {
  type byte = x: int | 0 <= x < 0x100
  type word = x: int | 0 <= x < 0x1_0000

  /** The bitwise OR of two unsigned numbers. */
  function Or(x: nat, y: nat): nat {
    if x == 0 then y
    else if y == 0 then x
    else 2 * Or(x / 2, y / 2) + (if x % 2 == 1 || y % 2 == 1 then 1 else 0)
  }

  function Pow2(k: nat): (r: nat)
    ensures r > 0
  {
    if k == 0 then 1 else 2 * Pow2(k - 1)
  }

  /** Numbers whose set bits do not overlap are OR-ed by adding them. */
  lemma {:induction false} OrDisjoint(high: nat, y: nat, k: nat)
    requires y < Pow2(k)
    ensures Or(high * Pow2(k), y) == high * Pow2(k) + y
    decreases k
  {
    if k == 0 || y == 0 || high == 0 {
      assert high == 0 ==> high * Pow2(k) == 0;
    } else {
      var x := high * Pow2(k);
      var half := high * Pow2(k - 1);
      assert x == 2 * half;
      OrDisjoint(high, y / 2, k - 1);
    }
  }

  lemma MultipleBound(d: int, m: int)
    requires m >= 0
    ensures d >= 1 ==> d * m >= m
    ensures d <= -1 ==> d * m <= -m
  {
  }

  /** Quotient and remainder are determined by the equation between them. */
  lemma DivModUnique(n: int, m: nat, q: int, r: int)
    requires n == q * m + r && 0 <= r < m
    ensures n / m == q && n % m == r
  {
    var d := n / m - q;
    assert n == n / m * m + n % m;
    assert d * m == r - n % m;
    MultipleBound(d, m);
  }

  /** Quotients below a bound are numbers below the multiple. */
  lemma QuotientBelow(n: nat, m: nat, bound: nat)
    requires m > 0
    ensures n / m < bound <==> n < bound * m
  {
    var q := n / m;
    assert n == q * m + n % m;
    MultipleBound(bound - q, m);
    assert (bound - q) * m == bound * m - q * m;
  }
}
