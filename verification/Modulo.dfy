/** Division with remainder by any positive number. */
module Modulo {
  lemma ModuloMinus(n: nat, rate: nat)
    requires 0 < rate <= n
    ensures (n - rate) % rate == n % rate
  {
    var q, r := n / rate, n % rate;
    assert n - rate == rate * (q - 1) + r;
    ModuloIs(n - rate, rate, q - 1, r);
  }

  lemma ModuloSmall(n: nat, rate: nat)
    requires n < rate
    ensures n % rate == n
  {
  }

  lemma ModuloIs(n: int, rate: nat, q: int, r: nat)
    requires rate > 0 && n == rate * q + r && r < rate
    ensures n % rate == r
  {
    var k := n / rate - q;
    assert rate * k == r - n % rate;
    assert k >= 1 ==> rate * k >= rate;
    assert k <= -1 ==> rate * k <= 0 - rate;
  }

  lemma DivideTwice(x: nat, p: nat)
    requires p > 0
    ensures x / 256 / p == x / (256 * p)
  {
    var a, q := x / 256, x / 256 / p;
    var r := a % p;
    assert a == q * p + r;
    assert x == q * (256 * p) + (256 * r + x % 256);
    assert 256 * r + x % 256 < 256 * p;
    QuotientIs(x, 256 * p, q, 256 * r + x % 256);
  }

  lemma QuotientIs(x: nat, d: nat, q: nat, r: nat)
    requires d > 0 && x == q * d + r && r < d
    ensures x / d == q
  {
    var k := x / d - q;
    assert k * d == r - x % d;
    assert k >= 1 ==> k * d >= d;
    assert k <= -1 ==> k * d <= 0 - d;
  }

  /** Two numbers leave the same remainder exactly when their difference leaves none. */
  lemma SameRemainder(p: nat, j: nat, k: nat)
    requires p > 0 && j <= k
    ensures j % p == k % p <==> (k - j) % p == 0
  {
    var qj, qk, rj, rk := j / p, k / p, j % p, k % p;
    assert k - j == p * (qk - qj) + (rk - rj) by {
      assert j == p * qj + rj && k == p * qk + rk;
      assert p * (qk - qj) == p * qk - p * qj;
    }
    if rk >= rj {
      ModuloIs(k - j, p, qk - qj, rk - rj);
    } else {
      assert p * (qk - qj) == p * (qk - qj - 1) + p;
      ModuloIs(k - j, p, qk - qj - 1, rk - rj + p);
    }
  }
}
