/** Quotients and remainders by a divisor that is not a constant. */
module Division {
  lemma MulAssoc(a: int, b: int, c: int)
    ensures (a * b) * c == a * (b * c)
  {
  }

  lemma MulDist(a: int, b: int, c: int)
    ensures a * (b + c) == a * b + a * c
  {
  }

  lemma MulAtLeast(m: nat, n: nat)
    requires n > 0
    ensures m * n >= m
  {
    MulDist(m, 1, n - 1);
  }

  /** A quotient and a remainder in range are the quotient and the remainder. */
  lemma DivMod(x: nat, m: nat, q: nat, r: nat)
    requires r < m && x == m * q + r
    ensures x / m == q && x % m == r
  {
    var p, s := x / m, x % m;
    assert x == m * p + s;
    if q > p {
      MulDist(m, p, q - p);
      MulAtLeast(m, q - p);
    } else if q < p {
      MulDist(m, q, p - q);
      MulAtLeast(m, p - q);
    }
  }

  lemma Regroup(m: nat, k: nat, q: nat, a: nat)
    ensures (m * k) * q + m * a == m * (k * q + a)
  {
    MulAssoc(m, k, q);
    MulDist(m, k * q, a);
  }

  lemma DividesBack(x: nat, n: nat) returns (q: nat, r: nat)
    requires n > 0
    ensures r < n && x == n * q + r && x % n == r
  {
    q, r := x / n, x % n;
  }

  lemma ModOfMod(x: nat, m: nat, k: nat)
    requires m > 0 && k > 0
    ensures m * k > 0 && x % (m * k) % m == x % m
  {
    MulAtLeast(m, k);
    var n := m * k;
    var q, y := DividesBack(x, n);
    var a, r := DividesBack(y, m);
    Regroup(m, k, q, a);
    MulNonNeg(k, q);
    DivMod(x, m, k * q + a, r);
  }

  lemma MulNonNeg(a: nat, b: nat)
    ensures a * b >= 0
  {
  }

  lemma ModAdd(x: nat, step: nat, d: nat)
    requires step > 0 && x % step == 0 && d <= step
    ensures (x + d) % step == if d == step then 0 else d
  {
    var q := x / step;
    if d == step {
      MulDist(step, q, 1);
      DivMod(x + d, step, q + 1, 0);
    } else {
      DivMod(x + d, step, q, d);
    }
  }
}
