/** Division and multiplication facts. */
module Arithmetic {
  lemma DivSplit(n: nat, m: nat)
    requires m > 0
    ensures n / m * m <= n < n / m * m + m
  {
    assert n == n / m * m + n % m;
  }

  lemma MulMonotone(a: nat, b: nat, m: nat)
    requires a <= b
    ensures a * m <= b * m
  {
  }

  lemma MulSum(a: nat, b: nat, m: nat)
    ensures (a + b) * m == a * m + b * m
  {
  }

  lemma DivRest(n: nat, m: nat)
    requires m > 0
    ensures n - n / m * m == n % m
  {
    assert n == n / m * m + n % m;
  }

  /** `x` lies in the multiples `a..b` exactly when its quotient does. */
  lemma DivBetween(x: nat, m: nat, a: nat, b: nat)
    requires m > 0
    ensures a * m <= x < b * m <==> a <= x / m < b
  {
    DivSplit(x, m);
    var q := x / m;
    if a <= q { MulMonotone(a, q, m); } else { MulMonotone(q + 1, a, m); }
    if q < b { MulMonotone(q + 1, b, m); } else { MulMonotone(b, q, m); }
  }

  lemma DivMonotone(x: nat, y: nat, m: nat)
    requires m > 0 && x <= y
    ensures x / m <= y / m
  {
    DivSplit(x, m);
    DivSplit(y, m);
    if y / m < x / m { MulMonotone(y / m + 1, x / m, m); }
  }

  lemma DivShift(k: nat, r: nat, m: nat)
    requires m > 0
    ensures (k * m + r) / m == k + r / m
  {
    DivSplit(r, m);
    var q := r / m;
    assert (k + q) * m == k * m + q * m;
    assert (k + q + 1) * m == k * m + q * m + m;
    DivBetween(k * m + r, m, k + q, k + q + 1);
  }

  lemma MulMod(q: nat, m: nat)
    requires m > 0
    ensures (q * m) % m == 0
  {
    DivShift(q, 0, m);
    assert q * m == (q * m) / m * m + (q * m) % m;
  }

  lemma HalfDiv(b: nat, v: nat, p: nat)
    requires b < 2 && p > 0
    ensures (b + 2 * v) / (2 * p) == v / p
  {
    var q, r := v / p, v % p;
    assert v == q * p + r;
    assert b + 2 * v == q * (2 * p) + (b + 2 * r);
    assert b + 2 * r < 2 * p;
    DivUnique(b + 2 * v, 2 * p, q, b + 2 * r);
  }

  lemma DivUnique(n: nat, m: nat, q: nat, r: nat)
    requires m > 0 && n == q * m + r && r < m
    ensures n / m == q
  {
    var d := n / m - q;
    assert n == n / m * m + n % m;
    assert d * m == r - n % m;
  }

  lemma Double(q: nat, p: nat)
    ensures 2 * (q * p) == q * (2 * p)
  {
  }
}
