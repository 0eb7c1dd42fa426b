/** Quotients and remainders from their defining equation. */
module Division {
  lemma Quotient(x: int, d: nat, q: int, r: nat)
    requires d >= 1 && x == q * d + r && r < d
    ensures x / d == q && x % d == r
  {
    var q1, r1 := x / d, x % d;
    assert x == q1 * d + r1;
    SameQuotient(d, q, r, q1, r1);
  }

  lemma SameQuotient(d: nat, q: int, r: nat, q1: int, r1: nat)
    requires q * d + r == q1 * d + r1 && r < d && r1 < d
    ensures q == q1
  {
    var k := q - q1;
    assert k * d == q * d - q1 * d;
    assert k >= 1 ==> k * d >= d;
    assert k <= -1 ==> k * d + d <= 0;
  }

  lemma DivideTwice(n: nat, a: nat, b: nat)
    requires 0 < a && 0 < b
    ensures 0 < a * b && n / a / b == n / (a * b)
  {
    var m := n / a;
    Compose(n, m, a, n % a, m / b, b, m % b);
    Quotient(n, a * b, m / b, m % b * a + n % a);
  }

  lemma Compose(n: nat, m: nat, a: nat, t: nat, q: nat, b: nat, r: nat)
    requires n == m * a + t && t < a && m == q * b + r && r < b
    ensures n == q * (a * b) + (r * a + t) && r * a + t < a * b
  {
    assert (q * b + r) * a == q * (a * b) + r * a;
    LessRows(r, a, t, b);
  }

  lemma LessRows(r: nat, a: nat, t: nat, b: nat)
    requires r < b && t < a
    ensures r * a + t < a * b
  {
    var k := b - 1 - r;
    assert k * a >= 0;
    assert a * b == (k + 1 + r) * a;
  }
}
