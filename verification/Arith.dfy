/** Facts about products and remainders that the solver does not find by itself. */
module Arith {

  lemma MulMono(p: nat, a: int, b: int)
    requires a <= b
    ensures p * a <= p * b
  {
  }

  lemma Distribute(p: int, a: int, b: int)
    ensures p * (a + b) == p * a + p * b && (a + b) * p == a * p + b * p
  {
  }

  lemma DivMod(x: int, p: int) returns (q: int, r: int)
    requires p > 0
    ensures q == x / p && r == x % p && x == p * q + r && 0 <= r < p
  {
    q, r := x / p, x % p;
  }

  lemma DivModUnique(x: int, p: int, q: int, r: int)
    requires p > 0 && x == p * q + r && 0 <= r < p
    ensures x / p == q && x % p == r
  {
    if x / p > q {
      MulMono(p, q + 1, x / p);
      assert false;
    } else if x / p < q {
      MulMono(p, x / p + 1, q);
      assert false;
    }
  }

  lemma ModShift(x: int, p: int, k: int)
    requires p > 0
    ensures (x + p * k) % p == x % p
  {
    assert x + p * k == p * (x / p + k) + x % p;
    DivModUnique(x + p * k, p, x / p + k, x % p);
  }

  lemma ModSubMultiple(x: int, p: int, d: int)
    requires p > 0 && d % p == 0
    ensures (x - d) % p == x % p
  {
    var k := d / p;
    assert d == p * k;
    ModShift(x, p, -k);
    assert p * -k == -(p * k);
  }

  lemma ModPlus(x: int, d: int, p: int)
    requires p > 0
    ensures (x + d) % p == (x % p + d) % p
  {
    ModShift(x % p + d, p, x / p);
  }

  lemma ModMod(y: int, m: nat, n: nat)
    requires m > 0 && n > 0 && m % n == 0
    ensures (y % m) % n == y % n
  {
    var q, r := DivMod(y, m);
    var k, zero := DivMod(m, n);
    MulAssoc(n, k, q);
    ModShift(r, n, k * q);
  }

  lemma MulAssoc(a: int, b: int, c: int)
    ensures (a * b) * c == a * (b * c)
  {
  }
}
