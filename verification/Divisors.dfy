/** Greatest common divisors and the arithmetic of rescaling. */
module Divisors {
  predicate Divides(d: nat, n: nat)
    requires d > 0
  {
    n % d == 0
  }

  /** What Euclid's algorithm computes. */
  function Gcd(u: nat, v: nat): nat
    decreases v
  {
    if v == 0 then u else Gcd(v, u % v)
  }

  lemma MultipleMod(k: nat, d: nat)
    requires d > 0
    ensures (k * d) % d == 0 && (k * d) / d == k
  {
    DivUnique(k * d, d, k, 0);
  }

  /** Quotient and remainder are unique. */
  lemma DivUnique(n: nat, d: nat, q: nat, r: nat)
    requires d > 0 && n == q * d + r && r < d
    ensures n / d == q && n % d == r
  {
    var k := n / d - q;
    assert n == (n / d) * d + n % d;
    assert k * d == (n / d) * d - q * d;
    var e: int := d;
    assert k > 0 ==> k * e >= e;
    assert k < 0 ==> k * e <= -e;
  }

  lemma DividesSum(d: nat, a: nat, b: nat)
    requires d > 0 && Divides(d, a) && Divides(d, b)
    ensures Divides(d, a + b) && (a >= b ==> Divides(d, a - b))
  {
    var x, y := a / d, b / d;
    assert a == x * d && b == y * d;
    assert a + b == (x + y) * d;
    MultipleMod(x + y, d);
    if a >= b {
      assert a - b == (x - y) * d;
      assert x < y ==> (x - y) * d < 0;
      MultipleMod(x - y, d);
    }
  }

  lemma DividesMultiple(d: nat, a: nat, k: nat)
    requires d > 0 && Divides(d, a)
    ensures Divides(d, k * a)
  {
    var x := a / d;
    assert k * a == (k * x) * d by { assert a == x * d; }
    MultipleMod(k * x, d);
  }

  lemma DividesTrans(d: nat, e: nat, n: nat)
    requires d > 0 && e > 0 && Divides(d, e) && Divides(e, n)
    ensures Divides(d, n)
  {
    DividesMultiple(d, e, n / e);
    assert n == (n / e) * e;
  }

  /** The common divisors of `u` and `v` are those of `v` and `u % v`. */
  lemma EuclidStep(d: nat, u: nat, v: nat)
    requires d > 0 && v > 0
    ensures Divides(d, u) && Divides(d, v) <==> Divides(d, v) && Divides(d, u % v)
  {
    var q := u / v;
    assert u == q * v + u % v;
    if Divides(d, v) {
      DividesMultiple(d, v, q);
      if Divides(d, u) { DividesSum(d, u, q * v); }
      if Divides(d, u % v) { DividesSum(d, q * v, u % v); }
    }
  }

  /** `Gcd` is the greatest common divisor in the order of divisibility. */
  lemma {:induction false} GcdDivides(u: nat, v: nat, d: nat)
    requires (u > 0 || v > 0) && d > 0
    ensures Gcd(u, v) > 0
    ensures Divides(d, u) && Divides(d, v) <==> Divides(d, Gcd(u, v))
    decreases v
  {
    if v == 0 {
      assert Divides(d, 0);
    } else {
      EuclidStep(d, u, v);
      GcdDivides(v, u % v, d);
    }
  }

  lemma GcdOfBoth(u: nat, v: nat)
    requires u > 0 || v > 0
    ensures Gcd(u, v) > 0 && Divides(Gcd(u, v), u) && Divides(Gcd(u, v), v)
  {
    GcdDivides(u, v, 1);
    var g := Gcd(u, v);
    assert g % g == 0;
    GcdDivides(u, v, g);
  }

  /** Counting in smaller steps: the same total, and the same coincidences. */
  lemma RescaleMod(t: nat, p: nat, step: nat)
    requires p > 0 && step > 0
    ensures p * step > 0 && ((t * step) % (p * step) == 0 <==> t % p == 0)
  {
    var q, r := t / p, t % p;
    assert t * step == q * (p * step) + r * step by { assert t == q * p + r; }
    assert r * step < p * step by { assert r + 1 <= p; assert (r + 1) * step <= p * step; }
    DivUnique(t * step, p * step, q, r * step);
    assert r * step == 0 <==> r == 0;
  }

  lemma RescaleProduct(n: nat, step: nat, fine: nat)
    requires fine > 0 && Divides(fine, step)
    ensures n * (step / fine) * fine == n * step
  {
    assert step == (step / fine) * fine;
  }
}
