/** Powers of two, quotients and remainders, and congruence: what the arithmetic of the big integers,
    of the relocation format and of the storage needs. */
module Arithmetic {

  function Pow2(n: nat): (p: nat)
    ensures p >= 1
  {
    if n == 0 then 1 else 2 * Pow2(n - 1)
  }

  function Power(b: int, n: nat): int
  {
    if n == 0 then 1 else b * Power(b, n - 1)
  }

  lemma {:induction false} Pow2Add(m: nat, n: nat)
    ensures Pow2(m + n) == Pow2(m) * Pow2(n)
  {
    if m == 0 {
    } else {
      Pow2Add(m - 1, n);
      MulAssoc(2, Pow2(m - 1), Pow2(n));
    }
  }

  lemma {:induction false} PowerAdd(b: int, m: nat, n: nat)
    ensures Power(b, m + n) == Power(b, m) * Power(b, n)
  {
    if m == 0 {
    } else {
      PowerAdd(b, m - 1, n);
      MulAssoc(b, Power(b, m - 1), Power(b, n));
    }
  }

  /** The product, as a function that a proof can hide when it needs no arithmetic. */
  function Mul(a: int, b: int): int {
    a * b
  }

  lemma MulAssoc(a: int, b: int, c: int)
    ensures (a * b) * c == a * (b * c)
  {
  }

  lemma MulDistrib(a: int, b: int, c: int)
    ensures (a + b) * c == a * c + b * c
    ensures (a - b) * c == a * c - b * c
  {
  }

  lemma MulMonotone(a: int, b: int, c: int)
    requires a <= b && 0 <= c
    ensures a * c <= b * c
  {
  }

  lemma DivModOf(x: int, d: int)
    requires d > 0
    ensures x == d * (x / d) + x % d && 0 <= x % d < d
  {
  }

  /** Quotient and remainder are the only way of writing x as d*q + r with 0 <= r < d. */
  lemma DivModUnique(x: int, d: int, q: int, r: int)
    requires d > 0 && x == d * q + r && 0 <= r < d
    ensures x / d == q && x % d == r
  {
    DivModOf(x, d);
    var q', r' := x / d, x % d;
    assert d * (q - q') == r' - r by {
      assert d * q + r == d * q' + r';
      assert d * (q - q') == d * q - d * q';
    }
    assert d * (q' - q) == r - r' by {
      assert d * (q' - q) == -(d * (q - q'));
    }
    if q > q' {
      MulMonotone(1, q - q', d);
      assert false;
    } else if q < q' {
      MulMonotone(1, q' - q, d);
      assert false;
    }
  }

  lemma ModAddMultiple(x: int, k: int, d: int)
    requires d > 0
    ensures (x + d * k) % d == x % d && (x + d * k) / d == x / d + k
  {
    DivModOf(x, d);
    assert x + d * k == d * (x / d + k) + x % d;
    DivModUnique(x + d * k, d, x / d + k, x % d);
  }

  // ----- congruence ------------------------------------------------------------------

  /** a and b differ by a multiple of m. */
  predicate Congruent(a: int, b: int, m: int)
    requires m > 0
  {
    a % m == b % m
  }

  lemma CongruentByMultiple(a: int, b: int, k: int, m: int)
    requires m > 0 && a == b + m * k
    ensures Congruent(a, b, m)
  {
    ModAddMultiple(b, k, m);
  }

  lemma CongruentWitness(a: int, b: int, m: int) returns (k: int)
    requires m > 0 && Congruent(a, b, m)
    ensures a == b + m * k
  {
    DivModOf(a, m);
    DivModOf(b, m);
    k := a / m - b / m;
    assert m * k == m * (a / m) - m * (b / m);
  }

  lemma CongruentMul(a: int, b: int, c: int, d: int, m: int)
    requires m > 0 && Congruent(a, b, m) && Congruent(c, d, m)
    ensures Congruent(a * c, b * d, m)
  {
    var k := CongruentWitness(a, b, m);
    var l := CongruentWitness(c, d, m);
    calc {
      a * c;
      (b + m * k) * (d + m * l);
      { MulDistrib(b, m * k, d + m * l); }
      b * (d + m * l) + (m * k) * (d + m * l);
      { MulDistrib(d, m * l, b); MulAssoc(m, k, d + m * l); }
      b * d + b * (m * l) + m * (k * (d + m * l));
      { MulAssoc(m, l, b); }
      b * d + m * (l * b) + m * (k * (d + m * l));
      { MulDistrib(l * b, k * (d + m * l), m); }
      b * d + m * (l * b + k * (d + m * l));
    }
    CongruentByMultiple(a * c, b * d, l * b + k * (d + m * l), m);
  }
}
