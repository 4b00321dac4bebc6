/** Newton's iteration for the inverse of an odd digit modulo a power of two. */
module DigitInverse {
  import opened Arithmetic
  import opened JsNumber
  import opened Digits

  /** If y inverts x modulo k then y*(2 - x*y) inverts x modulo k*k. The product in it is
      only known modulo a divisor d of k*k, and the result is only kept modulo d. */
  lemma NewtonStep(x: int, y: int, z: int, k: int, y': int, d: int)
    requires k > 0 && d > 0 && (k * k) % d == 0
    requires Congruent(x * y, 1, k)
    requires Congruent(z, x * y, d) && Congruent(y', y * (2 - z), d)
    ensures Congruent(x * y', 1, d)
  {
    var p := x * y;
    NewtonSquare(x, y, k, d);
    assert Congruent(x * y', p * (2 - p), d) by {
      CongruentMul(x, x, y', y * (2 - z), d);
      MulAssoc(x, y, 2 - z);
      CongruentTwoMinus(z, p, d);
      CongruentMul(p, p, 2 - z, 2 - p, d);
    }
  }

  lemma NewtonSquare(x: int, y: int, k: int, d: int)
    requires k > 0 && d > 0 && (k * k) % d == 0 && Congruent(x * y, 1, k)
    ensures Congruent(x * y * (2 - x * y), 1, d)
  {
    var q := CongruentWitness(x * y, 1, k);
    OneMinusSquare(x * y, k, q);
    DivModOf(k * k, d);
    MulAssoc(d, k * k / d, -(q * q));
    CongruentByMultiple(x * y * (2 - x * y), 1, (k * k / d) * -(q * q), d);
  }

  lemma OneMinusSquare(z: int, k: int, q: int)
    requires z == 1 + k * q
    ensures z * (2 - z) == 1 + (k * k) * -(q * q)
  {
    var p := k * q;
    assert z * (2 - z) == 1 - p * p;
    calc {
      p * p;
      { MulAssoc(k, q, p); MulAssoc(q, k, q); MulAssoc(k, q, q); }
      k * (k * (q * q));
      { MulAssoc(k, k, q * q); }
      (k * k) * (q * q);
    }
  }

  lemma CongruentTwoMinus(a: int, b: int, d: int)
    requires d > 0 && Congruent(a, b, d)
    ensures Congruent(2 - a, 2 - b, d)
  {
    var q := CongruentWitness(a, b, d);
    assert d * -q == -(d * q);
    CongruentByMultiple(2 - a, 2 - b, -q, d);
  }

  lemma LowCongruent(x: int, d: int)
    requires Exact(x) && 0 < d <= 0x8000_0000
    ensures Congruent(Low(x, d), x, d)
  {
    ModTwice(x, d);
  }

  lemma TimesCongruent(a: int, b: int, y: int, d: int)
    requires d > 0 && Congruent(a, b, d)
    ensures Congruent(a * y, b * y, d)
  {
    CongruentMul(a, b, y, y, d);
  }

  /** The first two bits of an odd number are their own inverse. */
  lemma FirstBits(x: int)
    requires x >= 0 && x % 2 == 1
    ensures Congruent(x * (x % 4), 1, 4)
  {
    var q, r := x / 4, x % 4;
    MulDistrib(4 * q, r, r);
    MulAssoc(4, q, r);
    CongruentByMultiple(x * r, r * r, q * r, 4);
  }

  /** The number the last three lines of the routine return. */
  lemma NegatedInverse(x: int, y: int)
    requires -DV < y < DV && Congruent(x * y, 1, DV)
    ensures
      var r := if y > 0 then DV - y else -y;
      0 <= r < DV && Congruent(x * r + 1, 0, DV)
  {
    var r := if y > 0 then DV - y else -y;
    var q := CongruentWitness(x * y, 1, DV);
    if y > 0 {
      assert x * r == DV * x - x * y;
      assert x * r + 1 == DV * (x - q);
      CongruentByMultiple(x * r + 1, 0, x - q, DV);
    } else {
      assert x * r == -(x * y);
      CongruentByMultiple(x * r + 1, 0, -q, DV);
    }
  }

  /** -1/x modulo 2^28, by doubling the number of correct bits four times. */
  method InvertDigit(x: int) returns (r: int)
    requires 0 <= x < DV && x % 2 == 1
    ensures 0 <= r < DV && Congruent(x * r + 1, 0, DV)
  {
    var y := Low(x, 4);
    FirstBits(x);
    y := FourBits(x, y);
    y := EightBits(x, y);
    y := SixteenBits(x, y);
    y := AllBits(x, y);
    NegatedInverse(x, y);
    r := if y > 0 then DV - y else -y;
  }

  /** The doubled precision fits a double exactly. */
  lemma StepExact(y: int, z: int, m: int, n: int)
    requires 0 <= y <= m && 0 <= z <= n && m * (n + 2) <= 0x20_0000_0000_0000
    ensures Exact(y * (2 - z))
  {
    MulMonotone(2 - z, 2, y);
    MulMonotone(-n, 2 - z, y);
    MulMonotone(y, m, n + 2);
    MulMonotone(y, m, 2);
    MulDistrib(n, 2, y);
  }

  lemma ProductExact(x: int, y: int, m: int, n: int)
    requires 0 <= x <= m && 0 <= y <= n
    ensures 0 <= x * y <= m * n
  {
    MulMonotone(x, m, y);
    MulMonotone(y, n, m);
  }

  method FourBits(x: int, y: int) returns (y': int)
    requires 0 <= x < DV && 0 <= y < 4 && Congruent(x * y, 1, 4)
    ensures 0 <= y' < 0x10 && Congruent(x * y', 1, 0x10)
  {
    var z := Low(x, 0x10) * y;
    LowCongruent(x, 0x10);
    TimesCongruent(Low(x, 0x10), x, y, 0x10);
    ProductExact(Low(x, 0x10), y, 0x10, 4);
    StepExact(y, z, 4, 0x40);
    y' := Low(y * (2 - z), 0x10);
    LowCongruent(y * (2 - z), 0x10);
    NewtonStep(x, y, z, 4, y', 0x10);
  }

  method EightBits(x: int, y: int) returns (y': int)
    requires 0 <= x < DV && 0 <= y < 0x10 && Congruent(x * y, 1, 0x10)
    ensures 0 <= y' < 0x100 && Congruent(x * y', 1, 0x100)
  {
    var z := Low(x, 0x100) * y;
    LowCongruent(x, 0x100);
    TimesCongruent(Low(x, 0x100), x, y, 0x100);
    ProductExact(Low(x, 0x100), y, 0x100, 0x10);
    StepExact(y, z, 0x10, 0x1000);
    y' := Low(y * (2 - z), 0x100);
    LowCongruent(y * (2 - z), 0x100);
    NewtonStep(x, y, z, 0x10, y', 0x100);
  }

  method SixteenBits(x: int, y: int) returns (y': int)
    requires 0 <= x < DV && 0 <= y < 0x100 && Congruent(x * y, 1, 0x100)
    ensures 0 <= y' < 0x1_0000 && Congruent(x * y', 1, 0x1_0000)
  {
    var p := Low(x, 0x1_0000) * y;
    LowCongruent(x, 0x1_0000);
    TimesCongruent(Low(x, 0x1_0000), x, y, 0x1_0000);
    ProductExact(Low(x, 0x1_0000), y, 0x1_0000, 0x100);
    var z := Low(p, 0x1_0000);
    LowCongruent(p, 0x1_0000);
    StepExact(y, z, 0x100, 0x1_0000);
    y' := Low(y * (2 - z), 0x1_0000);
    LowCongruent(y * (2 - z), 0x1_0000);
    NewtonStep(x, y, z, 0x100, y', 0x1_0000);
  }

  method AllBits(x: int, y: int) returns (y': int)
    requires 0 <= x < DV && 0 <= y < 0x1_0000 && Congruent(x * y, 1, 0x1_0000)
    ensures -DV < y' < DV && Congruent(x * y', 1, DV)
  {
    ProductExact(x, y, DV, 0x1_0000);
    var z := Rem(x * y, DV);
    RemCongruent(x * y, DV);
    StepExact(y, z, 0x1_0000, DV);
    y' := Rem(y * (2 - z), DV);
    RemCongruent(y * (2 - z), DV);
    NewtonStep(x, y, z, 0x1_0000, y', DV);
  }
}
