/** Montgomery reduction on plain digit arrays: what one round of it adds, why its carries stay inside
    the padded array, and what is left at the end. Each round makes the lowest digit that is left
    vanish by adding a multiple of the modulus. */
module Reduction {
  import opened Arithmetic
  import opened JsNumber
  import opened Digits
  import opened DigitLoops

  const P15 := 0x8000
  const P13 := 0x2000

  // ----- single digits of a sum ------------------------------------------------------------

  lemma {:induction false} SegUpdate(x: JsArray, lo: int, n: nat, j: int, d: int)
    requires lo <= j < lo + n
    ensures Seg(x[j := d], lo, n) == Seg(x, lo, n) + Mul(d - Digit(x, j), W(j - lo))
  {
    hide Mul;
    if j == lo + n - 1 {
      SegNext(x, lo, n - 1);
      SegNext(x[j := d], lo, n - 1);
      SegElsewhere(x, lo, n - 1, j, d);
      MulDifference(d, Digit(x, j), W(n - 1));
    } else {
      SegUpdate(x, lo, n - 1, j, d);
      SegNext(x, lo, n - 1);
      SegNext(x[j := d], lo, n - 1);
    }
  }

  lemma {:induction false} SegElsewhere(x: JsArray, lo: int, n: nat, j: int, d: int)
    requires j < lo || j >= lo + n
    ensures Seg(x[j := d], lo, n) == Seg(x, lo, n)
  {
    hide Mul;
    if n > 0 {
      SegElsewhere(x, lo, n - 1, j, d);
    }
  }

  lemma MulDifference(a: int, b: int, w: int)
    ensures Mul(a - b, w) == Mul(a, w) - Mul(b, w)
  {
    MulDistrib(a, b, w);
  }

  lemma {:induction false} SegAtLeast(x: JsArray, n: nat, j: nat)
    requires j < n && forall i :: 0 <= i < n ==> Digit(x, i) >= 0
    ensures Seg(x, 0, n) >= Mul(Digit(x, j), W(j)) && Seg(x, 0, n) >= 0
  {
    hide Mul;
    SegNext(x, 0, n - 1);
    assert Digit(x, n - 1) >= 0;
    NotNegative(Digit(x, n - 1), W(n - 1));
    if j < n - 1 {
      SegAtLeast(x, n - 1, j);
    } else if n > 1 {
      SegAtLeast(x, n - 1, 0);
      NotNegative(Digit(x, 0), W(0));
    }
  }

  lemma NotNegative(d: int, w: int)
    requires d >= 0 && w >= 0
    ensures Mul(d, w) >= 0
  {
  }

  lemma {:induction false} LowestDigit(x: JsArray, lo: int, n: nat)
    requires n > 0
    ensures Congruent(Seg(x, lo, n), Digit(x, lo), DV)
  {
    SegSplit(x, lo, 1, n - 1);
    OneDigit(x, lo);
    CongruentByMultiple(Seg(x, lo, n), Digit(x, lo), Seg(x, lo + 1, n - 1), DV);
  }

  // ----- the multiplier of a round ----------------------------------------------------------

  /** The 15-bit split of both factors gives the low 28 bits of their product. */
  lemma SplitMultiplier(d: int, mp: int)
    requires 0 <= d < DV && 0 <= mp < DV
    ensures
      var (j, h, mpl, mph) := (d % P15, d / P15, mp % P15, mp / P15);
      && 0 <= j * mpl < 0x4000_0000
      && 0 <= j * mph + h * mpl < 0x2000_0000
      && 0 <= j * mpl + ((j * mph + h * mpl) % P13) * P15 < 0x5000_0000
      && (j * mpl + ((j * mph + h * mpl) % P13) * P15) % DV == (d * mp) % DV
  {
    var (j, h, mpl, mph) := (d % P15, d / P15, mp % P15, mp / P15);
    ProductBound(j, mpl, P15, P15);
    ProductBound(j, mph, P15, P13);
    ProductBound(h, mpl, P13, P15);
    var q := j * mph + h * mpl;
    SplitProduct(h, j, mph, mpl, P15);
    assert d * mp == h * mph * (P15 * P15) + q * P15 + j * mpl;
    assert q * P15 == (q % P13) * P15 + DV * (q / P13);
    assert d * mp == j * mpl + (q % P13) * P15 + DV * (q / P13 + 4 * (h * mph));
    ModAddMultiple(j * mpl + (q % P13) * P15, q / P13 + 4 * (h * mph), DV);
  }

  /** That multiplier makes the digit it was made from vanish. */
  lemma MultiplierClears(d: int, mp: int, m0: int, u: int)
    requires Congruent(m0 * mp + 1, 0, DV) && u == (d * mp) % DV
    ensures Congruent(d + u * m0, 0, DV)
  {
    var k := CongruentWitness(m0 * mp + 1, 0, DV);
    DivModOf(d * mp, DV);
    var q := d * mp / DV;
    calc {
      d + u * m0;
      { assert u == d * mp - DV * q; MulDistrib(d * mp, DV * q, m0); }
      d + d * mp * m0 - DV * q * m0;
      { MulAssoc(d, mp, m0); MulAssoc(DV, q, m0); MulDistrib(1, mp * m0, d); }
      (1 + mp * m0) * d - DV * (q * m0);
      { assert 1 + mp * m0 == DV * k; MulAssoc(DV, k, d); }
      DV * (k * d) - DV * (q * m0);
      { MulDistrib(k * d, q * m0, DV); }
      DV * (k * d - q * m0);
    }
    CongruentByMultiple(d + u * m0, 0, k * d - q * m0, DV);
  }

  // ----- one round ----------------------------------------------------------------------------

  /** Before round i: x holds v, its low i digits are zero, and v differs from the number that
      is being reduced by fewer than W(i) times the modulus. */
  ghost predicate Reducing(x: JsArray, n: nat, i: nat, v: int) {
    && HasDigits(x, 0, n) && i <= n
    && (forall j :: 0 <= j < i ==> x[j] == 0)
    && Seg(x, 0, n) == v
  }

  /** While carries run up: all digits but the one at j are in range, and that one by at most
      a carry too large. */
  ghost predicate Carrying(x: JsArray, n: nat, i: nat, j: nat, v: int) {
    && i < j < n
    && (forall k :: 0 <= k < n ==> k in x && 0 <= x[k] && (k != j ==> x[k] < DV))
    && x[j] < 2 * DV
    && (forall k :: 0 <= k <= i ==> x[k] == 0)
    && Seg(x, 0, n) == v
  }

  lemma RoundAdds(m: JsArray, mt: nat, x: JsArray, x1: JsArray, n: nat, i: nat, v: int, u: int, c: int)
    requires Reducing(x, n, i, v) && mt > 0 && i + mt < n && 0 <= c <= u < DV
    requires Accumulated(x, x1, i, mt, Mul(u, Seg(m, 0, mt)), c)
    requires Congruent(Digit(x, i) + u * Digit(m, 0), 0, DV)
    ensures i + mt in x
    ensures Carrying(x1[i + mt := x[i + mt] + c], n, i, i + mt, v + Mul(Mul(u, Seg(m, 0, mt)), W(i)))
  {
    hide Mul;
    hide W;
    hide Seg;
    RoundValue(x, x1, n, i, mt, Mul(u, Seg(m, 0, mt)), c);
    RoundClears(m, mt, x, x1, i, u, c);
  }

  lemma RoundValue(x: JsArray, x1: JsArray, n: nat, i: nat, mt: nat, added: int, c: int)
    requires i + mt < n && HasDigits(x, 0, n) && Accumulated(x, x1, i, mt, added, c)
    ensures Seg(x1[i + mt := Digit(x, i + mt) + c], 0, n) == Seg(x, 0, n) + Mul(added, W(i))
  {
    hide Mul;
    hide W;
    hide Seg;
    var j := i + mt;
    var x2 := x1[j := Digit(x, j) + c];
    SegSplit(x, 0, i, n - i);
    SegSplit(x, i, mt, n - j);
    SplitAs(x2, x, 0, i, n - i);
    SplitAs(x2, x1, i, mt, n - j);
    TopPart(x, x2, j, n - j, c);
    RoundArithmetic(Seg(x, i, mt), Seg(x1, i, mt), c, W(mt), Seg(x, j, n - j), added, W(i),
                    Seg(x, i, n - i), Seg(x2, i, n - i));
  }

  lemma TopPart(x: JsArray, x2: JsArray, j: int, n: nat, c: int)
    requires n > 0 && (forall k :: j <= k < j + n ==> k in x && k in x2)
    requires x2[j] == x[j] + c
    requires forall k :: j < k < j + n ==> x2[k] == x[k]
    ensures Seg(x2, j, n) == Seg(x, j, n) + c
  {
    SegSame(x[j := x[j] + c], x2, j, j, n);
    SegUpdate(x, j, n, j, x[j] + c);
  }

  lemma RoundArithmetic(s0: int, s1: int, c: int, wm: int, top: int, added: int, w: int, h0: int, h1: int)
    requires s1 + Mul(c, wm) == s0 + added
    requires h0 == s0 + Mul(top, wm) && h1 == s1 + Mul(top + c, wm)
    ensures Mul(h1, w) == Mul(h0, w) + Mul(added, w)
  {
    MulDistrib(top, c, wm);
    assert h1 == h0 + added;
    MulDistrib(h0, added, w);
  }

  lemma RoundClears(m: JsArray, mt: nat, x: JsArray, x1: JsArray, i: nat, u: int, c: int)
    requires mt > 0 && 0 <= c
    requires Accumulated(x, x1, i, mt, Mul(u, Seg(m, 0, mt)), c)
    requires Congruent(Digit(x, i) + u * Digit(m, 0), 0, DV)
    ensures x1[i] == 0
  {
    var s0, s1, mm := Seg(x, i, mt), Seg(x1, i, mt), Seg(m, 0, mt);
    LowestDigit(x, i, mt);
    LowestDigit(x1, i, mt);
    LowestDigit(m, 0, mt);
    SegNext(x, 0, mt - 1);
    var k0 := CongruentWitness(s0, Digit(x, i), DV);
    var k1 := CongruentWitness(s1, Digit(x1, i), DV);
    var km := CongruentWitness(mm, Digit(m, 0), DV);
    var kz := CongruentWitness(Digit(x, i) + u * Digit(m, 0), 0, DV);
    ClearedDigit(Digit(x1, i), k1, c, W(mt - 1), Digit(x, i), k0, u, Digit(m, 0), km, kz);
  }

  lemma ClearedDigit(d1: int, k1: int, c: int, w: int, d0: int, k0: int, u: int, m0: int, km: int, kz: int)
    requires d1 + DV * k1 + c * (DV * w) == d0 + DV * k0 + u * (m0 + DV * km)
    requires d0 + u * m0 == DV * kz && 0 <= d1 < DV
    ensures d1 == 0
  {
    calc {
      d1;
      { MulDistrib(m0, DV * km, u); MulAssoc(DV, km, u); MulAssoc(DV, w, c); }
      DV * kz + DV * k0 + DV * (km * u) - DV * k1 - DV * (w * c);
      DV * (kz + k0 + km * u - k1 - w * c);
    }
  }

  /** Moving the excess of digit j up by one place. */
  lemma CarryUp(x: JsArray, n: nat, i: nat, j: nat, v: int)
    requires Carrying(x, n, i, j, v) && x[j] >= DV && j + 1 < n
    ensures Carrying(x[j := x[j] - DV][j + 1 := x[j + 1] + 1], n, i, j + 1, v)
  {
    hide Mul;
    var y := x[j := x[j] - DV];
    SegUpdate(x, 0, n, j, x[j] - DV);
    SegUpdate(y, 0, n, j + 1, x[j + 1] + 1);
    SegNext(x, 0, j);
    UnitTimes(W(j));
  }

  lemma UnitTimes(w: int)
    ensures Mul(-DV, w) + Mul(1, DV * w) == 0
  {
  }

  /** There is room for the carry as long as the whole number has n digits. */
  lemma CarryInside(x: JsArray, n: nat, i: nat, j: nat, v: int)
    requires Carrying(x, n, i, j, v) && x[j] >= DV && v < W(n)
    ensures j + 1 < n
  {
    if j == n - 1 {
      SegAtLeast(x, n, j);
      SegNext(x, 0, j);
      MulMonotone(DV, x[j], W(j));
      assert false;
    }
  }

  lemma CarryDone(x: JsArray, n: nat, i: nat, j: nat, v: int)
    requires Carrying(x, n, i, j, v) && x[j] < DV
    ensures Reducing(x, n, i + 1, v)
  {
  }

  // ----- the bounds over all rounds -----------------------------------------------------------

  /** After i rounds the number has grown by k times the modulus, k < W(i): it still fits. */
  lemma RoundBound(v0: int, m: int, mt: nat, k: int, i: nat, n: nat)
    requires 0 <= v0 < Mul(m, W(mt)) && 0 < m < W(mt) && 0 <= k < W(i) && i <= mt && 2 * mt < n
    ensures 0 <= v0 + Mul(k, m) < W(n)
  {
    WMonotone(i, mt);
    WMonotone(2 * mt + 1, n);
    WAdd(mt, mt);
    MulMonotone(k, W(mt), m);
    MulMonotone(m, W(mt), W(mt));
    assert W(2 * mt + 1) == DV * W(2 * mt);
  }

  /** Round i with multiplier u turns k into k + u * W(i). */
  lemma RoundCount(k: int, u: int, i: nat, m: int)
    requires 0 <= k < W(i) && 0 <= u < DV
    ensures 0 <= k + Mul(u, W(i)) < W(i + 1)
    ensures Mul(k, m) + Mul(Mul(u, m), W(i)) == Mul(k + Mul(u, W(i)), m)
  {
    MulMonotone(u, DM, W(i));
    MulMonotone(0, u, W(i));
    MulDistrib(k, u * W(i), m);
    MulAssoc(u, m, W(i));
    MulAssoc(u, W(i), m);
  }

  /** What the low digits being zero is for: the number is a multiple of W(mt). */
  lemma LowZeros(x: JsArray, n: nat, mt: nat, v: int)
    requires Reducing(x, n, mt, v)
    ensures v % W(mt) == 0
  {
    SegZero(x, 0, mt);
    SegDivMod(x, 0, mt, n - mt);
  }

  /** The quotient that is left is congruent to v0/R and less than twice the modulus. */
  lemma Quotient(v0: int, m: int, r: int, k: int, q: int)
    requires 0 <= v0 < Mul(m, r) && 0 < m && 0 <= k < r
    requires (v0 + Mul(k, m)) % r == 0 && q == (v0 + Mul(k, m)) / r
    ensures 0 <= q < 2 * m
    ensures q >= m ==> Congruent((q - m) * r, v0, m)
    ensures Congruent(q * r, v0, m)
  {
    DivModOf(v0 + k * m, r);
    assert q * r == v0 + m * k;
    CongruentByMultiple(q * r, v0, k, m);
    MulDistrib(q, m, r);
    MulAssoc(m, r, 1);
    assert (q - m) * r == v0 + m * (k - r);
    CongruentByMultiple((q - m) * r, v0, k - r, m);
    MulMonotone(k, r, m);
    if q < 0 {
      MulMonotone(q, -1, r);
      assert false;
    }
    if q >= 2 * m {
      MulMonotone(2 * m, q, r);
      assert false;
    }
  }

  lemma PadOne(x: JsArray, t: nat, v: int)
    requires StandsFor(x, t, 0, v)
    ensures StandsFor(x[t := 0], t + 1, 0, v)
  {
    SegExtend(x, t, 0);
  }

  // ----- parity --------------------------------------------------------------------------------

  lemma Parity(x: JsArray, t: nat, s: int, v: int)
    requires StandsFor(x, t, s, v) && (s == 0 || s == -1)
    ensures t > 0 ==> v % 2 == x[0] % 2
    ensures t == 0 ==> v % 2 == (if s == 0 then 0 else 1)
  {
    if t > 0 {
      LowestDigit(x, 0, t);
      var k := CongruentWitness(Seg(x, 0, t), x[0], DV);
      SegNext(x, 0, t - 1);
      SignTimes(W(t));
      ModAddMultiple(x[0], (DV / 2) * (k + s * W(t - 1)), 2);
    }
  }
}
