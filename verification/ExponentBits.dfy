/** The bits of the exponent that the sliding window of the modular power takes. */
module ExponentBits {
  import opened Arithmetic
  import opened JsNumber
  import opened Digits
  import opened DigitLoops
  import opened Reducers

  /** What is left of e above bit p: the exponent whose power has been computed when the bits
      from p down are still to come. */
  function Above(e: nat, p: int): nat
    requires p >= -1
  {
    DivNat(e, Pow2(p + 1));
    e / Pow2(p + 1)
  }

  lemma DivNat(e: nat, d: int)
    requires d > 0
    ensures e / d >= 0
  {
    DivModOf(e, d);
    var q := e / d;
    if q < 0 {
      MulMonotone(q, -1, d);
      assert false;
    }
  }

  lemma {:induction false} DivPow2(e: nat, m: nat, n: nat)
    ensures e / Pow2(m + n) == (e / Pow2(m)) / Pow2(n)
  {
    var a, b := Pow2(m), Pow2(n);
    Pow2Add(m, n);
    var q, r := e / a, e % a;
    var q2, r2 := q / b, q % b;
    DivModOf(e, a);
    DivModOf(q, b);
    MulDistrib(b * q2, r2, a);
    MulAssoc(a, b, q2);
    MulMonotone(r2, b - 1, a);
    MulDistrib(b, 1, a);
    MulMonotone(0, r2, a);
    DivModUnique(e, a * b, q2, a * r2 + r);
  }

  /** Taking n more bits w. */
  lemma TakeBits(e: nat, p: int, n: nat, w: nat)
    requires p >= -1 && n <= p + 1 && w == Above(e, p - n) % Pow2(n)
    ensures Above(e, p - n) == Mul(Above(e, p), Pow2(n)) + w
  {
    hide Pow2;
    DivPow2(e, p + 1 - n, n);
    QuotientAndRest(Above(e, p - n), Pow2(n), Above(e, p), w);
  }

  lemma QuotientAndRest(a: int, d: int, q: int, w: int)
    requires d > 0 && a / d == q && a % d == w
    ensures a == q * d + w
  {
    DivModOf(a, d);
  }

  /** Zeros at the low end of a window may be left for later. */
  lemma DropZero(x: nat, k: nat)
    requires k > 0 && (x % Pow2(k)) % 2 == 0
    ensures (x / 2) % Pow2(k - 1) == (x % Pow2(k)) / 2
  {
    var m := Pow2(k - 1);
    var q, w := x / Pow2(k), x % Pow2(k);
    DivModOf(x, Pow2(k));
    assert x == 2 * (m * q + w / 2) by { MulAssoc(2, m, q); }
    DivModUnique(x / 2, m, q, w / 2);
  }

  // ----- bits of a digit and bits of the number ---------------------------------------------------

  /** The number from bit s of digit j on, one digit of it written out. */
  lemma DigitWindow(x: JsArray, j: nat, t: nat, s: nat)
    requires j < t && HasDigits(x, 0, t) && s < 28
    ensures Above(NatOf(x, t), 28 * j + s - 1) == x[j] / Pow2(s) + Pow2(28 - s) * NatOf'(x, j + 1, t - j - 1)
  {
    hide Mul;
    hide Seg;
    hide Pow2;
    hide W;
    var d, hi := x[j], NatOf'(x, j + 1, t - j - 1);
    HighNumber(x, j, t);
    WIsPow2(j);
    DivPow2(NatOf(x, t), 28 * j, s);
    DigitBase();
    Pow2Add(s, 28 - s);
    ShiftDigit(d, hi, Pow2(s), Pow2(28 - s));
  }

  lemma ShiftDigit(d: int, hi: int, p: int, q: int)
    requires p > 0 && DV == p * q
    ensures (d + DV * hi) / p == d / p + q * hi
  {
    DivModOf(d, p);
    MulAssoc(p, q, hi);
    MulDistrib(d / p, q * hi, p);
    DivModUnique(d + DV * hi, p, d / p + q * hi, d % p);
  }

  ghost function NatOf(x: JsArray, t: nat): (v: nat)
    requires HasDigits(x, 0, t)
  {
    NatOf'(x, 0, t)
  }

  ghost function NatOf'(x: JsArray, lo: nat, n: nat): (v: nat)
    requires HasDigits(x, lo, lo + n)
  {
    SegBound(x, lo, n);
    Seg(x, lo, n)
  }

  lemma HighNumber(x: JsArray, j: nat, t: nat)
    requires j < t && HasDigits(x, 0, t)
    ensures NatOf(x, t) / W(j) == x[j] + DV * NatOf'(x, j + 1, t - j - 1)
  {
    hide Mul;
    SegDivMod(x, 0, j, t - j);
    HighPart(x, j, t);
  }

  lemma TimesBase(v: int)
    ensures Mul(v, DV) == DV * v
  {
  }

  /** One bit of a digit is that bit of the number. */
  lemma BitOfDigit(x: JsArray, j: nat, t: nat, i: nat)
    requires j < t && HasDigits(x, 0, t) && i < 28
    ensures (x[j] / Pow2(i)) % 2 == Above(NatOf(x, t), 28 * j + i - 1) % 2
  {
    DigitWindow(x, j, t, i);
    var hi := NatOf'(x, j + 1, t - j - 1);
    assert Pow2(28 - i) == 2 * Pow2(27 - i);
    MulAssoc(2, Pow2(27 - i), hi);
    ModAddMultiple(x[j] / Pow2(i), Pow2(27 - i) * hi, 2);
  }

  /** A window that lies inside digit j. */
  lemma WindowInside(x: JsArray, j: nat, t: nat, i: nat, k: nat)
    requires j < t && HasDigits(x, 0, t) && 1 <= k <= i + 1 && i < 28
    ensures (x[j] / Pow2(i + 1 - k)) % Pow2(k) == Above(NatOf(x, t), 28 * j + i - k) % Pow2(k)
  {
    var s := i + 1 - k;
    DigitWindow(x, j, t, s);
    var hi := NatOf'(x, j + 1, t - j - 1);
    Pow2Add(k, 28 - s - k);
    MulAssoc(Pow2(k), Pow2(28 - s - k), hi);
    ModAddMultiple(x[j] / Pow2(s), Pow2(28 - s - k) * hi, Pow2(k));
  }

  /** A window that takes the low i + 1 bits of digit j and the top bits of the digit below. */
  lemma WindowStraddles(x: JsArray, j: nat, t: nat, i: nat, k: nat)
    requires 0 < j < t && HasDigits(x, 0, t) && i + 1 < k <= 28
    ensures
      var r := k - i - 1;
      (x[j] % Pow2(i + 1)) * Pow2(r) + x[j - 1] / Pow2(28 - r) == Above(NatOf(x, t), 28 * j + i - k) % Pow2(k)
  {
    hide Pow2;
    hide Mul;
    var r := k - i - 1;
    var d, hi, c := x[j], NatOf'(x, j + 1, t - j - 1), x[j - 1] / Pow2(28 - r);
    DigitWindow(x, j - 1, t, 28 - r);
    HighPart(x, j, t);
    DigitBase();
    Pow2Add(r, 28 - r);
    Pow2Add(r, i + 1);
    Pow2Add(i + 1, 28 - i - 1);
    StraddleArithmetic(d, hi, c, Pow2(r), Pow2(i + 1), Pow2(28 - i - 1), x[j - 1], Pow2(28 - r));
  }

  lemma HighPart(x: JsArray, j: nat, t: nat)
    requires j < t && HasDigits(x, 0, t)
    ensures NatOf'(x, j, t - j) == x[j] + DV * NatOf'(x, j + 1, t - j - 1)
  {
    hide Mul;
    SegSplit(x, j, 1, t - j - 1);
    OneDigit(x, j);
    TimesBase(NatOf'(x, j + 1, t - j - 1));
  }

  lemma StraddleArithmetic(d: int, hi: int, c: int, r: int, a: int, b: int, low: int, s: int)
    requires r > 0 && a > 0 && b > 0 && s > 0 && DV == a * b && DV == r * s
    requires 0 <= low < DV && c == low / s && d >= 0
    ensures (c + r * (d + DV * hi)) % (r * a) == (d % a) * r + c
  {
    DivModOf(low, s);
    DivModOf(d, a);
    if c >= r {
      MulMonotone(r, c, s);
      assert false;
    }
    if c < 0 {
      MulMonotone(c, -1, s);
      assert false;
    }
    var q := d / a + b * hi;
    calc {
      r * (d + DV * hi);
      { MulAssoc(a, b, hi); MulDistrib(d / a, b * hi, a); }
      r * (a * q + d % a);
      { MulDistrib(a * q, d % a, r); MulAssoc(r, a, q); }
      (r * a) * q + (d % a) * r;
    }
    MulMonotone(d % a, a - 1, r);
    MulMonotone(0, d % a, r);
    MulDistrib(a, 1, r);
    DivModUnique(c + r * (d + DV * hi), r * a, q, (d % a) * r + c);
  }
}
