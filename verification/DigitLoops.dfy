/** What the digit loops of the big-integer class keep, on plain digit arrays: each loop has a
    predicate that says what it has done so far and a lemma for one round of it. The rounds add up to
    the exact sum, difference, product or square. */
module DigitLoops {
  import opened Arithmetic
  import opened Digits

  function Min(a: int, b: int): int { if a < b then a else b }

  function Max(a: int, b: int): int { if a < b then b else a }

  /** a and b agree at every index below lo and from hi on. */
  ghost predicate SameOutside(a: JsArray, b: JsArray, lo: int, hi: int) {
    forall i :: i < lo || i >= hi ==> (i in a <==> i in b) && (i in a ==> a[i] == b[i])
  }

  // ----- one step of the digit multiplier ------------------------------------------------

  const P14 := 0x4000

  /** The 14-bit halves multiply out to the product, and every piece fits. */
  lemma AmPieces(x: int, a: int)
    requires 0 <= x < 2 * DV && 0 <= a < DV
    ensures
      var xl, xh, l, h := x % P14, x / P14, a % P14, a / P14;
      && x * a == xh * h * DV + (xh * l + h * xl) * P14 + xl * l
      && 0 <= xh * h
      && 0 <= xh * l + h * xl < 3 * DV
      && 0 <= xl * l < DV
  {
    var xl, xh, l, h := x % P14, x / P14, a % P14, a / P14;
    SplitProduct(xh, xl, h, l, P14);
    ProductBound(xh, l, 0x8000, P14);
    ProductBound(h, xl, P14, P14);
    ProductBound(xl, l, P14, P14);
    ProductBound(xh, h, 0x8000, P14);
  }

  /** Splitting the sum at bit 28 as the code does gives its exact digit and carry. */
  lemma AmCarry(xa: int, hh: int, m: int, ll: int, w: int, c: int)
    requires xa == hh * DV + m * P14 + ll
    requires 0 <= hh && 0 <= m && 0 <= ll < DV && 0 <= w < DV && 0 <= c < 3 * DV
    ensures
      var l' := ll + (m % P14) * P14 + w + c;
      && 0 <= (m % P14) * P14 < DV
      && 0 <= l' < 6 * DV
      && xa + w + c == l' % DV + DV * (l' / DV + m / P14 + hh)
      && 0 <= l' / DV + m / P14 + hh
  {
  }

  lemma AmCarryBound(x: int, a: int, w: int, c: int, d: int, c': int)
    requires 0 <= x < 2 * DV && 0 <= a < DV && 0 <= w < DV && 0 <= c < 3 * DV && 0 <= d
    requires x * a + w + c == d + DV * c'
    ensures c' < 3 * DV && (c <= x ==> c' <= x)
  {
    MulMonotone(a, DM, x);
    assert x * DM == x * DV - x;
  }

  lemma ProductBound(a: int, b: int, x: int, y: int)
    requires 0 <= a < x && 0 <= b < y
    ensures 0 <= a * b <= (x - 1) * (y - 1)
  {
    MulMonotone(a, x - 1, b);
    MulMonotone(b, y - 1, x - 1);
  }

  lemma SplitProduct(xh: int, xl: int, h: int, l: int, p: int)
    ensures (xh * p + xl) * (h * p + l) == xh * h * (p * p) + (xh * l + h * xl) * p + xl * l
  {
    calc {
      (xh * p + xl) * (h * p + l);
      { MulDistrib(xh * p, xl, h * p + l); }
      (xh * p) * (h * p + l) + xl * (h * p + l);
      { MulDistrib(h * p, l, xh * p); MulDistrib(h * p, l, xl); }
      (h * p) * (xh * p) + l * (xh * p) + (h * p) * xl + l * xl;
      { MulAssoc(h, p, xh * p); MulAssoc(p, xh, p); MulAssoc(xh, p, p); MulAssoc(h, xh, p * p); }
      h * xh * (p * p) + l * (xh * p) + (h * p) * xl + l * xl;
      { MulAssoc(l, xh, p); MulAssoc(h, p, xl); MulAssoc(h, xl, p); }
      h * xh * (p * p) + (l * xh) * p + (h * xl) * p + l * xl;
      { MulDistrib(xh * l, h * xl, p); }
      xh * h * (p * p) + (xh * l + h * xl) * p + xl * l;
    }
  }

  // ----- products ------------------------------------------------------------------------------

  /** After i rounds the low digits of r hold x times the i low digits of y. */
  ghost predicate ProductSoFar(x: JsArray, xt: nat, y: JsArray, i: nat, r: JsArray) {
    HasDigits(x, 0, xt) && HasDigits(y, 0, i) && HasDigits(r, 0, i + xt) &&
    Seg(r, 0, i + xt) == Mul(Seg(x, 0, xt), Seg(y, 0, i))
  }

  lemma ProductStart(x: JsArray, xt: nat, y: JsArray, r: JsArray)
    requires HasDigits(x, 0, xt)
    requires forall k :: 0 <= k < xt ==> k in r && r[k] == 0
    ensures ProductSoFar(x, xt, y, 0, r)
  {
    SegZero(r, 0, xt);
  }

  lemma ProductStep(x: JsArray, xt: nat, y: JsArray, i: nat, r0: JsArray, r1: JsArray, c: int)
    requires ProductSoFar(x, xt, y, i, r0)
    requires HasDigits(y, 0, i + 1) && 0 <= c < DV
    requires Accumulated(r0, r1, i, xt, Mul(y[i], Seg(x, 0, xt)), c)
    ensures ProductSoFar(x, xt, y, i + 1, r1[i + xt := c])
  {
    hide Mul;
    hide W;
    hide Seg;
    ProductParts(xt, i, r0, r1, c, Mul(y[i], Seg(x, 0, xt)));
    SegSplit(r0, 0, i, xt);
    SegNext(y, 0, i);
    ProductArithmetic(Seg(r0, 0, i), Seg(r0, i, xt), Seg(r1, i, xt), c, W(xt), y[i], Seg(x, 0, xt), W(i), Seg(y, 0, i));
  }

  lemma ProductParts(xt: nat, i: nat, r0: JsArray, r1: JsArray, c: int, added: int)
    requires HasDigits(r0, 0, i + xt) && 0 <= c < DV && Accumulated(r0, r1, i, xt, added, c)
    ensures HasDigits(r1[i + xt := c], 0, i + xt + 1)
    ensures Seg(r1[i + xt := c], 0, i + xt + 1) == Seg(r0, 0, i) + Mul(Seg(r1, i, xt) + Mul(c, W(xt)), W(i))
  {
    hide Mul;
    hide W;
    hide Seg;
    var r2 := r1[i + xt := c];
    SplitAs(r2, r0, 0, i, xt + 1);
    SegNext(r2, i, xt);
    SegSame(r1, r2, i, i, xt);
  }

  lemma ProductArithmetic(lo: int, s0: int, s1: int, c: int, wx: int, d: int, x: int, w: int, y: int)
    requires s1 + Mul(c, wx) == s0 + Mul(d, x) && lo + Mul(s0, w) == Mul(x, y)
    ensures lo + Mul(s1 + Mul(c, wx), w) == Mul(x, y + Mul(d, w))
  {
    MulDistrib(s0, d * x, w);
    MulDistrib(y, d * w, x);
    MulAssoc(d, x, w);
    MulAssoc(d, w, x);
  }

  /** The product of the absolute values, negated when the sign words differ. */
  lemma ProductSigned(v: int, u: int, s: int, z: int)
    requires s == 0 || s == -1
    requires z == 0 || z == -1
    requires (s == 0 <==> v >= 0) && (z == 0 <==> u >= 0)
    ensures
      var p := (if v < 0 then -v else v) * (if u < 0 then -u else u);
      v * u == if s != z then -p else p
  {
  }

  // ----- squares -------------------------------------------------------------------------------

  /** After i rounds r lacks from x*x only the square of what x has from digit i on. */
  ghost predicate SquareSoFar(x: JsArray, xt: nat, i: nat, r: JsArray) {
    && i <= xt && HasDigits(x, 0, xt) && HasDigits(r, 0, 2 * xt)
    && (forall k :: i + xt < k < 2 * xt ==> r[k] == 0)
    && (i < xt ==> r[i + xt] <= 1)
    && Seg(r, 0, 2 * xt) + Mul(Sq(Seg(x, i, xt - i)), W(2 * i)) == Sq(Seg(x, 0, xt))
  }

  lemma SquareStart(x: JsArray, xt: nat, r: JsArray)
    requires HasDigits(x, 0, xt)
    requires forall k :: 0 <= k < 2 * xt ==> k in r && r[k] == 0
    ensures SquareSoFar(x, xt, 0, r)
  {
    SegZero(r, 0, 2 * xt);
  }

  lemma SquareDigits(x: JsArray, xt: nat, i: nat, r: JsArray)
    requires SquareSoFar(x, xt, i, r)
    ensures HasDigits(x, 0, xt) && HasDigits(r, 0, 2 * xt)
  {
  }

  /** What one of the two multiplier calls of a round did to n digits from index j on. */
  ghost predicate Accumulated(d0: JsArray, d1: JsArray, j: nat, n: nat, added: int, c: int) {
    && HasDigits(d0, j, j + n) && HasDigits(d1, j, j + n) && SameOutside(d0, d1, j, j + n)
    && Seg(d1, j, n) + Mul(c, W(n)) == Seg(d0, j, n) + added
  }

  function Sq(x: int): int {
    x * x
  }

  lemma SquareUntouched(xt: nat, i: nat, d0: JsArray, d1: JsArray, added: int, c: int)
    requires i < xt - 1 && HasDigits(d0, 0, 2 * xt) && Accumulated(d0, d1, 2 * i, 1, added, c)
    ensures HasDigits(d1, 0, 2 * xt)
  {
  }

  lemma SquareStands(x: JsArray, xt: nat, v: int, r: JsArray, t: nat)
    requires StandsFor(x, xt, 0, v) && HasDigits(r, 0, t) && Seg(r, 0, t) == Sq(Seg(x, 0, xt))
    ensures StandsFor(r, t, 0, Sq(v))
  {
  }

  lemma SqOfAbs(v: int)
    ensures Sq(if v < 0 then -v else v) == v * v
  {
  }

  /** Digit j set to e, and the excess over a digit moved up. */
  function Bumped(d: JsArray, j: int, e: int): JsArray {
    if e < DV then d[j := e] else d[j := e][j := e - DV][j + 1 := 1]
  }

  lemma SquareStep(x: JsArray, xt: nat, i: nat, d0: JsArray, d1: JsArray, d2: JsArray, c: int, carry: int)
    requires SquareSoFar(x, xt, i, d0) && i < xt - 1
    requires 0 <= c <= x[i] && 0 <= carry <= 2 * x[i]
    requires Accumulated(d0, d1, 2 * i, 1, Mul(x[i], Seg(x, i, 1)), c)
    requires Accumulated(d1, d2, 2 * i + 1, xt - i - 1, Mul(2 * x[i], Seg(x, i + 1, xt - i - 1)) + c, carry)
    ensures i + xt in d1 && 0 <= d1[i + xt]
    ensures SquareSoFar(x, xt, i + 1, Bumped(d2, i + xt, d1[i + xt] + carry))
  {
    var d3 := Bumped(d2, i + xt, d1[i + xt] + carry);
    SquarePlace(x, xt, i, d0, d1, d2, d3, c, carry);
    SquareValue(x, xt, i, x[i], d0, d1, d2, d3, c, carry);
  }

  /** d3 has the low digits of d0, the digit the first multiplier call left, the digits the
      second one left, and above them what its carry adds to. */
  ghost predicate SquarePlaced(xt: nat, i: nat, d0: JsArray, d1: JsArray, d2: JsArray, d3: JsArray, carry: int)
  {
    && i < xt - 1 && HasDigits(d0, 0, 2 * xt) && HasDigits(d3, 0, 2 * xt)
    && HasDigits(d1, 2 * i, 2 * i + 1) && HasDigits(d2, 2 * i + 1, i + xt)
    && (forall k :: 0 <= k < 2 * i ==> d3[k] == d0[k])
    && d3[2 * i] == d1[2 * i]
    && (forall k :: 2 * i + 1 <= k < i + xt ==> d3[k] == d2[k])
    && (forall k :: i + xt + 1 < k < 2 * xt ==> d3[k] == 0)
    && d3[i + xt + 1] <= 1
    && d3[i + xt] + d3[i + xt + 1] * DV == d0[i + xt] + carry
  }

  lemma SquarePlace(x: JsArray, xt: nat, i: nat, d0: JsArray, d1: JsArray, d2: JsArray, d3: JsArray, c: int, carry: int)
    requires SquareSoFar(x, xt, i, d0) && i < xt - 1
    requires 0 <= c <= x[i] && 0 <= carry <= 2 * x[i]
    requires Accumulated(d0, d1, 2 * i, 1, Mul(x[i], Seg(x, i, 1)), c)
    requires Accumulated(d1, d2, 2 * i + 1, xt - i - 1, Mul(2 * x[i], Seg(x, i + 1, xt - i - 1)) + c, carry)
    requires d3 == Bumped(d2, i + xt, d0[i + xt] + carry)
    ensures SquarePlaced(xt, i, d0, d1, d2, d3, carry)
  {
    hide Seg;
    hide W;
    hide Mul;
    hide Sq;
    assert forall k :: 0 <= k < 2 * xt && k != i + xt && k != i + xt + 1 ==> d3[k] == d2[k];
  }

  lemma SquareValue(x: JsArray, xt: nat, i: nat, d: int, d0: JsArray, d1: JsArray, d2: JsArray, d3: JsArray, c: int,
    carry: int)
    requires SquareSoFar(x, xt, i, d0) && i < xt - 1 && d == Digit(x, i)
    requires Accumulated(d0, d1, 2 * i, 1, Mul(d, Seg(x, i, 1)), c)
    requires Accumulated(d1, d2, 2 * i + 1, xt - i - 1, Mul(2 * d, Seg(x, i + 1, xt - i - 1)) + c, carry)
    requires SquarePlaced(xt, i, d0, d1, d2, d3, carry)
    ensures Seg(d3, 0, 2 * xt) + Mul(Sq(Seg(x, i + 1, xt - i - 1)), W(2 * i + 2)) == Sq(Seg(x, 0, xt))
  {
    hide *;
    var n := xt - i - 1;
    SquareBefore(x, xt, i, d0);
    SquareAfter(x, xt, i, d0, d1, d2, d3, carry);
    SquareMiddle(x, xt, i, d, d0, d1, d2, c, carry);
    OneDigit(x, i);
    SegSplit(x, i, 1, n);
    TwoUp(2 * i);
    SquareArithmetic(d, Seg(x, i, n + 1), Seg(x, i + 1, n), Seg(d0, 2 * i, 1), Seg(d1, 2 * i, 1),
                     Seg(d1, 2 * i + 1, n), Seg(d2, 2 * i + 1, n), c, carry, W(n), Digit(d0, i + xt),
                     Seg(d0, 0, 2 * i), W(2 * i), W(2 * i + 2), Seg(d0, 0, 2 * xt), Seg(d3, 0, 2 * xt));
  }

  lemma SquareMiddle(x: JsArray, xt: nat, i: nat, d: int, d0: JsArray, d1: JsArray, d2: JsArray, c: int, carry: int)
    requires SquareSoFar(x, xt, i, d0) && i < xt - 1 && d == Digit(x, i)
    requires Accumulated(d0, d1, 2 * i, 1, Mul(d, Seg(x, i, 1)), c)
    requires Accumulated(d1, d2, 2 * i + 1, xt - i - 1, Mul(2 * d, Seg(x, i + 1, xt - i - 1)) + c, carry)
    ensures
      var n := xt - i - 1;
      && Seg(d0, 0, 2 * xt) + Mul(Sq(Seg(x, i, n + 1)), W(2 * i)) == Sq(Seg(x, 0, xt))
      && Seg(d0, 2 * i + 1, n) == Seg(d1, 2 * i + 1, n)
      && Seg(d1, 2 * i, 1) + Mul(c, DV) == Seg(d0, 2 * i, 1) + Mul(d, d)
      && Seg(d2, 2 * i + 1, n) + Mul(carry, W(n)) == Seg(d1, 2 * i + 1, n) + Mul(2 * d, Seg(x, i + 1, n)) + c
  {
    hide Mul;
    hide Seg;
    SegSame(d0, d1, 2 * i + 1, 2 * i + 1, xt - i - 1);
    OneDigit(x, i);
  }

  lemma SquareBefore(x: JsArray, xt: nat, i: nat, d0: JsArray)
    requires SquareSoFar(x, xt, i, d0) && i < xt - 1
    ensures
      var n := xt - i - 1;
      Seg(d0, 0, 2 * xt) == Seg(d0, 0, 2 * i) +
        Mul(Seg(d0, 2 * i, 1) + Mul(Seg(d0, 2 * i + 1, n) + Mul(Digit(d0, i + xt), W(n)), DV), W(2 * i))
  {
    hide Mul;
    hide Seg;
    SquareParts(d0, i, xt, d0[i + xt], d0, d0, d0);
  }

  lemma SquareAfter(x: JsArray, xt: nat, i: nat, d0: JsArray, d1: JsArray, d2: JsArray, d3: JsArray, carry: int)
    requires SquareSoFar(x, xt, i, d0) && i < xt - 1
    requires SquarePlaced(xt, i, d0, d1, d2, d3, carry)
    ensures
      var n := xt - i - 1;
      Seg(d3, 0, 2 * xt) == Seg(d0, 0, 2 * i) +
        Mul(Seg(d1, 2 * i, 1) + Mul(Seg(d2, 2 * i + 1, n) + Mul(Digit(d0, i + xt) + carry, W(n)), DV), W(2 * i))
  {
    hide Mul;
    hide Seg;
    hide W;
    SquareParts(d3, i, xt, d0[i + xt] + carry, d0, d1, d2);
  }

  lemma TwoUp(n: nat)
    ensures W(n + 2) == DV * (DV * W(n))
  {
    assert W(n + 2) == DV * W(n + 1);
  }

  lemma OneDigit(x: JsArray, i: int)
    ensures Seg(x, i, 1) == Digit(x, i) && W(1) == DV
  {
    assert Seg(x, i, 1) == Seg(x, i, 0) + Mul(Digit(x, i), W(0));
  }

  /** A number whose digits from i + xt on are worth e, taken apart where a round works on it:
      the low digits are those of dl, the next one is that of da, the next n those of db. */
  lemma SquareParts(d: JsArray, i: nat, xt: nat, e: int, dl: JsArray, da: JsArray, db: JsArray)
    requires i < xt - 1 && HasDigits(d, 0, 2 * xt)
    requires HasDigits(dl, 0, 2 * i) && HasDigits(da, 2 * i, 2 * i + 1) && HasDigits(db, 2 * i + 1, i + xt)
    requires forall k :: 0 <= k < 2 * i ==> d[k] == dl[k]
    requires d[2 * i] == da[2 * i]
    requires forall k :: 2 * i + 1 <= k < i + xt ==> d[k] == db[k]
    requires forall k :: i + xt + 1 < k < 2 * xt ==> d[k] == 0
    requires e == d[i + xt] + d[i + xt + 1] * DV
    ensures
      var n := xt - i - 1;
      Seg(d, 0, 2 * xt) == Seg(dl, 0, 2 * i) + Mul(Seg(da, 2 * i, 1) + Mul(Seg(db, 2 * i + 1, n) + Mul(e, W(n)), DV),
        W(2 * i))
  {
    hide Mul;
    hide Seg;
    hide W;
    var n := xt - i - 1;
    SplitAs(d, db, 2 * i + 1, n, n + 1);
    HighDigits(d, i + xt, n + 1);
    SplitAs(d, da, 2 * i, 1, 2 * n + 1);
    OneDigit(d, 2 * i);
    SplitAs(d, dl, 0, 2 * i, 2 * n + 2);
  }

  /** SegSplit, with the low part read off another array that has the same digits there. */
  lemma SplitAs(d: JsArray, low: JsArray, lo: int, m: nat, n: nat)
    requires forall k :: lo <= k < lo + m ==> k in d && k in low && d[k] == low[k]
    ensures Seg(d, lo, m + n) == Seg(low, lo, m) + Mul(Seg(d, lo + m, n), W(m))
  {
    SegSplit(d, lo, m, n);
    SegSame(d, low, lo, lo, m);
  }

  lemma HighDigits(d: JsArray, j: int, m: nat)
    requires m >= 2 && HasDigits(d, j, j + m)
    requires forall k :: j + 1 < k < j + m ==> d[k] == 0
    ensures Seg(d, j, m) == d[j] + d[j + 1] * DV
  {
    SegSplit(d, j, 2, m - 2);
    SegZero(d, j + 2, m - 2);
    OneDigit(d, j);
    assert Seg(d, j, 2) == Seg(d, j, 1) + Mul(d[j + 1], W(1));
  }

  /** The two multiplier calls of a round add x*x and twice x times the rest, so what is
      still missing is the square of the rest, two digits up. */
  lemma SquareArithmetic(x: int, m: int, rest: int, a0: int, a1: int, b0: int, b1: int, c: int, carry: int,
                         wn: int, top: int, lo: int, w: int, w': int, r0: int, r1: int)
    requires a1 + Mul(c, DV) == a0 + Mul(x, x)
    requires b1 + Mul(carry, wn) == b0 + Mul(2 * x, rest) + c
    requires m == x + Mul(rest, DV) && w' == DV * (DV * w)
    requires r0 == lo + Mul(a0 + Mul(b0 + Mul(top, wn), DV), w)
    requires r1 == lo + Mul(a1 + Mul(b1 + Mul(top + carry, wn), DV), w)
    ensures r0 + Mul(Sq(m), w) == r1 + Mul(Sq(rest), w')
  {
    var p, p', q, r2 := a0 + (b0 + top * wn) * DV, a1 + (b1 + (top + carry) * wn) * DV,
                        x * x + 2 * (x * rest) * DV, rest * rest * (DV * DV);
    assert p' == p + q by {
      MulDistrib(top, carry, wn);
      MulAssoc(2, x, rest);
    }
    SplitSquare(x, rest);
    calc {
      p * w + m * m * w;
      { assert m * m == q + r2; }
      p * w + (q + r2) * w;
      { MulDistrib(q, r2, w); MulDistrib(p, q, w); }
      (p + q) * w + r2 * w;
      { assert p + q == p'; }
      p' * w + r2 * w;
      { MulAssoc(rest * rest, DV * DV, w); MulAssoc(DV, DV, w); }
      p' * w + rest * rest * (DV * (DV * w));
    }
  }

  lemma SplitSquare(x: int, rest: int)
    ensures (x + rest * DV) * (x + rest * DV) == x * x + 2 * (x * rest) * DV + (rest * rest) * (DV * DV)
  {
    var y := rest * DV;
    calc {
      (x + y) * (x + y);
      { MulDistrib(x, y, x + y); }
      x * (x + y) + y * (x + y);
      { MulDistrib(x, y, x); MulDistrib(x, y, y); }
      x * x + 2 * (x * y) + y * y;
      { MulAssoc(x, rest, DV); }
      x * x + 2 * ((x * rest) * DV) + y * y;
      { MulAssoc(rest, DV, y); MulAssoc(rest, rest, DV); MulAssoc(rest * rest, DV, DV); }
      x * x + 2 * ((x * rest) * DV) + (rest * rest) * (DV * DV);
    }
  }

  lemma SquareFinish(x: JsArray, xt: nat, d0: JsArray, d1: JsArray, c: int)
    requires xt > 0 && SquareSoFar(x, xt, xt - 1, d0) && c >= 0
    requires Accumulated(d0, d1, 2 * xt - 2, 1, Mul(x[xt - 1], Seg(x, xt - 1, 1)), c)
    ensures 2 * xt - 1 in d0 && HasDigits(d1[2 * xt - 1 := d0[2 * xt - 1] + c], 0, 2 * xt)
    ensures Seg(d1[2 * xt - 1 := d0[2 * xt - 1] + c], 0, 2 * xt) == Sq(Seg(x, 0, xt))
  {
    var e := d0[2 * xt - 1] + c;
    SquareTotal(x, xt, d0, d1, c);
    SegBound(x, 0, xt);
    SegBound(d1, 0, 2 * xt - 1);
    WAdd(xt, xt);
    TopFits(Seg(d1, 0, 2 * xt - 1), e, W(2 * xt - 1), Seg(x, 0, xt), W(xt));
    SegExtend(d1, 2 * xt - 1, e);
  }

  lemma SquareTotal(x: JsArray, xt: nat, d0: JsArray, d1: JsArray, c: int)
    requires xt > 0 && SquareSoFar(x, xt, xt - 1, d0) && c >= 0
    requires Accumulated(d0, d1, 2 * xt - 2, 1, Mul(x[xt - 1], Seg(x, xt - 1, 1)), c)
    ensures HasDigits(d1, 0, 2 * xt - 1)
    ensures Seg(d1, 0, 2 * xt - 1) + Mul(d0[2 * xt - 1] + c, W(2 * xt - 1)) == Sq(Seg(x, 0, xt))
  {
    hide Mul;
    hide Sq;
    hide Seg;
    hide W;
    var i, top := xt - 1, d0[2 * xt - 1];
    OneDigit(x, i);
    SegTopDigit(d0, 2 * i + 2);
    SegSplit(d0, 0, 2 * i, 1);
    SplitAs(d1, d0, 0, 2 * i, 1);
    LastSquare(x[i], Seg(d0, 0, 2 * i), Seg(d0, 2 * i, 1), Seg(d1, 2 * i, 1), c, top, W(2 * i), W(2 * i + 1));
  }

  lemma SegTopDigit(d: JsArray, n: nat)
    requires n >= 2
    ensures Seg(d, 0, n) == Seg(d, 0, n - 1) + Mul(Digit(d, n - 1), W(n - 1))
    ensures W(n - 1) == DV * W(n - 2)
  {
  }

  lemma LastSquare(x: int, lo: int, a0: int, a1: int, c: int, top: int, w: int, w': int)
    requires a1 + Mul(c, DV) == a0 + Mul(x, x) && w' == DV * w
    ensures lo + Mul(a0, w) + Mul(top, w') + Mul(Sq(x), w) == lo + Mul(a1, w) + Mul(top + c, w')
  {
    MulDistrib(a0, x * x, w);
    MulDistrib(a1, c * DV, w);
    MulAssoc(c, DV, w);
    MulDistrib(top, c, DV * w);
  }

  /** The top digit of a square that fits in twice the digits is a digit. */
  lemma TopFits(lo: int, e: int, w: int, x: int, wx: int)
    requires 0 <= lo && 0 <= x < wx && w > 0 && wx * wx == DV * w && lo + e * w == x * x
    ensures e < DV
  {
    MulMonotone(x, wx - 1, x);
    MulMonotone(x, wx, wx - 1);
    MulDistrib(wx, 1, wx);
    assert e * w < DV * w;
    if e >= DV {
      MulMonotone(DV, e, w);
      assert false;
    }
  }

  lemma SquareOfNothing(x: JsArray, r: JsArray)
    requires SquareSoFar(x, 0, 0, r)
    ensures Seg(r, 0, 0) == Sq(Seg(x, 0, 0))
  {
  }

  // ----- what a digit array, a length and a sign word stand for -------------------------------

  lemma SignOfValue(x: JsArray, t: nat, s: int, v: int)
    requires StandsFor(x, t, s, v) && (s == 0 || s == -1)
    ensures s == 0 <==> v >= 0
    ensures -W(t) <= v < W(t)
  {
    hide Seg;
    hide W;
    hide Mul;
    SegBound(x, 0, t);
    SignTimes(W(t));
  }

  lemma SignTimes(w: int)
    ensures Mul(0, w) == 0 && Mul(-1, w) == -w
  {
  }

  /** The elements lo to hi of r are those of x, n places up. */
  ghost predicate Moved(r: JsArray, x: JsArray, lo: int, hi: int, n: int) {
    forall k {:trigger r[k]} {:trigger k in r} :: lo <= k < hi ==> k in r && k - n in x && r[k] == x[k - n]
  }

  lemma StillMoved(r: JsArray, r': JsArray, x: JsArray, n: nat, hi: int)
    requires Moved(r, x, n, hi, n) && SameOutside(r, r', 0, n)
    ensures Moved(r', x, n, hi, n)
  {
  }

  lemma ShiftedLeft(x: JsArray, t: nat, s: int, v: int, n: nat, r: JsArray)
    requires StandsFor(x, t, s, v)
    requires forall k :: 0 <= k < n ==> k in r && r[k] == 0
    requires Moved(r, x, n, t + n, n)
    ensures StandsFor(r, t + n, s, Mul(v, W(n)))
  {
    hide Mul;
    hide W;
    hide Seg;
    SegSplit(r, 0, n, t);
    SegZero(r, 0, n);
    SegSame(r, x, n, 0, t);
    WAdd(t, n);
    ScaleSigned(v, Seg(x, 0, t), s, W(t), W(n), W(t + n));
  }

  lemma ScaleSigned(v: int, d: int, s: int, wt: int, wn: int, wtn: int)
    requires v == d + Mul(s, wt) && wtn == Mul(wt, wn)
    ensures Mul(v, wn) == Mul(d, wn) + Mul(s, wtn)
  {
    MulAssoc(s, wt, wn);
    MulDistrib(d, s * wt, wn);
  }

  lemma ShiftedRight(x: JsArray, t: nat, s: int, v: int, n: nat, r: JsArray)
    requires StandsFor(x, t, s, v) && (s == 0 || s == -1)
    requires Moved(r, x, 0, t - n, 0 - n)
    ensures StandsFor(r, Max(t - n, 0), s, v / W(n))
  {
    hide Mul;
    hide W;
    hide Seg;
    if n <= t {
      SegSame(r, x, 0, n, t - n);
      SegSplit(x, 0, n, t - n);
      SegBound(x, 0, n);
      WAdd(t - n, n);
      FloorSigned(v, Seg(x, 0, t), Seg(x, 0, n), Seg(r, 0, t - n), s, W(t), W(t - n), W(n));
    } else {
      ShiftedOut(x, t, s, v, n);
      NoDigits(r, s);
    }
  }

  lemma FloorSigned(v: int, d: int, lo: int, hi: int, s: int, wt: int, wh: int, wn: int)
    requires v == d + Mul(s, wt) && d == lo + Mul(hi, wn) && wt == Mul(wh, wn) && 0 <= lo < wn
    ensures v / wn == hi + Mul(s, wh)
  {
    ScaleSigned(hi + Mul(s, wh), hi, s, wh, wn, wt);
    DivModUnique(v, wn, hi + s * wh, lo);
  }

  lemma ShiftedOut(x: JsArray, t: nat, s: int, v: int, n: nat)
    requires StandsFor(x, t, s, v) && (s == 0 || s == -1) && n > t
    ensures v / W(n) == s
  {
    SignOfValue(x, t, s, v);
    WMonotone(t, n);
    DivModUnique(v, W(n), s, v - s * W(n));
  }

  lemma NoDigits(r: JsArray, s: int)
    ensures StandsFor(r, 0, s, s)
  {
  }

  lemma {:induction false} WMonotone(m: nat, n: nat)
    requires m <= n
    ensures W(m) <= W(n)
  {
    if m < n {
      WMonotone(m, n - 1);
    }
  }

  /** Of two clamped numbers of one sign the one with more digits is farther from zero. */
  lemma LongerIsFarther(x: JsArray, tx: nat, v: int, y: JsArray, ty: nat, u: int, s: int)
    requires tx < ty && StandsFor(x, tx, s, v) && StandsFor(y, ty, s, u)
    requires s == 0 || s == -1
    requires y[ty - 1] != (if s == 0 then 0 else DM)
    ensures s == 0 ==> v < u
    ensures s == -1 ==> v > u
  {
    hide Seg;
    hide W;
    hide Mul;
    SegBound(x, 0, tx);
    SegBound(y, 0, ty - 1);
    WMonotone(tx, ty - 1);
    SegNext(y, 0, ty - 1);
    SignTimes(W(tx));
    SignTimes(W(ty));
    DigitTimes(y[ty - 1], W(ty - 1));
  }

  lemma DigitTimes(d: int, w: int)
    requires 0 <= d < DV && w >= 1
    ensures d != 0 ==> Mul(d, w) >= w
    ensures d != DM ==> Mul(d, w) <= DV * w - 2 * w
  {
    if d != 0 { MulMonotone(1, d, w); }
    if d != DM { MulMonotone(d, DM - 1, w); }
  }

  /** The highest digit in which two numbers of one length differ decides between them. */
  lemma TopDifference(x: JsArray, v: int, y: JsArray, u: int, s: int, i: nat, t: nat)
    requires i < t && StandsFor(x, t, s, v) && StandsFor(y, t, s, u)
    requires forall k :: i < k < t ==> x[k] == y[k]
    requires x[i] != y[i]
    ensures x[i] < y[i] <==> v < u
    ensures v != u
  {
    hide W;
    hide Seg;
    hide Mul;
    SegSplit(x, 0, i + 1, t - i - 1);
    SegSplit(y, 0, i + 1, t - i - 1);
    SegSame(x, y, i + 1, i + 1, t - i - 1);
    if x[i] < y[i] {
      TopDigit(x, y, i);
    } else {
      TopDigit(y, x, i);
    }
  }

  lemma NoDifference(x: JsArray, v: int, y: JsArray, u: int, s: int, t: nat)
    requires StandsFor(x, t, s, v) && StandsFor(y, t, s, u)
    requires forall k :: 0 <= k < t ==> x[k] == y[k]
    ensures v == u
  {
    SegSame(x, y, 0, 0, t);
  }

  lemma TopDigit(x: JsArray, y: JsArray, i: nat)
    requires HasDigits(x, 0, i + 1) && HasDigits(y, 0, i + 1) && x[i] < y[i]
    ensures Seg(x, 0, i + 1) < Seg(y, 0, i + 1)
  {
    SegBound(x, 0, i);
    SegBound(y, 0, i);
    MulMonotone(x[i] + 1, y[i], W(i));
    MulDistrib(x[i], 1, W(i));
  }


  // ----- digit loops that carry upwards ---------------------------------------------------

  /** The digits from i on are still those of the operand as it was. */
  ghost predicate Tail(now: JsArray, was: JsArray, i: int, t: int) {
    forall k {:trigger now[k]} {:trigger k in now} :: i <= k < t ==> k in now && k in was && now[k] == was[k]
  }

  /** The i digits written so far and the carry c into digit i stand for v. */
  ghost predicate Running(r: JsArray, i: nat, c: int, v: int) {
    HasDigits(r, 0, i) && Seg(r, 0, i) + Mul(c, W(i)) == v
  }

  ghost predicate StandsFor(x: JsArray, t: nat, s: int, v: int) {
    HasDigits(x, 0, t) && v == Seg(x, 0, t) + Mul(s, W(t))
  }

  function Sgn(sub: bool, v: int): int { if sub then -v else v }

  lemma RunStep(r: JsArray, i: nat, c: int, v: int, e: int)
    requires Running(r, i, c, v)
    ensures Running(r[i := (c + e) % DV], i + 1, (c + e) / DV, v + e * W(i))
  {
    SegExtend(r, i, (c + e) % DV);
    CarryOut((c + e) % DV, (c + e) / DV, c, e, W(i));
  }

  lemma StepBoth(r: JsArray, i: nat, c: int, x: JsArray, y: JsArray, sub: bool)
    requires HasDigits(x, 0, i + 1) && HasDigits(y, 0, i + 1)
    requires Running(r, i, c, Seg(x, 0, i) + Sgn(sub, Seg(y, 0, i)))
    ensures var e := c + (x[i] + Sgn(sub, y[i]));
      Running(r[i := e % DV], i + 1, e / DV, Seg(x, 0, i + 1) + Sgn(sub, Seg(y, 0, i + 1)))
  {
    RunStep(r, i, c, Seg(x, 0, i) + Sgn(sub, Seg(y, 0, i)), x[i] + Sgn(sub, y[i]));
    MulDistrib(x[i], y[i], W(i));
  }

  lemma StepY(r: JsArray, i: nat, c: int, rest: int, y: JsArray, sub: bool)
    requires HasDigits(y, 0, i + 1) && Running(r, i, c, rest + Sgn(sub, Seg(y, 0, i)))
    ensures var e := c + Sgn(sub, y[i]);
      Running(r[i := e % DV], i + 1, e / DV, rest + Sgn(sub, Seg(y, 0, i + 1)))
  {
    RunStep(r, i, c, rest + Sgn(sub, Seg(y, 0, i)), Sgn(sub, y[i]));
  }

  lemma SignX(r: JsArray, i: nat, c: int, x: JsArray, s: int, v: int, rest: int)
    requires StandsFor(x, i, s, v) && Running(r, i, c, Seg(x, 0, i) + rest)
    ensures Running(r, i, c + s, v + rest)
  {
    MulDistrib(c, s, W(i));
  }

  lemma SignY(r: JsArray, i: nat, c: int, rest: int, y: JsArray, s: int, u: int, sub: bool)
    requires StandsFor(y, i, s, u) && Running(r, i, c, rest + Sgn(sub, Seg(y, 0, i)))
    ensures Running(r, i, c + Sgn(sub, s), rest + Sgn(sub, u))
  {
    MulDistrib(c, s, W(i));
  }

  lemma SegExtend(r: JsArray, i: nat, d: int)
    requires HasDigits(r, 0, i) && 0 <= d < DV
    ensures HasDigits(r[i := d], 0, i + 1)
    ensures Seg(r[i := d], 0, i + 1) == Seg(r, 0, i) + d * W(i)
  {
    SegSame(r, r[i := d], 0, 0, i);
  }

  lemma CarryOut(d: int, c': int, c: int, e: int, w: int)
    requires c + e == d + DV * c'
    ensures d * w + c' * (DV * w) == c * w + e * w
  {
    calc {
      d * w + c' * (DV * w);
      { MulAssoc(c', DV, w); MulDistrib(d, DV * c', w); }
      (d + DV * c') * w;
      (c + e) * w;
      { MulDistrib(c, e, w); }
      c * w + e * w;
    }
  }

  /** The last carry becomes the sign word and, when it is not just that, one more digit. */
  lemma RunFinish(r: JsArray, i: nat, c: int, v: int)
    requires Running(r, i, c, v) && -2 <= c <= 1
    ensures c < -1 ==> HasDigits(r[i := DV + c], 0, i + 1) && v == Seg(r[i := DV + c], 0, i + 1) - W(i + 1)
    ensures -1 <= c <= 0 ==> v == Seg(r, 0, i) + c * W(i)
    ensures c > 0 ==> HasDigits(r[i := c], 0, i + 1) && v == Seg(r[i := c], 0, i + 1)
  {
    if c < -1 {
      SegExtend(r, i, DV + c);
      MulDistrib(DV, c, W(i));
    } else if c > 0 {
      SegExtend(r, i, c);
    }
  }

  /** What holds after k rounds: w went from w0 to w1 and c is the carry. */
  ghost predicate AmSoFar(a: JsArray, i0: int, x: int, w0: JsArray, w1: JsArray, j0: int, k: nat, c0: int, c: int) {
    && 0 <= c < 3 * DV && (c0 <= x ==> c <= x)
    && HasDigits(a, i0, i0 + k) && HasDigits(w0, j0, j0 + k) && HasDigits(w1, j0, j0 + k)
    && Seg(w1, j0, k) + Mul(c, W(k)) == Seg(w0, j0, k) + Mul(x, Seg(a, i0, k)) + c0
  }

  lemma AmExtend(a: JsArray, i0: int, x: int, w0: JsArray, w1: JsArray, j0: int, k: nat,
                 c0: int, c: int, digit: int, c': int)
    requires AmSoFar(a, i0, x, w0, w1, j0, k, c0, c)
    requires HasDigits(a, i0, i0 + k + 1) && HasDigits(w0, j0, j0 + k + 1)
    requires 0 <= digit < DV && 0 <= c' < 3 * DV && (c <= x ==> c' <= x)
    requires x * a[i0 + k] + w0[j0 + k] + c == digit + DV * c'
    ensures AmSoFar(a, i0, x, w0, w1[j0 + k := digit], j0, k + 1, c0, c')
  {
    var w2 := w1[j0 + k := digit];
    SegSame(w1, w2, j0, j0, k);
    AmAccumulate(x, a[i0 + k], w0[j0 + k], c, digit, c', W(k), Seg(a, i0, k), Seg(w0, j0, k), Seg(w1, j0, k), c0);
  }

  /** One more digit on each side of the multiplier's running equation. */
  lemma AmAccumulate(x: int, a: int, w: int, c: int, w': int, c': int, p: int,
                     sa: int, sw: int, sw': int, c0: int)
    requires x * a + w + c == w' + DV * c'
    requires sw' + c * p == sw + x * sa + c0
    ensures sw' + w' * p + c' * (DV * p) == sw + w * p + x * (sa + a * p) + c0
  {
    calc {
      w' * p + c' * (DV * p);
      { MulAssoc(c', DV, p); MulDistrib(w', DV * c', p); }
      (w' + DV * c') * p;
      (x * a + w + c) * p;
      { MulDistrib(x * a + w, c, p); MulDistrib(x * a, w, p); MulAssoc(x, a, p); }
      w * p + x * (a * p) + c * p;
    }
    MulDistrib(sa, a * p, x);
  }
}
