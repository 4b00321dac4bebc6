/** Numbers written in base 2^28, lowest digit first, in a JavaScript array. */
module Digits {
  import opened Arithmetic

  const DB := 28
  const DV := 0x1000_0000
  const DM := 0xfff_ffff

  /** A JavaScript array: the elements that have been assigned. Reading any other index
      gives undefined, which the arithmetic must never do. */
  type JsArray = map<int, int>

  predicate HasDigits(a: JsArray, lo: int, hi: int) {
    forall i :: lo <= i < hi ==> i in a && 0 <= a[i] < DV
  }

  /** DV^n */
  function W(n: nat): (w: int)
    ensures w >= 1
  {
    if n == 0 then 1 else DV * W(n - 1)
  }

  ghost function Digit(a: JsArray, i: int): int {
    if i in a then a[i] else 0
  }

  /** The n digits from index lo on, read as a number. */
  ghost function Seg(a: JsArray, lo: int, n: nat): int {
    if n == 0 then 0 else Seg(a, lo, n - 1) + Mul(Digit(a, lo + n - 1), W(n - 1))
  }

  lemma SegNext(a: JsArray, lo: int, n: nat)
    ensures Seg(a, lo, n + 1) == Seg(a, lo, n) + Mul(Digit(a, lo + n), W(n))
    ensures W(n + 1) == DV * W(n)
  {
  }

  lemma {:induction false} WAdd(m: nat, n: nat)
    ensures W(m + n) == Mul(W(m), W(n))
  {
    if m == 0 {
    } else {
      WAdd(m - 1, n);
      MulAssoc(DV, W(m - 1), W(n));
    }
  }

  lemma {:induction false} SegBound(a: JsArray, lo: int, n: nat)
    requires HasDigits(a, lo, lo + n)
    ensures 0 <= Seg(a, lo, n) < W(n)
  {
    if n > 0 {
      SegBound(a, lo, n - 1);
      MulMonotone(a[lo + n - 1], DM, W(n - 1));
      MulMonotone(0, a[lo + n - 1], W(n - 1));
    }
  }

  lemma {:induction false} SegSame(a: JsArray, b: JsArray, la: int, lb: int, n: nat)
    requires forall i :: la <= i < la + n ==> i in a && i - la + lb in b && a[i] == b[i - la + lb]
    ensures Seg(a, la, n) == Seg(b, lb, n)
  {
    if n > 0 {
      SegSame(a, b, la, lb, n - 1);
      assert la + n - 1 in a;
    }
  }

  lemma {:induction false} SegSplit(a: JsArray, lo: int, m: nat, n: nat)
    ensures Seg(a, lo, m + n) == Seg(a, lo, m) + Mul(Seg(a, lo + m, n), W(m))
  {
    if n > 0 {
      SegSplit(a, lo, m, n - 1);
      WAdd(m, n - 1);
      SplitDigit(Seg(a, lo + m, n - 1), Digit(a, lo + m + n - 1), W(m), W(n - 1));
    }
  }

  lemma SplitDigit(s: int, d: int, wm: int, wn: int)
    ensures s * wm + d * (wm * wn) == (s + d * wn) * wm
  {
    calc {
      (s + d * wn) * wm;
      { MulDistrib(s, d * wn, wm); }
      s * wm + d * wn * wm;
      { MulAssoc(d, wn, wm); }
      s * wm + d * (wn * wm);
    }
  }

  lemma {:induction false} SegZero(a: JsArray, lo: int, n: nat)
    requires HasDigits(a, lo, lo + n)
    requires forall i :: lo <= i < lo + n ==> a[i] == 0
    ensures Seg(a, lo, n) == 0
  {
    if n > 0 {
      SegZero(a, lo, n - 1);
    }
  }

  /** The low digits say what the number is modulo a power of the base, the high digits
      what the quotient is. */
  lemma SegDivMod(a: JsArray, lo: int, m: nat, n: nat)
    requires HasDigits(a, lo, lo + m + n)
    ensures Seg(a, lo, m + n) / W(m) == Seg(a, lo + m, n)
    ensures Seg(a, lo, m + n) % W(m) == Seg(a, lo, m)
  {
    SegSplit(a, lo, m, n);
    SegBound(a, lo, m);
    DivModUnique(Seg(a, lo, m + n), W(m), Seg(a, lo + m, n), Seg(a, lo, m));
  }
}
