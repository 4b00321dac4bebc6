/** The sliding-window loop of the modular power, over any of the reducers. The exponent is taken from
    its high end in windows of up to k bits that start and end with a one; the odd powers that a
    window can ask for are computed beforehand. */
module ModularPower {
  import opened Arithmetic
  import opened JsNumber
  import opened Digits
  import opened DigitLoops
  import opened BigIntegers
  import opened Reduction
  import opened Reducers
  import opened ExponentBits

  // ----- bit lengths ----------------------------------------------------------------------------

  /** x has r bits. */
  ghost predicate HasBits(x: nat, r: nat) {
    r >= 1 && (if x == 0 then r == 1 else Pow2(r - 1) <= x < Pow2(r))
  }

  method Nbits(x0: int) returns (r: int)
    requires 0 <= x0 < 0x1_0000_0000
    ensures 1 <= r <= 32 && HasBits(x0, r)
  {
    SmallPowers();
    hide Pow2;
    var x := x0;
    r := 1;
    DivModUnique(x0, 1, x0, 0);
    x, r := NbitsStep(x0, x, r, 16, 0x1_0000);
    x, r := NbitsStep(x0, x, r, 8, 0x100);
    x, r := NbitsStep(x0, x, r, 4, 0x10);
    x, r := NbitsStep(x0, x, r, 2, 4);
    x, r := NbitsStep(x0, x, r, 1, 2);
    DivModOf(x0, Pow2(r - 1));
    NextPower(r);
  }

  lemma SmallPowers()
    ensures Pow2(0) == 1 && Pow2(1) == 2 && Pow2(2) == 4 && Pow2(4) == 0x10 && Pow2(8) == 0x100 && Pow2(16) == 0x1_0000
  {
    Pow2Add(4, 4);
    Pow2Add(8, 8);
  }

  lemma NextPower(r: nat)
    requires r >= 1
    ensures Pow2(r) == 2 * Pow2(r - 1)
  {
  }

  // drops the low n bits when there are more than n
  method NbitsStep(ghost x0: nat, x: int, r: int, n: nat, d: int) returns (x': int, r': int)
    requires 1 <= r && x == x0 / Pow2(r - 1) && (x0 > 0 ==> x > 0) && 0 <= x < 0x1_0000_0000
    requires n < 16 ==> x < 0x1_0000
    requires n <= 16 && d == Pow2(n) && 1 < d <= 0x1_0000
    ensures r <= r' <= r + n && x' == x0 / Pow2(r' - 1) && (x0 > 0 ==> x' > 0) && 0 <= x' <= x
    ensures x < d * d ==> x' < d
    ensures x0 == 0 ==> r' == r
  {
    var t := if n == 16 then ShrZero(x, d) else Shr(x, d);
    x', r' := x, r;
    DivPow2(x0, r - 1, n);
    DivModOf(x, d);
    ZeroOver(Pow2(r - 1));
    if t != 0 {
      x', r' := t, r + n;
    }
    QuotientBelow(x, d, t);
  }

  lemma ZeroOver(d: int)
    requires d > 0
    ensures 0 / d == 0
  {
    DivModUnique(0, d, 0, 0);
  }

  lemma QuotientBelow(x: int, d: int, t: int)
    requires d > 1 && x >= 0 && t == x / d
    ensures 0 <= t <= x && (x < d * d ==> t < d) && (t == 0 ==> x < d)
  {
    DivModOf(x, d);
    if t >= d {
      MulMonotone(d, t, d);
    }
    if t < 0 {
      MulMonotone(t, -1, d);
      assert false;
    }
    MulMonotone(1, d, t);
  }

  // ----- windows -------------------------------------------------------------------------------

  /** The k bits of e from bit p down, filled up with zeros past bit 0. */
  ghost function WindowValue(e: nat, p: nat, k: nat): int {
    if p + 1 >= k then Above(e, p - k) % Pow2(k) else (e % Pow2(p + 1)) * Pow2(k - 1 - p)
  }

  /** The exponent's digits as the loop reads them: bit i of digit j is bit p of the number. */
  ghost predicate AtBit(e: BigInteger, j: int, i: int)
    reads e
  {
    e.Valid() && e.s == 0 && -1 <= j < e.t && 0 <= i < 28 && (j == -1 ==> i == 27)
  }

  method Window(e: BigInteger, j: int, i: int, k: nat) returns (w: int)
    requires AtBit(e, j, i) && j >= 0 && 1 <= k <= 6
    ensures w == WindowValue(NatOf(e.digits, e.t), 28 * j + i, k)
    ensures 0 <= w < Pow2(k)
  {
    PowersOfTwo();
    hide Pow2;
    hide Above;
    var k1 := k - 1;
    Pow2Below(k, 6);
    Pow2Below(i + 1, 28);
    DigitBase();
    if i >= k1 {
      Pow2Below(i - k1, 28);
      WindowInside(e.digits, j, e.t, i, k);
      w := Low(Shr(e.digits[j], Pow2(i - k1)), Pow2(k));
    } else {
      var r := k1 - i;
      Pow2Below(r, 6);
      Pow2Below(28 - r, 28);
      ShiftedLow(e.digits[j], i + 1, r);
      w := Shl(Low(e.digits[j], Pow2(i + 1)), Pow2(r));
      if j > 0 {
        WindowStraddles(e.digits, j, e.t, i, k);
        TopBits(e.digits[j - 1], r);
        w := Or(w, Shr(e.digits[j - 1], Pow2(28 - r)), Pow2(r));
        DivModOf(Above(NatOf(e.digits, e.t), 28 * j + i - k), Pow2(k));
      } else {
        LastDigit(e.digits, e.t, i);
      }
    }
  }

  lemma PowersOfTwo()
    ensures Pow2(0) == 1 && Pow2(6) == 0x40
  {
  }

  lemma {:induction false} Pow2Below(m: nat, n: nat)
    requires m <= n
    ensures Pow2(m) <= Pow2(n)
  {
    if m < n {
      Pow2Below(m, n - 1);
    }
  }

  lemma ShiftedLow(d: int, a: nat, r: nat)
    requires 0 <= d
    ensures 0 <= (d % Pow2(a)) * Pow2(r) < Pow2(a + r)
    ensures ((d % Pow2(a)) * Pow2(r)) % Pow2(r) == 0
  {
    DivModOf(d, Pow2(a));
    Pow2Add(a, r);
    MulMonotone(d % Pow2(a), Pow2(a) - 1, Pow2(r));
    MulMonotone(0, d % Pow2(a), Pow2(r));
    MulDistrib(Pow2(a), 1, Pow2(r));
    ModAddMultiple(0, d % Pow2(a), Pow2(r));
    DivModUnique(0, Pow2(r), 0, 0);
  }

  lemma TopBits(d: int, r: nat)
    requires 0 <= d < DV && r <= 28
    ensures 0 <= d / Pow2(28 - r) < Pow2(r)
  {
    DigitBase();
    Pow2Add(28 - r, r);
    QuotientRange(d, Pow2(28 - r), Pow2(r));
  }

  lemma QuotientRange(d: int, p: int, q: int)
    requires 0 <= d < p * q && p > 0
    ensures 0 <= d / p < q
  {
    DivModOf(d, p);
    var t := d / p;
    if t >= q {
      MulMonotone(q, t, p);
      assert false;
    }
    if t < 0 {
      MulMonotone(t, -1, p);
      assert false;
    }
  }

  /** In the lowest digit the low bits are those of the number. */
  lemma LastDigit(x: JsArray, t: nat, i: nat)
    requires 0 < t && HasDigits(x, 0, t) && i < 28
    ensures x[0] % Pow2(i + 1) == NatOf(x, t) % Pow2(i + 1)
  {
    hide Mul;
    hide Pow2;
    var hi := NatOf'(x, 1, t - 1);
    assert NatOf(x, t) == x[0] + DV * hi by {
      SegSplit(x, 0, 1, t - 1);
      OneDigit(x, 0);
      TimesBase(hi);
    }
    DigitBase();
    Pow2Add(i + 1, 27 - i);
    LowOfSum(x[0], hi, Pow2(i + 1), Pow2(27 - i));
  }

  lemma LowOfSum(d: int, hi: int, p: int, q: int)
    requires p > 0 && DV == p * q
    ensures d % p == (d + DV * hi) % p
  {
    MulAssoc(p, q, hi);
    ModAddMultiple(d, q * hi, p);
  }

  /** Drops the zeros at the low end: what is left is odd, and all of it are bits of e. */
  method StripZeros(w0: int, k: nat, ghost e: nat, ghost p: nat) returns (w: int, n: nat)
    requires 1 <= k <= 6 && w0 == WindowValue(e, p, k) && 0 <= w0 < Pow2(k)
    requires Above(e, p - 1) % 2 == 1
    ensures 1 <= n <= k && n <= p + 1 && w % 2 == 1 && 0 <= w < Pow2(n)
    ensures w == Above(e, p - n) % Pow2(n)
  {
    w, n := w0, k;
    Pow2Below(k, 6);
    OneBit(e, p);
    while Low(w, 2) == 0
      invariant 1 <= n <= k && w == WindowValue(e, p, n) && 0 <= w < Pow2(n)
      decreases n
    {
      StripOne(e, p, n);
      w := Shr(w, 2);
      n := n - 1;
      Pow2Below(n, 6);
    }
    if n > p + 1 {
      StillEven(e, p, n);
      assert false;
    }
  }

  lemma OneBit(e: nat, p: nat)
    ensures WindowValue(e, p, 1) == Above(e, p - 1) % 2
  {
    assert Pow2(1) == 2;
  }

  lemma StillEven(e: nat, p: nat, n: nat)
    requires n > p + 1
    ensures WindowValue(e, p, n) % 2 == 0
  {
    var a, b := e % Pow2(p + 1), Pow2(n - 2 - p);
    assert Pow2(n - 1 - p) == 2 * b;
    assert a * (2 * b) == 2 * (a * b) by { MulAssoc(2, a, b); MulAssoc(a, 2, b); }
  }

  lemma StripOne(e: nat, p: nat, n: nat)
    requires n > 0 && WindowValue(e, p, n) % 2 == 0
    ensures WindowValue(e, p, n - 1) == WindowValue(e, p, n) / 2
  {
    if p + 1 >= n {
      DropZero(Above(e, p - n), n);
      DivPow2(e, p + 1 - n, 1);
      assert Pow2(1) == 2;
    } else {
      var a, b := e % Pow2(p + 1), Pow2(n - 2 - p);
      assert Pow2(n - 1 - p) == 2 * b;
      assert a * (2 * b) == 2 * (a * b) by { MulAssoc(2, a, b); MulAssoc(a, 2, b); }
      if p + 1 == n - 1 {
        assert b == 1;
        DivModUnique(e, 1, e, 0);
      }
    }
  }

  // ----- powers -----------------------------------------------------------------------------------

  lemma PowerDouble(b: int, q: nat)
    ensures Mul(Power(b, q), Power(b, q)) == Power(b, 2 * q)
  {
    PowerAdd(b, q, q);
  }

  lemma PowerSum(b: int, q: nat, w: nat)
    ensures Mul(Power(b, q), Power(b, w)) == Power(b, q + w)
  {
    PowerAdd(b, q, w);
  }

  /** The odd powers up to km that the windows can ask for. */
  ghost predicate Table(z: Reducer, g: map<int, BigInteger>, b: int, km: int)
    reads z.m, g.Values
  {
    z.Valid() && forall w :: 1 <= w <= km && w % 2 == 1 ==> w in g && z.Rep(g[w], Power(b, w))
  }

  lemma ValuesGrow<K, V>(m: map<K, V>, k: K, v: V)
    ensures m[k := v].Values <= m.Values + {v}
  {
  }

  lemma TableGrows(z: Reducer, g: map<int, BigInteger>, b: int, n: nat, x: BigInteger)
    requires Table(z, g, b, n - 1) && z.Rep(x, Power(b, n))
    ensures Table(z, g[n := x], b, n + 1) || n % 2 == 0
  {
    hide Reducer.Rep;
    hide Power;
  }

  method Precompute(z: Reducer, base: BigInteger, k: nat) returns (g: map<int, BigInteger>)
    requires z.Valid() && base.Valid() && base.Clamped() && 1 <= k <= 6
    ensures Table(z, g, base.Value(), Pow2(k) - 1)
    ensures fresh(g.Values - {base})
  {
    hide Mul;
    hide BigInteger.Value;
    hide Reducer.Rep;
    hide Power;
    hide Pow2;
    hide Table;
    ghost var b := base.Value();
    OnlyOne(k);
    var km := Pow2(k) - 1;
    var first := z.Convert(base);
    g := map[1 := first];
    PowerOne(b);
    TableStarts(z, first, b);
    var n := 3;
    if k > 1 {
      var g2 := new BigInteger.Nbi();
      z.SqrTo(first, g2, Power(b, 1));
      PowerDouble(b, 1);
      while n <= km
        invariant n >= 3 && n % 2 == 1
        invariant Table(z, g, b, n - 1) && z.Rep(g2, Power(b, 2))
        invariant fresh(g.Values - {base})
        modifies {}
      {
        var x := TablePower(z, g, g2, n, b);
        TableGrows(z, g, b, n, x);
        ValuesGrow(g, n, x);
        g := g[n := x];
        n := n + 2;
      }
    }
    TableHas(z, g, b, n - 1, km);
  }

  lemma TableStarts(z: Reducer, first: BigInteger, b: int)
    requires z.Valid() && z.Rep(first, Power(b, 1))
    ensures Table(z, map[1 := first], b, 2)
  {
    hide Reducer.Rep;
    hide Power;
  }

  lemma TableHas(z: Reducer, g: map<int, BigInteger>, b: int, n: int, km: int)
    requires Table(z, g, b, n) && km <= n
    ensures Table(z, g, b, km)
  {
    hide Reducer.Rep;
    hide Power;
  }

  lemma OnlyOne(k: nat)
    requires k >= 1
    ensures k == 1 ==> Pow2(k) == 2
  {
  }

  // the next odd power, from the one before it
  method TablePower(z: Reducer, g: map<int, BigInteger>, g2: BigInteger, n: nat, ghost b: int) returns (x: BigInteger)
    requires n >= 3 && n % 2 == 1 && Table(z, g, b, n - 1) && z.Rep(g2, Power(b, 2))
    ensures fresh(x) && z.Rep(x, Power(b, n))
  {
    hide Mul;
    hide BigInteger.Value;
    hide Reducer.Rep;
    hide Power;
    x := new BigInteger.Nbi();
    z.MulTo(g2, g[n - 2], x, Power(b, 2), Power(b, n - 2));
    PowerSum(b, 2, n - 2);
  }

  lemma PowerOne(b: int)
    ensures Power(b, 1) == b
  {
    assert Power(b, 0) == 1;
  }

  // n squarings and one multiplication; r and r2 change places as the code lets them
  method SquareAndMultiply(z: Reducer, x: BigInteger, y: BigInteger, gw: BigInteger, n0: nat,
                           ghost b: int, ghost q: nat, ghost w: nat, ghost next: nat)
    returns (r: BigInteger, r2: BigInteger)
    requires next == Mul(q, Pow2(n0)) + w
    requires z.Valid() && z.Rep(x, Power(b, q)) && z.Rep(gw, Power(b, w))
    requires x != y && gw != x && gw != y && z.m != x && z.m != y
    modifies x, y
    ensures r != r2 && {r, r2} == {x, y}
    ensures z.Rep(r, Power(b, next))
  {
    hide Mul;
    hide BigInteger.Value;
    hide Reducer.Rep;
    hide Power;
    r, r2 := x, y;
    var n := n0;
    ghost var a: nat := q;
    while n > 1
      invariant r == x && r2 == y && 0 <= n <= n0
      invariant z.Valid() && z.Rep(r, Power(b, a)) && z.Rep(gw, Power(b, w))
      invariant Mul(a, Pow2(n)) == Mul(q, Pow2(n0))
      decreases n
    {
      z.SqrTo(r, r2, Power(b, a));
      PowerDouble(b, a);
      z.SqrTo(r2, r, Power(b, 2 * a));
      PowerDouble(b, 2 * a);
      FourTimes(a, n);
      a := 4 * a;
      n := n - 2;
    }
    if n > 0 {
      z.SqrTo(r, r2, Power(b, a));
      PowerDouble(b, a);
      TwoTimes(a);
      a := 2 * a;
    } else {
      r, r2 := r2, r;
      TwoTimes(a);
    }
    z.MulTo(r2, gw, r, Power(b, a), Power(b, w));
    PowerSum(b, a, w);
  }

  lemma FourTimes(a: nat, n: nat)
    requires n >= 2
    ensures Mul(a, Pow2(n)) == Mul(4 * a, Pow2(n - 2))
  {
    assert Pow2(n) == 2 * Pow2(n - 1);
    MulAssoc(4, a, Pow2(n - 2));
  }

  lemma TwoTimes(a: nat)
    ensures Mul(a, Pow2(1)) == 2 * a && Mul(a, Pow2(0)) == a
  {
    assert Pow2(0) == 1 && Pow2(1) == 2;
  }

  // squares once for each zero bit until the next one bit or the end of the exponent
  method SkipZeros(z: Reducer, e: BigInteger, x: BigInteger, y: BigInteger, j0: int, i0: int, ghost b: int)
    returns (r: BigInteger, r2: BigInteger, j: int, i: int)
    requires AtBit(e, j0, i0) && z.Valid()
    requires z.Rep(x, Power(b, Above(NatOf(e.digits, e.t), 28 * j0 + i0)))
    requires x != y && z.m != x && z.m != y && e != x && e != y
    modifies x, y
    ensures r != r2 && {r, r2} == {x, y}
    ensures AtBit(e, j, i) && 28 * j + i <= 28 * j0 + i0
    ensures j >= 0 ==> Above(NatOf(e.digits, e.t), 28 * j + i - 1) % 2 == 1
    ensures z.Rep(r, Power(b, Above(NatOf(e.digits, e.t), 28 * j + i)))
  {
    hide Mul;
    hide BigInteger.Value;
    hide Reducer.Rep;
    hide Power;
    hide Above;
    hide Pow2;
    r, r2, j, i := x, y, j0, i0;
    ghost var n := NatOf(e.digits, e.t);
    while j >= 0 && BitIsZero(e.digits, j, e.t, i)
      invariant AtBit(e, j, i) && 28 * j + i <= 28 * j0 + i0 && z.Valid()
      invariant r != r2 && {r, r2} == {x, y}
      invariant z.Rep(r, Power(b, Above(n, 28 * j + i)))
      decreases 28 * j + i
    {
      BitOfDigit(e.digits, j, e.t, i);
      z.SqrTo(r, r2, Power(b, Above(n, 28 * j + i)));
      PowerDouble(b, Above(n, 28 * j + i));
      ZeroBit(n, 28 * j + i);
      r, r2 := r2, r;
      i := i - 1;
      if i < 0 {
        i, j := 27, j - 1;
      }
    }
    if j >= 0 {
      BitOfDigit(e.digits, j, e.t, i);
    }
  }

  lemma ZeroBit(e: nat, p: nat)
    requires Above(e, p - 1) % 2 == 0
    ensures Above(e, p - 1) == 2 * Above(e, p)
  {
    assert Pow2(1) == 2;
    TakeBits(e, p, 1, 0);
  }

  // (d & (1 << i)) == 0
  predicate BitIsZero(d: JsArray, j: int, t: int, i: int)
    requires 0 <= j < t && HasDigits(d, 0, t) && 0 <= i < 28
  {
    (d[j] / Pow2(i)) % 2 == 0
  }

  // the loop of the modular power; the result is start or a new object
  method PowerLoop(z: Reducer, base: BigInteger, e: BigInteger, k: nat, start: BigInteger) returns (res: BigInteger)
    requires z.Valid() && base.Valid() && base.Clamped() && 1 <= k <= 6
    requires e.Valid() && e.Clamped() && e.s == 0 && e.t > 0
    requires start !in {z.m, base, e}
    modifies start
    ensures res == start || fresh(res)
    ensures res.Valid() && res.Value() == Power(base.Value(), NatOf(e.digits, e.t)) % z.m.Value()
  {
    hide Mul;
    hide BigInteger.Value;
    hide Reducer.Rep;
    hide Power;
    hide Above;
    hide Pow2;
    ghost var b, n := base.Value(), NatOf(e.digits, e.t);
    var g := Precompute(z, base, k);
    var r := start;
    var r2 := new BigInteger.Nbi();
    ghost var work := {r, r2};
    var j, i := FirstBit(e);
    var is1 := true;
    while j >= 0
      invariant AtBit(e, j, i)
      invariant r != r2 && {r, r2} == work && work !! g.Values && work !! {z.m, e}
      invariant Table(z, g, b, Pow2(k) - 1)
      invariant j >= 0 ==> Above(n, 28 * j + i - 1) % 2 == 1
      invariant is1 ==> j >= 0 && Above(n, 28 * j + i) == 0
      invariant !is1 ==> z.Rep(r, Power(b, Above(n, 28 * j + i)))
      decreases 28 * j + i
      modifies work
    {
      r, r2, j, i := WindowRound(z, g, e, k, r, r2, j, i, is1, b);
      is1 := false;
    }
    AllBitsTaken(n);
    res := z.Revert(r, Power(b, n));
  }

  lemma AllBitsTaken(n: nat)
    ensures Above(n, -1) == n
  {
    DivModUnique(n, 1, n, 0);
  }

  // the position of the highest bit
  method FirstBit(e: BigInteger) returns (j: int, i: int)
    requires e.Valid() && e.Clamped() && e.s == 0 && e.t > 0
    ensures AtBit(e, j, i) && j >= 0
    ensures Above(NatOf(e.digits, e.t), 28 * j + i - 1) % 2 == 1
    ensures Above(NatOf(e.digits, e.t), 28 * j + i) == 0
  {
    j := e.t - 1;
    i := Nbits(e.digits[j]);
    i := i - 1;
    TopBit(e.digits, e.t, i);
  }

  // one round of the main loop: the next window, and the zero bits below it
  method WindowRound(z: Reducer, g: map<int, BigInteger>, e: BigInteger, k: nat, x: BigInteger, y: BigInteger,
                     j0: int, i0: int, is1: bool, ghost b: int)
    returns (r: BigInteger, r2: BigInteger, j: int, i: int)
    requires AtBit(e, j0, i0) && j0 >= 0 && 1 <= k <= 6
    requires x != y && x !in g.Values && y !in g.Values && z.m !in {x, y} && e !in {x, y}
    requires Table(z, g, b, Pow2(k) - 1)
    requires Above(NatOf(e.digits, e.t), 28 * j0 + i0 - 1) % 2 == 1
    requires is1 ==> Above(NatOf(e.digits, e.t), 28 * j0 + i0) == 0
    requires !is1 ==> z.Rep(x, Power(b, Above(NatOf(e.digits, e.t), 28 * j0 + i0)))
    modifies x, y
    ensures r != r2 && {r, r2} == {x, y}
    ensures AtBit(e, j, i) && 28 * j + i < 28 * j0 + i0
    ensures j >= 0 ==> Above(NatOf(e.digits, e.t), 28 * j + i - 1) % 2 == 1
    ensures z.Rep(r, Power(b, Above(NatOf(e.digits, e.t), 28 * j + i)))
  {
    hide Mul;
    hide BigInteger.Value;
    hide Reducer.Rep;
    hide Power;
    hide Pow2;
    hide Above;
    ghost var n, p := NatOf(e.digits, e.t), 28 * j0 + i0;
    var w, used := NextWindow(e, j0, i0, k);
    Pow2Below(used, k);
    ghost var next := Above(n, p - used);
    TakeBits(n, p, used, w);
    j, i := j0, i0 - used;
    if i < 0 {
      i, j := i + 28, j - 1;
    }
    assert 28 * j + i == p - used;
    r, r2 := x, y;
    if is1 {
      FirstBitsTaken(Pow2(used), w, next);
      CopyRep(z, g[w], r, Power(b, next));
    } else {
      r, r2 := SquareAndMultiply(z, r, r2, g[w], used, b, Above(n, p), w, next);
    }
    r, r2, j, i := SkipZeros(z, e, r, r2, j, i, b);
  }

  lemma FirstBitsTaken(d: int, w: int, next: int)
    requires next == Mul(0, d) + w
    ensures next == w
  {
  }

  method NextWindow(e: BigInteger, j: int, i: int, k: nat) returns (w: int, used: nat)
    requires AtBit(e, j, i) && j >= 0 && 1 <= k <= 6
    requires Above(NatOf(e.digits, e.t), 28 * j + i - 1) % 2 == 1
    ensures 1 <= used <= k && used <= 28 * j + i + 1 && w % 2 == 1 && 0 <= w < Pow2(used)
    ensures w == Above(NatOf(e.digits, e.t), 28 * j + i - used) % Pow2(used)
  {
    w := Window(e, j, i, k);
    w, used := StripZeros(w, k, NatOf(e.digits, e.t), 28 * j + i);
  }

  method CopyRep(z: Reducer, x: BigInteger, r: BigInteger, ghost v: int)
    requires z.Valid() && z.Rep(x, v) && r != x && r != z.m
    modifies r
    ensures z.Rep(r, v)
  {
    hide Mul;
    hide BigInteger.Value;
    x.CopyTo(r);
  }

  lemma TopBit(x: JsArray, t: nat, i: nat)
    requires t > 0 && HasDigits(x, 0, t) && x[t - 1] != 0
    requires HasBits(x[t - 1], i + 1)
    ensures i < 28
    ensures Above(NatOf(x, t), 28 * (t - 1) + i - 1) % 2 == 1
    ensures Above(NatOf(x, t), 28 * (t - 1) + i) == 0
  {
    assert Pow2(1) == 2 && Pow2(i + 1) == 2 * Pow2(i);
    DigitBase();
    if i >= 28 {
      Pow2Below(28, i);
      assert false;
    }
    hide Pow2;
    var n, d, p := NatOf(x, t), x[t - 1], 28 * (t - 1) + i;
    DigitWindow(x, t - 1, t, i);
    DivModUnique(d, Pow2(i), 1, d - Pow2(i));
    DivPow2(n, p, 1);
  }

  // ----- the exponentiation itself ------------------------------------------------------------------

  // the number of bits of a number that is not negative, and of the complement of one that is
  method BitLength(a: BigInteger) returns (r: int)
    requires a.Valid() && a.Clamped()
    ensures r >= 0 && (r == 0 <==> a.t == 0)
    ensures r > 0 ==> Pow2(r - 1) <= (if a.s == 0 then a.Value() else -a.Value() - 1) < Pow2(r)
  {
    hide Pow2;
    hide BigInteger.Value;
    if a.t <= 0 { return 0; }
    var top := if a.s == 0 then a.digits[a.t - 1] else DM - a.digits[a.t - 1];
    var n := Nbits(top);
    r := DB * (a.t - 1) + n;
    if a.s == 0 {
      TotalBits(a.digits, a.t, n, a.Value());
    } else {
      ComplementBits(a.digits, a.t, n, a.Value());
    }
  }

  lemma ComplementBits(x: JsArray, t: nat, n: nat, v: int)
    requires t > 0 && StandsFor(x, t, -1, v) && x[t - 1] != DM && HasBits(DM - x[t - 1], n)
    ensures Pow2(28 * (t - 1) + n - 1) <= -v - 1 < Pow2(28 * (t - 1) + n)
  {
    hide Pow2;
    hide Mul;
    hide W;
    var d, w := x[t - 1], W(t - 1);
    SegNext(x, 0, t - 1);
    SegBound(x, 0, t - 1);
    SignTimes(W(t));
    WIsPow2(t - 1);
    Pow2Add(28 * (t - 1), n);
    Pow2Add(28 * (t - 1), n - 1);
    TopDigitRange(DM - d, w, Pow2(n - 1), Pow2(n));
    ComplementTop(d, w);
  }

  lemma ComplementTop(d: int, w: int)
    ensures Mul(DM - d, w) == DV * w - w - Mul(d, w)
  {
    MulDistrib(DM, d, w);
  }

  lemma TotalBits(x: JsArray, t: nat, n: nat, v: int)
    requires t > 0 && StandsFor(x, t, 0, v) && x[t - 1] != 0 && HasBits(x[t - 1], n)
    ensures Pow2(28 * (t - 1) + n - 1) <= v < Pow2(28 * (t - 1) + n)
  {
    hide Pow2;
    hide Mul;
    hide W;
    var d, w := x[t - 1], W(t - 1);
    SegNext(x, 0, t - 1);
    SegBound(x, 0, t - 1);
    SignTimes(W(t));
    WIsPow2(t - 1);
    Pow2Add(28 * (t - 1), n);
    Pow2Add(28 * (t - 1), n - 1);
    TopDigitRange(d, w, Pow2(n - 1), Pow2(n));
  }

  lemma TopDigitRange(d: int, w: int, lo: int, hi: int)
    requires lo <= d < hi && w >= 1
    ensures w * lo <= Mul(d, w) <= w * hi - w
  {
    MulMonotone(lo, d, w);
    MulMonotone(d, hi - 1, w);
    MulDistrib(hi, 1, w);
  }

  method NewMontgomery(m: BigInteger) returns (z: Reducer)
    requires m.Valid() && m.Clamped() && m.s == 0 && m.Value() > 0 && m.Value() % 2 == 1
    ensures z.Valid() && z.m == m && z.Montgomery?
  {
    hide BigInteger.Value;
    Parity(m.digits, m.t, m.s, m.Value());
    var mp := m.InvDigit();
    z := Montgomery(m, mp, Low(mp, P15), Shr(mp, P15), P13 - 1, 2 * m.t);
  }

  // this^e mod m; an exponent of 0 gives 1 whatever the modulus
  method ModPow(base: BigInteger, e: BigInteger, m: BigInteger) returns (r: BigInteger)
    requires base.Valid() && base.Clamped()
    requires e.Valid() && e.Clamped() && e.s == 0
    requires m.Valid() && m.Clamped() && m.s == 0 && m.Value() > 0
    ensures fresh(r) && r.Valid()
    ensures e.Value() == 0 ==> r.Value() == 1
    ensures e.Value() > 0 ==> r.Value() == Power(base.Value(), e.Value()) % m.Value()
  {
    hide Mul;
    hide Pow2;
    hide Power;
    hide BigInteger.Value;
    ExponentIs(e.digits, e.t, e.Value());
    var i := BitLength(e);
    var k;
    r := new BigInteger.One();
    if i <= 0 { return; }
    else if i < 18 { k := 1; }
    else if i < 48 { k := 3; }
    else if i < 144 { k := 4; }
    else if i < 768 { k := 5; }
    else { k := 6; }
    var z;
    var even := m.IsEven();
    if i < 8 {
      z := Classic(m);
    } else if even {
      z := Barrett(m);
    } else {
      z := NewMontgomery(m);
    }
    r := PowerLoop(z, base, e, k, r);
  }

  lemma ExponentIs(x: JsArray, t: nat, v: int)
    requires StandsFor(x, t, 0, v) && (t > 0 ==> x[t - 1] != 0)
    ensures v == NatOf(x, t) && (t == 0 <==> v == 0)
  {
    SegBound(x, 0, t);
    if t > 0 {
      SegNext(x, 0, t - 1);
      SegBound(x, 0, t - 1);
      DigitTimes(x[t - 1], W(t - 1));
    }
  }
}
