/** The modular reducers of the exponentiation loop. */
module Reducers {
  import opened Arithmetic
  import opened JsNumber
  import opened Digits
  import opened DigitLoops
  import opened Reduction
  import opened BigIntegers

  datatype Reducer =
    | Classic(m: BigInteger)
    | Barrett(m: BigInteger)
    | Montgomery(m: BigInteger, mp: int, mpl: int, mph: int, um: int, mt2: int)
  {
    ghost predicate Valid()
      reads m
    {
      && m.Valid() && m.Clamped() && m.s == 0 && m.Value() > 0
      && (Montgomery? ==>
            && m.t > 0 && mt2 == 2 * m.t
            && 0 <= mp < DV && mpl == mp % P15 && mph == mp / P15 && um == P13 - 1
            && m.digits[0] % 2 == 1 && Congruent(m.digits[0] * mp + 1, 0, DV))
    }

    /** What a residue is multiplied by while the reducer works on it. */
    ghost function Scale(): (r: int)
      reads m
      requires m.t >= 0
      ensures r >= 1
    {
      if Montgomery? then W(m.t) else 1
    }

    /** x is the reduced representative that the reducer keeps of the number v. */
    ghost predicate Rep(x: BigInteger, v: int)
      reads m, x
      requires Valid()
    {
      x.Valid() && x.Clamped() && 0 <= x.Value() < m.Value() && Congruent(x.Value(), Mul(v, Scale()), m.Value())
    }

    // the representative of x
    method Convert(x: BigInteger) returns (r: BigInteger)
      requires Valid() && x.Valid() && x.Clamped()
      ensures r == x || fresh(r)
      ensures Rep(r, x.Value())
    {
      hide Mul;
      hide BigInteger.Value;
      if Montgomery? {
        r := MontConvert(x);
      } else {
        SignOfValue(x.digits, x.t, x.s, x.Value());
        TimesOne(x.Value());
        if x.s < 0 {
          r := Mod(x);
        } else {
          var c := x.CompareTo(m);
          if c >= 0 {
            r := Mod(x);
          } else {
            r := x;
          }
        }
      }
    }

    // x mod m, in [0, m) also for a negative x
    method Mod(x: BigInteger) returns (r: BigInteger)
      requires Valid() && x.Valid()
      ensures fresh(r) && r.Valid() && r.Clamped() && 0 <= r.Value() < m.Value()
      ensures Congruent(r.Value(), x.Value(), m.Value())
    {
      hide Mul;
      hide W;
      hide Seg;
      hide BigInteger.Value;
      SignOfValue(x.digits, x.t, x.s, x.Value());
      var a := x.Abs();
      r := new BigInteger.Nbi();
      a.CopyTo(r);
      r.RemTo(m);
      SignOfValue(r.digits, r.t, r.s, r.Value());
      NegatedResidue(a.Value(), r.Value(), m.Value());
      if x.s < 0 {
        Reflect(r);
      }
    }

    // a residue becomes that of the opposite number
    method Reflect(r: BigInteger)
      requires Valid() && r.Valid() && r.Clamped() && r.s == 0 && 0 <= r.Value() < m.Value() && r != m
      modifies r
      ensures r.Valid() && r.Clamped()
      ensures r.Value() == if old(r.Value()) > 0 then m.Value() - old(r.Value()) else 0
    {
      hide Mul;
      hide BigInteger.Value;
      var zero := new BigInteger.Nbi();
      var c := r.CompareTo(zero);
      if c > 0 {
        m.SubTo(r, r);
      }
    }

    // xR mod m
    method MontConvert(x: BigInteger) returns (r: BigInteger)
      requires Valid() && Montgomery? && x.Valid()
      ensures fresh(r) && Rep(r, x.Value())
    {
      hide Mul;
      hide W;
      hide Seg;
      hide BigInteger.Value;
      SignOfValue(x.digits, x.t, x.s, x.Value());
      var a := x.Abs();
      r := new BigInteger.Nbi();
      a.DlShiftTo(m.t, r);
      r.RemTo(m);
      SignOfValue(r.digits, r.t, r.s, r.Value());
      NegatedResidue(Mul(a.Value(), W(m.t)), r.Value(), m.Value());
      NegateProduct(x.Value(), W(m.t));
      if x.s < 0 {
        Reflect(r);
      }
    }

    // the number that x represents, reduced modulo m
    method Revert(x: BigInteger, ghost v: int) returns (r: BigInteger)
      requires Valid() && Rep(x, v) && x != m
      ensures r == x || fresh(r)
      ensures r.Valid() && r.Value() == v % m.Value()
    {
      hide Mul;
      hide BigInteger.Value;
      hide W;
      if Montgomery? {
        r := new BigInteger.Nbi();
        x.CopyTo(r);
        NotLess(m.Value(), W(m.t));
        MontReduce(r);
        OddModulus(m.digits, m.t, m.Value());
        CancelScale(r.Value(), v, x.Value(), m.t, m.Value());
        ResidueIs(r.Value(), v, m.Value());
      } else {
        TimesOne(v);
        ResidueIs(x.Value(), v, m.Value());
        r := x;
      }
    }

    // r = x * y
    method MulTo(x: BigInteger, y: BigInteger, r: BigInteger, ghost v: int, ghost u: int)
      requires Valid() && Rep(x, v) && Rep(y, u) && r != x && r != y && r != m
      modifies r
      ensures Rep(r, Mul(v, u))
    {
      hide Mul;
      hide BigInteger.Value;
      ghost var a, b := x.Value(), y.Value();
      x.MultiplyTo(y, r);
      ProductRange(a, b, m.Value());
      Reduce(r, v, u, a, b);
    }

    // r = x * x
    method SqrTo(x: BigInteger, r: BigInteger, ghost v: int)
      requires Valid() && Rep(x, v) && r != x && r != m
      modifies r
      ensures Rep(r, Mul(v, v))
    {
      hide Mul;
      hide BigInteger.Value;
      ghost var a := x.Value();
      x.SquareTo(r);
      ProductRange(a, a, m.Value());
      Reduce(r, v, v, a, a);
    }

    // the representative of v*u, from the product of representatives
    method Reduce(x: BigInteger, ghost v: int, ghost u: int, ghost a: int, ghost b: int)
      requires Valid() && x.Valid() && x != m && x.Value() == a * b
      requires 0 <= a * b < m.Value() * m.Value()
      requires Congruent(a, Mul(v, Scale()), m.Value()) && Congruent(b, Mul(u, Scale()), m.Value())
      modifies x
      ensures Rep(x, Mul(v, u))
    {
      hide Mul;
      hide BigInteger.Value;
      hide W;
      SignOfValue(x.digits, x.t, x.s, x.Value());
      if Montgomery? {
        SignOfValue(m.digits, m.t, m.s, m.Value());
        BelowScaled(m.Value(), W(m.t));
        MontReduce(x);
        OddModulus(m.digits, m.t, m.Value());
        CancelProduct(x.Value(), v, u, a, b, m.t, m.Value());
      } else {
        x.RemTo(m);
        PlainProduct(x.Value(), v, u, a, b, m.Value());
      }
    }

    // x = x/R mod m, where R = 2^(28*m.t)
    method MontReduce(x: BigInteger)
      requires Valid() && Montgomery? && x.Valid() && x != m
      requires 0 <= x.Value() < Mul(m.Value(), W(m.t))
      modifies x
      ensures x.Valid() && x.Clamped() && 0 <= x.Value() < m.Value()
      ensures Congruent(x.Value() * W(m.t), old(x.Value()), m.Value())
    {
      hide Mul;
      hide Seg;
      hide BigInteger.Value;
      ghost var v0, mv := x.Value(), m.Value();
      SignOfValue(x.digits, x.t, x.s, v0);
      SignOfValue(m.digits, m.t, m.s, mv);
      x.Pad(mt2);
      var i := 0;
      ghost var k := 0;
      ReducingStart(x.digits, x.t, v0, mv);
      while i < m.t
        invariant 0 <= i <= m.t
        invariant 0 <= k < W(i) && Reducing(x.digits, x.t, i, v0 + Mul(k, mv))
        modifies x`digits
      {
        k := ReduceRound(x, i, v0, k);
        i := i + 1;
      }
      LowZeros(x.digits, x.t, i, v0 + Mul(k, mv));
      ReducingEnd(x.digits, x.t, i, v0 + Mul(k, mv));
      x.ValueIs(v0 + Mul(k, mv));
      Quotient(v0, mv, W(i), k, (v0 + Mul(k, mv)) / W(i));
      x.Clamp();
      x.DrShiftTo(m.t, x);
      SignOfValue(x.digits, x.t, x.s, x.Value());
      var c := x.CompareTo(m);
      if c >= 0 {
        x.SubTo(m, x);
      }
    }

    // one round: make digit i vanish and carry
    method ReduceRound(x: BigInteger, i: nat, ghost v0: int, ghost k: int) returns (ghost k': int)
      requires Valid() && Montgomery? && x != m && i < m.t && x.t > mt2
      requires 0 <= v0 < Mul(m.Value(), W(m.t))
      requires 0 <= k < W(i) && Reducing(x.digits, x.t, i, v0 + Mul(k, m.Value()))
      modifies x`digits
      ensures 0 <= k' < W(i + 1) && Reducing(x.digits, x.t, i + 1, v0 + Mul(k', m.Value()))
    {
      hide Mul;
      hide Seg;
      hide W;
      hide BigInteger.Value;
      hide Accumulated;
      ghost var mv, n, v := m.Value(), x.t, v0 + Mul(k, m.Value());
      SignOfValue(m.digits, m.t, m.s, mv);
      ReducingDigits(x.digits, n, i, v);
      var u0 := Multiplier(x.digits[i]);
      MultiplierClears(x.digits[i], mp, m.digits[0], u0);
      k' := k + Mul(u0, W(i));
      RoundCount(k, u0, i, mv);
      RoundBound(v0, mv, m.t, k', i + 1, n);
      var j := i + m.t;
      ghost var d0 := x.digits;
      var old_j := x.digits[j];
      var c := m.Am3(0, u0, x, i, 0, m.t);
      ModulusIs(m.digits, m.t, mv);
      RoundAdds(m.digits, m.t, d0, x.digits, n, i, v, u0, c);
      x.digits := x.digits[j := old_j + c];
      PropagateCarry(x, n, i, j, v0 + Mul(k', mv));
    }

    // x_i * mp mod 2^28 without a product of more than 31 bits
    method Multiplier(d: int) returns (u0: int)
      requires Montgomery? && 0 <= d < DV
      requires 0 <= mp < DV && mpl == mp % P15 && mph == mp / P15 && um == P13 - 1
      ensures u0 == (d * mp) % DV
    {
      SplitMultiplier(d, mp);
      var j := Low(d, P15);
      u0 := Low(j * mpl + Shl(Low(j * mph + Shr(d, P15) * mpl, um + 1), P15), DV);
    }

    static method PropagateCarry(x: BigInteger, ghost n: nat, ghost i: nat, j0: nat, ghost v: int)
      requires Carrying(x.digits, n, i, j0, v) && v < W(n)
      modifies x`digits
      ensures Reducing(x.digits, n, i + 1, v)
    {
      hide Seg;
      hide W;
      var j := j0;
      while x.digits[j] >= DV
        invariant Carrying(x.digits, n, i, j, v)
        decreases n - j
      {
        CarryInside(x.digits, n, i, j, v);
        CarryUp(x.digits, n, i, j, v);
        x.digits := x.digits[j := x.digits[j] - DV];
        j := j + 1;
        x.digits := x.digits[j := x.digits[j] + 1];
      }
      CarryDone(x.digits, n, i, j, v);
    }
  }

  lemma ReducingStart(x: JsArray, n: nat, v: int, m: int)
    requires StandsFor(x, n, 0, v)
    ensures Reducing(x, n, 0, v + Mul(0, m))
  {
  }

  lemma ReducingEnd(x: JsArray, n: nat, i: nat, v: int)
    requires Reducing(x, n, i, v)
    ensures StandsFor(x, n, 0, v)
  {
  }

  lemma ReducingDigits(x: JsArray, n: nat, i: nat, v: int)
    requires Reducing(x, n, i, v)
    ensures HasDigits(x, 0, n)
  {
  }

  lemma ModulusIs(m: JsArray, mt: nat, mv: int)
    requires StandsFor(m, mt, 0, mv)
    ensures Seg(m, 0, mt) == mv
  {
  }

  // ----- residues ------------------------------------------------------------------------------

  lemma TimesOne(v: int)
    ensures Mul(v, 1) == v
  {
  }

  lemma NotLess(m: int, w: int)
    requires m > 0 && w >= 1
    ensures m <= Mul(m, w)
  {
    MulMonotone(1, w, m);
  }

  lemma BelowScaled(m: int, w: int)
    requires 0 < m < w
    ensures m * m < Mul(m, w)
  {
    MulMonotone(m, w - 1, m);
    MulDistrib(w, 1, m);
  }

  lemma ProductRange(a: int, b: int, m: int)
    requires 0 <= a < m && 0 <= b < m
    ensures 0 <= a * b < m * m
  {
    MulMonotone(a, m - 1, b);
    MulMonotone(b, m - 1, m - 1);
    MulDistrib(m, 1, m - 1);
    MulDistrib(m, 1, m);
  }

  /** r is the residue of a, so m - r (or 0) is that of -a. */
  lemma NegatedResidue(a: int, r: int, m: int)
    requires m > 0 && r == a % m
    ensures 0 <= r < m && Congruent(r, a, m)
    ensures r > 0 ==> 0 <= m - r < m && Congruent(m - r, -a, m)
    ensures r == 0 ==> Congruent(0, -a, m)
  {
    DivModOf(a, m);
    ModTwice(a, m);
    var q := a / m;
    assert m - r == -a + m * (q + 1);
    CongruentByMultiple(m - r, -a, q + 1, m);
    if r == 0 {
      CongruentByMultiple(0, -a, q, m);
    }
  }

  lemma NegateProduct(v: int, w: int)
    ensures Mul(-v, w) == -Mul(v, w)
  {
  }

  lemma ResidueIs(r: int, v: int, m: int)
    requires 0 <= r < m && Congruent(r, v, m)
    ensures r == v % m
  {
    DivModUnique(r, m, 0, r);
  }

  lemma OddModulus(m: JsArray, mt: nat, mv: int)
    requires StandsFor(m, mt, 0, mv) && mt > 0 && m[0] % 2 == 1
    ensures mv % 2 == 1
  {
    Parity(m, mt, 0, mv);
  }

  lemma PlainProduct(x: int, v: int, u: int, a: int, b: int, m: int)
    requires m > 0 && x == (a * b) % m
    requires Congruent(a, Mul(v, 1), m) && Congruent(b, Mul(u, 1), m)
    ensures 0 <= x < m && Congruent(x, Mul(Mul(v, u), 1), m)
  {
    DivModOf(a * b, m);
    ModTwice(a * b, m);
    CongruentMul(a, v, b, u, m);
  }

  // ----- powers of two can be cancelled modulo an odd number -----------------------------------

  lemma CancelTwo(a: int, b: int, m: int)
    requires m > 0 && m % 2 == 1 && Congruent(2 * a, 2 * b, m)
    ensures Congruent(a, b, m)
  {
    var k := CongruentWitness(2 * a, 2 * b, m);
    var h := m / 2;
    assert m == 2 * h + 1;
    MulDistrib(2 * h, 1, k);
    MulAssoc(2, h, k);
    assert m * k == 2 * (h * k) + k;
    var k' := a - b - h * k;
    assert k == 2 * k';
    MulAssoc(m, 2, k');
    assert a == b + m * k';
    CongruentByMultiple(a, b, k', m);
  }

  lemma {:induction false} CancelPow2(a: int, b: int, n: nat, m: int)
    requires m > 0 && m % 2 == 1 && Congruent(a * Pow2(n), b * Pow2(n), m)
    ensures Congruent(a, b, m)
  {
    if n > 0 {
      var p := Pow2(n - 1);
      MulAssoc(a, 2, p);
      MulAssoc(b, 2, p);
      assert a * Pow2(n) == 2 * (a * p) && b * Pow2(n) == 2 * (b * p);
      CancelTwo(a * p, b * p, m);
      CancelPow2(a, b, n - 1, m);
    }
  }

  lemma {:induction false} WIsPow2(n: nat)
    ensures W(n) == Pow2(28 * n)
  {
    if n > 0 {
      WIsPow2(n - 1);
      Pow2Add(28, 28 * (n - 1));
      DigitBase();
    }
  }

  lemma DigitBase()
    ensures Pow2(28) == DV
  {
    assert Pow2(14) == 0x4000;
    Pow2Add(14, 14);
  }

  lemma CancelW(a: int, b: int, n: nat, m: int)
    requires m > 0 && m % 2 == 1 && Congruent(a * W(n), b * W(n), m)
    ensures Congruent(a, b, m)
  {
    WIsPow2(n);
    CancelPow2(a, b, 28 * n, m);
  }

  lemma CancelScale(r: int, v: int, x: int, n: nat, m: int)
    requires m > 0 && m % 2 == 1
    requires Congruent(r * W(n), x, m) && Congruent(x, Mul(v, W(n)), m)
    ensures Congruent(r, v, m)
  {
    CancelW(r, v, n, m);
  }

  lemma CancelProduct(x: int, v: int, u: int, a: int, b: int, n: nat, m: int)
    requires m > 0 && m % 2 == 1
    requires Congruent(x * W(n), a * b, m)
    requires Congruent(a, Mul(v, W(n)), m) && Congruent(b, Mul(u, W(n)), m)
    ensures Congruent(x, Mul(Mul(v, u), W(n)), m)
  {
    var w := W(n);
    CongruentMul(a, v * w, b, u * w, m);
    calc {
      (v * w) * (u * w);
      { MulAssoc(v, w, u * w); MulAssoc(w, u, w); MulAssoc(u, w, w); }
      v * (u * w * w);
      { MulAssoc(v, u * w, w); MulAssoc(v, u, w); }
      (v * u) * w * w;
    }
    CancelW(x, (v * u) * w, n, m);
  }
}
