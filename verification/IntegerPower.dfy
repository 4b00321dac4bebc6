/** Powers with an exponent that is a number (benchmarks/crypto.js). */
module IntegerPower {
  import opened Arithmetic
  import opened JsNumber
  import opened BigIntegers
  import opened ExponentBits
  import opened Reducers
  import opened ModularPower

  const MAX_EXPONENT := 0xffff_ffff

  /** e & (1 << i): taking that bit doubles the part of e that is above it, and adds one if the bit is set. */
  method TestBit(e: nat, i: nat) returns (one: bool)
    requires i <= 30 && e <= MAX_EXPONENT
    ensures Above(e, i - 1) == 2 * Above(e, i) + if one then 1 else 0
  {
    hide Pow2;
    BitInRange(i);
    SmallPowers();
    OneBit();
    one := HasBit(e, Pow2(i));
    TakeBits(e, i, 1, Above(e, i - 1) % 2);
  }

  lemma OneBit()
    ensures Pow2(1) == 2 && Pow2(0) == 1
  {
  }

  /** Above its highest bit a number has a single one. */
  lemma HighestBit(e: nat, r: nat)
    requires e > 0 && HasBits(e, r)
    ensures Above(e, r - 2) == 1
  {
    hide Pow2;
    NextPower(r);
    DivModUnique(e, Pow2(r - 1), 1, e - Pow2(r - 1));
  }

  /** One round: r2 = r^2, and r2 * g when the bit is set. */
  method ExpRound(z: Reducer, g: BigInteger, x: BigInteger, y: BigInteger, one: bool, ghost b: int, ghost a: nat)
    returns (r: BigInteger, r2: BigInteger)
    requires z.Valid() && z.Rep(x, Power(b, a)) && z.Rep(g, b)
    requires x != y && g != x && g != y && z.m != x && z.m != y
    modifies x, y
    ensures ((r == x && r2 == y) || (r == y && r2 == x)) && z.Rep(r, Power(b, 2 * a + if one then 1 else 0))
  {
    hide Mul, BigInteger.Value, Reducer.Rep, Power;
    r, r2 := x, y;
    z.SqrTo(r, r2, Power(b, a));
    PowerDouble(b, a);
    if one {
      PowerOne(b);
      z.MulTo(r2, g, r, Power(b, 2 * a), Power(b, 1));
      PowerSum(b, 2 * a, 1);
    } else {
      r, r2 := r2, r;
    }
  }

  /** The rounds for the bits below bit i. */
  method ExpLoop(z: Reducer, g: BigInteger, x: BigInteger, y: BigInteger, e: nat, i0: nat, ghost b: int)
    returns (r: BigInteger)
    requires z.Valid() && z.Rep(x, Power(b, Above(e, i0 - 1))) && z.Rep(g, b) && i0 <= 31 && e <= MAX_EXPONENT
    requires x != y && g != x && g != y && z.m != x && z.m != y
    modifies x, y
    ensures r in {x, y} && z.Rep(r, Power(b, e))
  {
    hide Mul, Pow2, Power, Above, BigInteger.Value, Reducer.Rep;
    r := x;
    var r2: BigInteger, i: int := y, i0;
    while i > 0
      invariant 0 <= i <= 31 && ((r == x && r2 == y) || (r == y && r2 == x))
      invariant z.Valid() && z.Rep(r, Power(b, Above(e, i - 1))) && z.Rep(g, b)
      decreases i
    {
      i := i - 1;
      var one := TestBit(e, i);
      r, r2 := ExpRound(z, g, r, r2, one, b, Above(e, i));
    }
    AllBitsTaken(e);
  }

  /** bnpExp: the base to the power e, in the reducer's sense; 1 for an exponent out of range. */
  method Exp(base: BigInteger, e: int, z: Reducer) returns (r: BigInteger)
    requires z.Valid() && base.Valid() && base.Clamped() && Exact(e)
    ensures r.Valid() && r.Value() == if 1 <= e <= MAX_EXPONENT then Power(base.Value(), e) % z.m.Value() else 1
  {
    hide Mul, Pow2, Power, BigInteger.Value, Reducer.Rep;
    if e > MAX_EXPONENT || e < 1 {
      r := new BigInteger.One();
      return;
    }
    ghost var b := base.Value();
    r := new BigInteger.Nbi();
    var r2 := new BigInteger.Nbi();
    var g := z.Convert(base);
    var i := Nbits(e);
    HighestBit(e, i);
    CopyRep(z, g, r, b);
    PowerOne(b);
    r := ExpLoop(z, g, r, r2, e, i - 1, b);
    r := z.Revert(r, Power(b, e));
  }

  lemma BitInRange(i: nat)
    requires i <= 30
    ensures 0 < Pow2(i) <= 0x4000_0000
  {
    hide Pow2;
    Pow2Below(i, 30);
    SmallPowers();
    Pow2Add(16, 8);
    Pow2Add(24, 4);
    Pow2Add(28, 2);
  }

  /** bnModPowInt: by Montgomery reduction, unless the exponent is small or the modulus even. */
  method ModPowInt(base: BigInteger, e: int, m: BigInteger) returns (r: BigInteger)
    requires base.Valid() && base.Clamped() && m.Valid() && m.Clamped() && m.s == 0 && m.Value() > 0 && Exact(e)
    ensures r.Valid() && r.Value() == if 1 <= e <= MAX_EXPONENT then Power(base.Value(), e) % m.Value() else 1
  {
    hide Mul, Pow2, Power, BigInteger.Value;
    var z;
    var even := m.IsEven();
    if e < 256 || even {
      z := Classic(m);
    } else {
      z := NewMontgomery(m);
    }
    r := Exp(base, e, z);
  }
}
