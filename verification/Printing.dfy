/** Big integers as text and as bytes, from the high end down. */
module Printing {
  import opened Arithmetic
  import opened JsNumber
  import opened Digits
  import opened DigitLoops
  import opened BigIntegers
  import opened Reducers
  import opened ExponentBits
  import opened ModularPower
  import opened Numerals
  import Parsing

  /** Bit p of digit i is the next one to be taken from the top: the bits from there on up are done. */
  ghost predicate AtDigit(x: BigInteger, i: int, p: int)
    reads x
  {
    x.Valid() && -1 <= i < x.t && 1 <= p <= 28 && (i == -1 ==> p == 28)
  }

  /** What the bits that are done make up. */
  ghost function Done(x: BigInteger, i: int, p: int): (u: nat)
    requires AtDigit(x, i, p)
    reads x
  {
    Above(NatOf(x.digits, x.t), 28 * i + p - 1)
  }

  /** The next k bits, which may lie in one digit or in two. */
  method TakeDigit(x: BigInteger, i: int, p: int, k: nat) returns (d: int, i': int, p': int)
    requires AtDigit(x, i, p) && i >= 0 && 1 <= k <= 8 && (28 * i + p) % k == 0
    ensures AtDigit(x, i', p') && 28 * i' + p' == 28 * i + p - k && (28 * i' + p') % k == 0
    ensures 0 <= d < Pow2(k) && Done(x, i', p') == Mul(Done(x, i, p), Pow2(k)) + d
  {
    hide Pow2, Above, Mul;
    MultipleLeft(28 * i + p, k);
    Pow2Below(k, 8);
    Byte();
    i', p' := i, p;
    if p < k {
      d := Straddle(x, i, p, k);
      i' := i' - 1;
      p' := p' + (DB - k);
    } else {
      d := Inside(x, i, p, k);
      p' := p' - k;
      if p' <= 0 {
        p' := p' + DB;
        i' := i' - 1;
      }
    }
    TakeBits(NatOf(x.digits, x.t), 28 * i + p - 1, k, d);
  }

  lemma MultipleLeft(n: int, k: int)
    requires n > 0 && k > 0 && n % k == 0
    ensures n >= k && (n - k) % k == 0
  {
    DivModOf(n, k);
    if n / k <= 0 {
      MulMonotone(n / k, 0, k);
    }
    MulMonotone(1, n / k, k);
    ModAddMultiple(n - k, 1, k);
  }

  /** The k bits below bit p of digit i, when the digit has them all. */
  method Inside(x: BigInteger, i: int, p: int, k: nat) returns (d: int)
    requires AtDigit(x, i, p) && i >= 0 && 1 <= k <= 8 && k <= p
    ensures d == Above(NatOf(x.digits, x.t), 28 * i + p - 1 - k) % Pow2(k) && 0 <= d < Pow2(k)
  {
    hide Pow2, Above;
    Pow2Below(k, 8);
    Byte();
    Pow2Below(p - k, 28);
    DigitBase();
    WindowInside(x.digits, i, x.t, p - 1, k);
    d := Low(Shr(x.digits[i], Pow2(p - k)), Pow2(k));
  }

  /** The same when the digit below has the rest of them. */
  method Straddle(x: BigInteger, i: int, p: int, k: nat) returns (d: int)
    requires AtDigit(x, i, p) && i > 0 && 1 <= k <= 8 && p < k
    ensures d == Above(NatOf(x.digits, x.t), 28 * i + p - 1 - k) % Pow2(k) && 0 <= d < Pow2(k)
  {
    hide Pow2, Above;
    Pow2Below(k, 8);
    Byte();
    var r := k - p;
    Pow2Below(r, 8);
    Pow2Below(p, 28);
    Pow2Below(28 - r, 28);
    DigitBase();
    ShiftedLow(x.digits[i], p, r);
    WindowStraddles(x.digits, i, x.t, p - 1, k);
    TopBits(x.digits[i - 1], r);
    d := Shl(Low(x.digits[i], Pow2(p)), Pow2(r));
    d := Or(d, Shr(x.digits[i - 1], Pow2(28 - r)), Pow2(r));
    DivModOf(Above(NatOf(x.digits, x.t), 28 * i + p - 1 - k), Pow2(k));
  }

  /** Where the first digit of k bits ends: its bits are what a multiple of k leaves over. */
  lemma FirstPosition(t: nat, k: nat)
    requires t > 0 && 1 <= k <= 8
    ensures var p := DB - t * DB % k; 1 <= p <= 28 && 28 - p < k && (28 * (t - 1) + p) % k == 0
  {
    DivModOf(t * DB, k);
    MulAssoc(k, t * DB / k, 1);
    ModAddMultiple(0, t * DB / k, k);
    DivModUnique(0, k, 0, 0);
  }

  /** The bits above the first position are those of the highest digit. */
  lemma FirstDone(x: BigInteger, p: int)
    requires x.Valid() && x.t > 0 && 1 <= p <= 28
    ensures AtDigit(x, x.t - 1, p) && Done(x, x.t - 1, p) == if p == 28 then 0 else x.digits[x.t - 1] / Pow2(p)
    ensures 0 <= Done(x, x.t - 1, p) < Pow2(28 - p)
  {
    hide Pow2, W, Mul, Seg;
    var n := NatOf(x.digits, x.t);
    if p == 28 {
      WIsPow2(x.t);
      SegBound(x.digits, 0, x.t);
      DivModUnique(n, W(x.t), 0, n);
      NothingAbove();
    } else {
      DigitWindow(x.digits, x.t - 1, x.t, p);
      NoDigitsAbove(x.digits, x.t);
      TopBits(x.digits[x.t - 1], 28 - p);
    }
  }

  lemma NothingAbove()
    ensures Pow2(28 - 28) == 1
  {
  }

  lemma NoDigitsAbove(d: JsArray, t: nat)
    requires HasDigits(d, t, t)
    ensures NatOf'(d, t, 0) == 0 && forall p :: p * 0 == 0
  {
  }

  lemma AllDone(x: BigInteger)
    requires x.Valid()
    ensures AtDigit(x, -1, 28) && Done(x, -1, 28) == NatOf(x.digits, x.t)
  {
    AllBitsTaken(NatOf(x.digits, x.t));
  }

  // ----- text ------------------------------------------------------------------------------------------------------

  /** The text that stands for what is done, which is empty as long as that is zero. */
  function Leading(u: int, b: int): (r: string)
    requires u >= 0 && 2 <= b <= 36
  {
    if u == 0 then "" else Text(Numeral(u, b))
  }

  lemma LeadingMore(u: int, d: int, b: int)
    requires u >= 0 && 0 <= d < b && 2 <= b <= 36
    ensures Mul(u, b) + d >= 0 && (Mul(u, b) + d == 0 <==> u == 0 && d == 0)
    ensures Leading(Mul(u, b) + d, b) == Leading(u, b) + if u == 0 && d == 0 then "" else [IntToChar(d)]
  {
    NumeralMore(u, d, b);
    if u > 0 {
      MulMonotone(1, u, b);
    }
  }

  lemma LeadingOne(d: int, b: int)
    requires 0 <= d < b && 2 <= b <= 36
    ensures Leading(d, b) == if d == 0 then "" else [IntToChar(d)]
  {
    assert Numeral(d, b) == [d];
  }

  /** bnToString for the radix 2^k, of a number that is not negative. */
  method PrintMagnitude(x: BigInteger, k: nat) returns (r: string)
    requires x.Valid() && x.s == 0 && 1 <= k <= 5
    ensures 2 <= Pow2(k) <= 32 && x.Value() >= 0 && r == Text(Numeral(x.Value(), Pow2(k)))
  {
    hide Pow2, Mul, Above, W, Numeral, Text, Leading, BigInteger.Value, NatOf, Done;
    SmallRadix(k);
    NatValue(x);
    var i := x.t;
    var p := DB - i * DB % k;
    var m := false;
    r := "";
    if i > 0 {
      FirstPosition(x.t, k);
      FirstDone(x, p);
      Pow2Below(28 - p, k);
      Pow2Below(p, 28);
      DigitBase();
      LeadingOne(Done(x, i - 1, p), Pow2(k));
      i := i - 1;
      if p < DB {
        var d := Shr(x.digits[i], Pow2(p));
        if d > 0 {
          m := true;
          r := [IntToChar(d)];
        }
      }
      while i >= 0
        invariant AtDigit(x, i, p) && (28 * i + p) % k == 0
        invariant m <==> Done(x, i, p) > 0
        invariant r == Leading(Done(x, i, p), Pow2(k))
        decreases 28 * i + p
      {
        ghost var u := Done(x, i, p);
        var d;
        d, i, p := TakeDigit(x, i, p, k);
        LeadingMore(u, d, Pow2(k));
        if d > 0 {
          m := true;
        }
        if m {
          r := r + [IntToChar(d)];
        }
      }
      AllDone(x);
    } else {
      NatOfNone(x);
    }
    LeadingIs(NatOf(x.digits, x.t), Pow2(k));
    if !m {
      r := "0";
    }
  }

  lemma LeadingIs(v: int, b: int)
    requires v >= 0 && 2 <= b <= 36
    ensures Text(Numeral(v, b)) == if v == 0 then "0" else Leading(v, b)
  {
    assert v == 0 ==> Text(Numeral(v, b)) == [IntToChar(0)];
  }

  lemma NatValue(x: BigInteger)
    requires x.Valid()
    ensures x.Value() == NatOf(x.digits, x.t) + Mul(x.s, W(x.t)) && (x.s == 0 ==> x.Value() == NatOf(x.digits, x.t))
  {
    SignTimes(W(x.t));
  }

  lemma NatOfNone(x: BigInteger)
    requires x.Valid() && x.t == 0
    ensures NatOf(x.digits, x.t) == 0
  {
  }

  /** bnToString for the radix 2^k: the usual numeral, with a minus sign in front of that of a negative number. */
  method ToText(x: BigInteger, k: nat) returns (r: string)
    requires x.Valid() && 1 <= k <= 5
    ensures 2 <= Pow2(k) <= 32 && r == Printed(x.Value(), Pow2(k))
  {
    hide Pow2, Mul, W, Numeral, Text, BigInteger.Value, StandsFor;
    SmallRadix(k);
    SignOfValue(x.digits, x.t, x.s, x.Value());
    if x.s < 0 {
      var y := x.Negate();
      SignOfValue(y.digits, y.t, y.s, y.Value());
      r := PrintMagnitude(y, k);
      r := "-" + r;
    } else {
      r := PrintMagnitude(x, k);
    }
  }

  // ----- bytes -----------------------------------------------------------------------------------------------------

  /** What the bits that are done make up, the sign word standing for those above. */
  ghost function SignedDone(x: BigInteger, i: int, p: int): (u: int)
    requires AtDigit(x, i, p) && 28 * i + p <= 28 * x.t
    reads x
  {
    Done(x, i, p) + Mul(x.s, Pow2(28 * x.t - 28 * i - p))
  }

  lemma SignedMore(x: BigInteger, i: int, p: int, i': int, p': int, d: int)
    requires AtDigit(x, i, p) && AtDigit(x, i', p') && 28 * i' + p' == 28 * i + p - 8 && 28 * i + p <= 28 * x.t
    requires Done(x, i', p') == Mul(Done(x, i, p), Pow2(8)) + d
    ensures SignedDone(x, i', p') == 256 * SignedDone(x, i, p) + d
  {
    hide Pow2, Above, NatOf, Done;
    Byte();
    var n := 28 * x.t - 28 * i - p;
    Pow2Add(n, 8);
    SignUp(Done(x, i, p), x.s, Pow2(n));
  }

  lemma SignUp(u: int, s: int, w: int)
    ensures Mul(u, 256) + Mul(s, w * 256) == 256 * (u + Mul(s, w))
  {
    MulAssoc(s, w, 256);
  }

  /** All bits are done: this is the number. */
  lemma SignedAll(x: BigInteger)
    requires x.Valid()
    ensures AtDigit(x, -1, 28) && SignedDone(x, -1, 28) == x.Value()
  {
    hide Pow2, Above, W, Mul;
    AllDone(x);
    NatValue(x);
    WIsPow2(x.t);
  }

  /** The bits above the first position are the sign, or they make up a first byte. */
  lemma SignedFirst(x: BigInteger, p: int)
    requires x.Valid() && x.t > 0 && 21 <= p <= 28
    ensures AtDigit(x, x.t - 1, p) && Done(x, x.t - 1, p) < Pow2(28 - p) <= 128
    ensures var u := SignedDone(x, x.t - 1, p); u == Done(x, x.t - 1, p) + Mul(x.s, Pow2(28 - p)) && -128 <= u < 128
    ensures p == 28 ==> SignedDone(x, x.t - 1, p) == x.s
  {
    hide Pow2, Above, NatOf, Done;
    FirstDone(x, p);
    Pow2Below(28 - p, 7);
    SevenBits();
    NothingAbove();
    SignTimes(Pow2(28 - p));
  }

  lemma SignedWhole(x: BigInteger, p: int)
    requires x.Valid() && x.t > 0 && p == 28
    ensures AtDigit(x, x.t - 1, p) && Done(x, x.t - 1, p) == 0 && Mul(-x.s, Pow2(28 - p)) + x.s == 0
  {
    hide Pow2, Above, NatOf, Done;
    FirstDone(x, p);
    NothingAbove();
  }

  lemma SevenBits()
    ensures Pow2(7) == 128
  {
    Byte();
    assert Pow2(8) == 2 * Pow2(7);
  }

  /** The sign word's bits below bit 28 - p: none or all ones. */
  lemma SignBits(s: int, p: nat)
    requires s in {0, -1} && p <= 28
    ensures (if s == 0 then 0 else DM) / Pow2(p) == Mul(-s, Pow2(28 - p)) + s
  {
    hide Pow2;
    DigitBase();
    Pow2Add(p, 28 - p);
    var a, b := Pow2(p), Pow2(28 - p);
    if s == 0 {
      DivModUnique(0, a, 0, 0);
    } else {
      MulDistrib(b, 1, a);
      DivModUnique(DM, a, b - 1, a - 1);
    }
  }

  /** An element of a JavaScript array that may be the one behind the last. */
  function SetAt(r: seq<int>, k: nat, v: int): (r': seq<int>)
    requires k <= |r|
  {
    if k < |r| then r[k := v] else r + [v]
  }

  /** The bytes so far: only the sign as long as all bits repeat it. */
  ghost predicate BytesSoFar(r: seq<int>, k: nat, s: int, u: int) {
    r == BytesOf(u) && (if k == 0 then u == s else k == |r| && u != 0 && u != -1)
  }

  lemma FirstBytes(d: int, s: int, w: int, u: int)
    requires s in {0, -1} && 0 <= d < w <= 128 && u == d + Mul(s, w)
    ensures if d == Mul(-s, w) + s then BytesSoFar([s], 0, s, u) else BytesSoFar([u], 1, s, u)
  {
    SignTimes(w);
  }

  /** bnToByteArray's first, incomplete byte. */
  method FirstByte(x: BigInteger, p: int) returns (r: seq<int>, k: nat)
    requires x.Valid() && x.t > 0 && 21 <= p <= 28
    ensures AtDigit(x, x.t - 1, p) && BytesSoFar(r, k, x.s, SignedDone(x, x.t - 1, p))
  {
    hide Pow2, Above, NatOf, Mul, Done, SignedDone, BytesSoFar;
    SignedFirst(x, p);
    FirstDone(x, p);
    SignBits(x.s, p);
    FirstBytes(Done(x, x.t - 1, p), x.s, Pow2(28 - p), SignedDone(x, x.t - 1, p));
    if p == DB {
      SignedWhole(x, p);
    }
    Pow2Below(p, 28);
    DigitBase();
    r, k := [x.s], 0;
    if p < DB {
      var d := Shr(x.digits[x.t - 1], Pow2(p));
      if d != Shr(if x.s == 0 then 0 else DM, Pow2(p)) {
        SignShifted(x.s, Pow2(28 - p));
        var first := Or(Shl(x.s, Pow2(DB - p)), d, Pow2(DB - p));
        r := SetAt(r, k, first);
        assert r == [first];
        k := k + 1;
      }
    }
  }

  lemma SignShifted(s: int, w: int)
    requires s in {0, -1} && 0 < w <= 128
    ensures (s * w) % w == 0 && Int32(s * w) && s * w == Mul(s, w)
  {
    ModAddMultiple(0, s, w);
    DivModUnique(0, w, 0, 0);
  }

  /** One byte of bnToByteArray. */
  method NextByte(r: seq<int>, k: nat, s: int, d: int, ghost u: int) returns (r': seq<int>, k': nat)
    requires BytesSoFar(r, k, s, u) && 0 <= d < 256 && s in {0, -1}
    ensures BytesSoFar(r', k', s, 256 * u + d)
  {
    BytesMore(u, d);
    r', k' := r, k;
    // the byte's highest bit is set
    var e := if d >= 0x80 then d - 0x100 else d;
    if k' == 0 && (s < 0) != (e < 0) {
      k' := k' + 1;
    }
    if k' > 0 || e != s {
      r' := SetAt(r', k', e);
      k' := k' + 1;
    }
  }

  /** bnToByteArray: the shortest two's complement representation. */
  method ToByteArray(x: BigInteger) returns (r: seq<int>)
    requires x.Valid()
    ensures r == BytesOf(x.Value())
  {
    hide Pow2, Mul, Above, W, BytesOf, BigInteger.Value, NatOf, Done, SignedDone;
    var i := x.t;
    r := [x.s];
    var k := 0;
    var p := DB - i * DB % 8;
    if i > 0 {
      FirstPosition(x.t, 8);
      i := i - 1;
      r, k := FirstByte(x, p);
      while i >= 0
        invariant AtDigit(x, i, p) && (28 * i + p) % 8 == 0 && 28 * i + p <= 28 * x.t
        invariant BytesSoFar(r, k, x.s, SignedDone(x, i, p))
        decreases 28 * i + p
      {
        ghost var i0, p0 := i, p;
        var d;
        d, i, p := TakeDigit(x, i, p, 8);
        Byte();
        SignedMore(x, i0, p0, i, p, d);
        r, k := NextByte(r, k, x.s, d, SignedDone(x, i0, p0));
      }
      SignedAll(x);
    } else {
      NoDigitsValue(x);
    }
  }

  lemma NoDigitsValue(x: BigInteger)
    requires x.Valid() && x.t == 0
    ensures BytesOf(x.Value()) == [x.s]
  {
    SignTimes(1);
  }
}
