/** Big integers from text and from bytes. The digits are built from the low end up: the bits of each
    character or byte go into what is free of the highest digit, and the rest of them starts a new
    digit. */
module Parsing {
  import opened Arithmetic
  import opened JsNumber
  import opened Digits
  import opened DigitLoops
  import opened BigIntegers
  import opened Reduction
  import opened Reducers
  import opened ModularPower
  import opened Numerals

  /** The t digits hold the number v of n bits. */
  ghost predicate Bits(d: JsArray, t: int, n: nat, v: int) {
    t >= 0 && HasDigits(d, 0, t) && Seg(d, 0, t) == v && 0 <= v < Pow2(n) && 28 * (t - 1) < n <= 28 * t
  }

  /** The weight of bit n, as the place of a digit and a place within it. */
  lemma BitWeight(t: nat, sh: nat)
    ensures Mul(Pow2(sh), W(t)) == Pow2(28 * t + sh)
  {
    hide Pow2, W;
    WIsPow2(t);
    Pow2Add(28 * t, sh);
  }

  /** In the highest digit only the bits below sh are taken. */
  lemma TopBelow(d: JsArray, t: int, n: nat, v: int)
    requires Bits(d, t, n, v) && n % 28 > 0
    ensures t > 0 && n == 28 * (t - 1) + n % 28 && d[t - 1] < Pow2(n % 28)
  {
    hide Pow2, W, Mul;
    assert t > 0;
    SegNext(d, 0, t - 1);
    SegBound(d, 0, t - 1);
    BitWeight(t - 1, n % 28);
    Below(d[t - 1], Pow2(n % 28), W(t - 1), Seg(d, 0, t - 1));
  }

  lemma Below(x: int, p: int, w: int, rest: int)
    requires rest >= 0 && Mul(x, w) + rest < Mul(p, w) && w >= 1
    ensures x < p
  {
    if x >= p {
      MulMonotone(p, x, w);
    }
  }

  lemma MoreBits(v: int, x: int, n: nat, k: nat)
    requires 0 <= v < Pow2(n) && 0 <= x < Pow2(k)
    ensures 0 <= v + Mul(x, Pow2(n)) < Pow2(n + k)
  {
    hide Pow2;
    Pow2Add(k, n);
    MulMonotone(x, Pow2(k) - 1, Pow2(n));
    MulMonotone(0, x, Pow2(n));
    MulDistrib(Pow2(k), 1, Pow2(n));
  }

  /** x goes into a digit of its own. */
  lemma NewDigit(d: JsArray, t: int, n: nat, v: int, x: int, k: nat)
    requires Bits(d, t, n, v) && n % 28 == 0 && 0 <= x < Pow2(k) && 1 <= k <= 8
    ensures Bits(d[t := x], t + 1, n + k, v + Mul(x, Pow2(n)))
  {
    hide Mul, W, Pow2;
    MoreBits(v, x, n, k);
    SmallPower(k);
    SegNext(d[t := x], 0, t);
    SegElsewhere(d, 0, t, t, x);
    WIsPow2(t);
  }

  lemma SmallPower(k: nat)
    requires k <= 8
    ensures Pow2(k) <= 256
  {
    Byte();
    Pow2Below(k, 8);
  }

  /** x goes into the free bits of the highest digit. */
  lemma InTop(d: JsArray, t: int, n: nat, v: int, x: int, k: nat)
    requires Bits(d, t, n, v) && n % 28 > 0 && n % 28 + k <= 28 && 0 <= x < Pow2(k) && k >= 1
    ensures 0 <= Mul(x, Pow2(n % 28)) < DV
    ensures t > 0 && 0 <= d[t - 1] < Pow2(n % 28) && 0 <= d[t - 1] + Mul(x, Pow2(n % 28)) < DV
    ensures Bits(d[t - 1 := d[t - 1] + Mul(x, Pow2(n % 28))], t, n + k, v + Mul(x, Pow2(n)))
  {
    hide Mul, W, Pow2;
    var sh := n % 28;
    TopBelow(d, t, n, v);
    MoreBits(v, x, n, k);
    MoreBits(d[t - 1], x, sh, k);
    MoreBits(0, x, sh, k);
    NoBits(sh);
    Pow2Below(sh + k, 28);
    DigitBase();
    SegUpdate(d, 0, t, t - 1, d[t - 1] + Mul(x, Pow2(sh)));
    BitWeight(t - 1, sh);
    MulThrice(x, Pow2(sh), W(t - 1));
  }

  lemma NoBits(n: nat)
    ensures 0 < Pow2(n)
  {
  }

  lemma MulThrice(x: int, p: int, w: int)
    ensures Mul(Mul(x, p), w) == Mul(x, Mul(p, w))
  {
    MulAssoc(x, p, w);
  }

  /** x is cut in two: its low bits fill the highest digit up, the others start a new one. */
  lemma CutInTwo(d: JsArray, t: int, n: nat, v: int, x: int, k: nat)
    requires Bits(d, t, n, v) && 0 < n % 28 && n % 28 + k > 28 && 0 <= x < Pow2(k) && 1 <= k <= 8
    ensures t > 0 && 0 <= d[t - 1] < Pow2(n % 28) && 0 <= Mul(x % Pow2(28 - n % 28), Pow2(n % 28)) < DV
    ensures d[t - 1] + Mul(x % Pow2(28 - n % 28), Pow2(n % 28)) < DV
    ensures Bits(d[t - 1 := d[t - 1] + Mul(x % Pow2(28 - n % 28), Pow2(n % 28))][t := x / Pow2(28 - n % 28)], t + 1,
      n + k, v + Mul(x, Pow2(n)))
  {
    hide Mul, W, Pow2, Bits;
    var sh := n % 28;
    var free := 28 - sh;
    var low, high := x % Pow2(free), x / Pow2(free);
    CutParts(x, free, k);
    InTopAll(d, t, n, v, low);
    NewDigit(d[t - 1 := d[t - 1] + Mul(low, Pow2(sh))], t, n + free, v + Mul(low, Pow2(n)), high, k - free);
    Recombined(x, free, n);
  }

  lemma CutParts(x: int, free: nat, k: nat)
    requires 0 <= x < Pow2(k) && free < k
    ensures 0 <= x % Pow2(free) < Pow2(free) && 0 <= x / Pow2(free) < Pow2(k - free)
  {
    hide Pow2;
    DivModOf(x, Pow2(free));
    Pow2Add(free, k - free);
    QuotientRange(x, Pow2(free), Pow2(k - free));
  }

  lemma InTopAll(d: JsArray, t: int, n: nat, v: int, low: int)
    requires Bits(d, t, n, v) && 0 < n % 28 && 0 <= low < Pow2(28 - n % 28)
    ensures 0 <= Mul(low, Pow2(n % 28)) < DV && t > 0 && t - 1 in d
    ensures 0 <= d[t - 1] < Pow2(n % 28) && 0 <= d[t - 1] + Mul(low, Pow2(n % 28)) < DV
    ensures Bits(d[t - 1 := d[t - 1] + Mul(low, Pow2(n % 28))], t, n + (28 - n % 28), v + Mul(low, Pow2(n)))
  {
    hide Mul, W, Pow2;
    InTop(d, t, n, v, low, 28 - n % 28);
  }

  lemma Recombined(x: int, free: nat, n: nat)
    ensures Mul(x % Pow2(free), Pow2(n)) + Mul(x / Pow2(free), Pow2(n + free)) == Mul(x, Pow2(n))
  {
    hide Pow2;
    var low, high := x % Pow2(free), x / Pow2(free);
    DivModOf(x, Pow2(free));
    Pow2Add(free, n);
    MulAssoc(high, Pow2(free), Pow2(n));
    MulDistrib(high * Pow2(free), low, Pow2(n));
  }

  /** Shifting x to bit sh, where the bits below are taken. */
  lemma Shifted(x: int, sh: nat, top: int)
    requires 0 <= Mul(x, Pow2(sh)) < DV && 0 <= top < Pow2(sh) && Mul(x, Pow2(sh)) + top < DV && sh <= 28
    ensures Mul(x, Pow2(sh)) % Pow2(sh) == 0 && Int32(x * Pow2(sh)) && 0 < Pow2(sh) <= DV
  {
    hide Pow2;
    ModAddMultiple(0, x, Pow2(sh));
    DivModUnique(0, Pow2(sh), 0, 0);
    Pow2Below(sh, 28);
    DigitBase();
  }

  /** One digit of k bits more, above those that are already there. */
  method PushDigit(x: BigInteger, digit: int, k: nat, sh: int, ghost n: nat, ghost v: int) returns (sh': int)
    requires Bits(x.digits, x.t, n, v) && sh == n % 28 && 1 <= k <= 8 && 0 <= digit < Pow2(k)
    modifies x`digits, x`t
    ensures Bits(x.digits, x.t, n + k, v + Mul(digit, Pow2(n))) && sh' == (n + k) % 28
  {
    hide Pow2, W, Mul, Bits;
    BitsDigits(x.digits, x.t, n, v);
    if sh == 0 {
      NewDigit(x.digits, x.t, n, v, digit, k);
      x.digits := x.digits[x.t := digit];
      x.t := x.t + 1;
    } else if sh + k > DB {
      PushInTwo(x, digit, k, sh, n, v);
    } else {
      PushInTop(x, digit, k, sh, n, v);
    }
    NextShift(n, k);
    sh' := sh + k;
    if sh' >= DB {
      sh' := sh' - DB;
    }
  }

  method PushInTwo(x: BigInteger, digit: int, k: nat, sh: int, ghost n: nat, ghost v: int)
    requires Bits(x.digits, x.t, n, v) && sh == n % 28 > 0 && sh + k > DB && 1 <= k <= 8 && 0 <= digit < Pow2(k)
    modifies x`digits, x`t
    ensures Bits(x.digits, x.t, n + k, v + Mul(digit, Pow2(n)))
  {
    hide Pow2, W, Mul, Bits;
    SmallPower(k);
    BitsDigits(x.digits, x.t, n, v);
    CutInTwo(x.digits, x.t, n, v, digit, k);
    FreeBits(sh);
    var top := TopOr(Low(digit, Pow2(DB - sh)), sh, x.digits[x.t - 1]);
    x.digits := x.digits[x.t - 1 := top];
    x.digits := x.digits[x.t := Shr(digit, Pow2(DB - sh))];
    x.t := x.t + 1;
  }

  method PushInTop(x: BigInteger, digit: int, k: nat, sh: int, ghost n: nat, ghost v: int)
    requires Bits(x.digits, x.t, n, v) && sh == n % 28 > 0 && sh + k <= DB && 1 <= k <= 8 && 0 <= digit < Pow2(k)
    modifies x`digits, x`t
    ensures Bits(x.digits, x.t, n + k, v + Mul(digit, Pow2(n)))
  {
    hide Pow2, W, Mul, Bits;
    BitsDigits(x.digits, x.t, n, v);
    InTop(x.digits, x.t, n, v, digit, k);
    var top := TopOr(digit, sh, x.digits[x.t - 1]);
    x.digits := x.digits[x.t - 1 := top];
  }

  /** top | (x << sh) */
  method TopOr(x: int, sh: nat, top: int) returns (r: int)
    requires 0 <= Mul(x, Pow2(sh)) < DV && 0 <= top < Pow2(sh) && Mul(x, Pow2(sh)) + top < DV && sh <= 28
    ensures r == top + Mul(x, Pow2(sh))
  {
    hide Pow2;
    Shifted(x, sh, top);
    r := Or(Shl(x, Pow2(sh)), top, Pow2(sh));
  }

  lemma NextShift(n: nat, k: nat)
    requires k <= 28
    ensures (n + k) % 28 == if n % 28 + k >= 28 then n % 28 + k - 28 else n % 28 + k
  {
  }

  lemma BitsDigits(d: JsArray, t: int, n: nat, v: int)
    requires Bits(d, t, n, v)
    ensures t >= 0 && HasDigits(d, 0, t) && (n % 28 > 0 ==> t > 0)
  {
  }

  lemma FreeBits(sh: nat)
    requires 0 < sh < 28
    ensures 0 < Pow2(28 - sh) <= DV
  {
    Pow2Below(28 - sh, 28);
    DigitBase();
  }

  lemma NothingRead(d: JsArray, k: nat)
    ensures Bits(d, 0, k * 0, 0)
  {
    assert k * 0 == 0;
  }

  lemma DigitRead(s: string, i: nat, k: nat)
    requires i < |s| && IntAt(s[i]) >= 0
    ensures k * Count(s[i..]) == k * Count(s[i + 1..]) + k && !Negative(s[i..])
    ensures Magnitude(s[i..], k) == Mul(IntAt(s[i]), Pow2(k * Count(s[i + 1..]))) + Magnitude(s[i + 1..], k)
  {
    assert s[i..][1..] == s[i + 1..];
  }

  lemma OtherRead(s: string, i: nat, k: nat)
    requires i < |s| && IntAt(s[i]) < 0
    ensures Count(s[i..]) == Count(s[i + 1..]) && Magnitude(s[i..], k) == Magnitude(s[i + 1..], k)
    ensures Negative(s[i..]) == (s[i] == '-' || Negative(s[i + 1..]))
  {
    assert s[i..][1..] == s[i + 1..];
  }

  lemma BitsValue(x: BigInteger, n: nat, v: int)
    requires Bits(x.digits, x.t, n, v) && x.s == 0
    ensures x.Valid() && x.Value() == v
  {
    SignTimes(W(x.t));
  }

  /** bnpFromString for the radix 2^k: characters that are no digits are skipped, and a minus sign counts if no digit
      is before it. */
  method FromText(x: BigInteger, s: string, k: nat)
    requires 1 <= k <= 5 && forall i :: 0 <= i < |s| ==> IntAt(s[i]) < Pow2(k)
    modifies x
    ensures x.Valid() && x.Clamped() && x.Value() == Parsed(s, k)
  {
    hide Pow2, W, Mul, Bits, Magnitude, Count, Negative, BigInteger.Value, BigInteger.Clamped;
    x.t, x.s := 0, 0;
    var i, mi, sh := |s|, false, 0;
    NothingRead(x.digits, k);
    assert s[i..] == "";
    NoText(k);
    while i > 0
      invariant 0 <= i <= |s| && x.s == 0 && mi == Negative(s[i..]) && sh == k * Count(s[i..]) % 28
      invariant Bits(x.digits, x.t, k * Count(s[i..]), Magnitude(s[i..], k))
    {
      i := i - 1;
      var digit := IntAt(s[i]);
      if digit < 0 {
        OtherRead(s, i, k);
        if s[i] == '-' {
          mi := true;
        }
        continue;
      }
      mi := false;
      DigitRead(s, i, k);
      sh := PushDigit(x, digit, k, sh, k * Count(s[i + 1..]), Magnitude(s[i + 1..], k));
    }
    assert s[0..] == s;
    BitsValue(x, k * Count(s), Magnitude(s, k));
    x.Clamp();
    if mi {
      var zero := new BigInteger.Nbi();
      zero.SubTo(x, x);
    }
  }

  lemma NoText(k: nat)
    ensures Count("") == 0 && Magnitude("", k) == 0 && !Negative("") && k * Count("") == 0 && k * 0 == 0
  {
  }

  // ----- bytes -----------------------------------------------------------------------------------------------------

  lemma ByteRead(s: seq<int>, i: nat)
    requires i < |s|
    ensures Unsigned(s[i..]) == Mul(s[i] % 256, Pow2(8 * (|s| - i - 1))) + Unsigned(s[i + 1..])
    ensures 8 * (|s| - i) == 8 * (|s| - i - 1) + 8
  {
    assert s[i..][1..] == s[i + 1..];
  }

  /** Negative numbers: filling the highest digit up with ones takes the weight of the next bit off. */
  lemma FilledUp(d: JsArray, t: int, n: nat, v: int)
    requires Bits(d, t, n, v) && n % 28 > 0
    ensures t > 0 && t - 1 in d && 0 <= d[t - 1] < Pow2(n % 28) && 0 <= Mul(Pow2(28 - n % 28) - 1, Pow2(n % 28)) < DV
    ensures 0 <= d[t - 1] + Mul(Pow2(28 - n % 28) - 1, Pow2(n % 28)) < DV
    ensures StandsFor(d[t - 1 := d[t - 1] + Mul(Pow2(28 - n % 28) - 1, Pow2(n % 28))], t, -1, v - Pow2(n))
    ensures HasDigits(d[t - 1 := d[t - 1] + Mul(Pow2(28 - n % 28) - 1, Pow2(n % 28))], 0, t)
  {
    hide Mul, W, Pow2;
    var free := 28 - n % 28;
    NoBits(free);
    InTopAll(d, t, n, v, Pow2(free) - 1);
    WIsPow2(t);
    assert n + free == 28 * t;
    AllOnes(free, n);
    SignTimes(W(t));
  }

  lemma AllOnes(free: nat, n: nat)
    ensures Mul(Pow2(free) - 1, Pow2(n)) == Pow2(n + free) - Pow2(n)
  {
    hide Pow2;
    Pow2Add(free, n);
    MulDistrib(Pow2(free), 1, Pow2(n));
  }

  /** When the highest digit is full, the sign word alone does that. */
  lemma NothingToFill(d: JsArray, t: int, n: nat, v: int)
    requires Bits(d, t, n, v) && n % 28 == 0
    ensures StandsFor(d, t, -1, v - Pow2(n)) && HasDigits(d, 0, t)
  {
    hide Mul, W, Pow2;
    assert n == 28 * t;
    WIsPow2(t);
    SignTimes(W(t));
  }

  lemma StandsValue(x: BigInteger, v: int)
    requires x.t >= 0 && HasDigits(x.digits, 0, x.t) && StandsFor(x.digits, x.t, x.s, v) && x.s in {0, -1}
    ensures x.Valid() && x.Value() == v
  {
  }

  /** bnpFromString for the radix 256. */
  method FromBytes(x: BigInteger, s: seq<int>)
    requires forall i :: 0 <= i < |s| ==> Exact(s[i])
    modifies x
    ensures x.Valid() && x.Clamped() && x.Value() == TwosComplement(s)
  {
    hide Pow2, W, Mul, Bits, Unsigned, StandsFor, BigInteger.Value, BigInteger.Clamped;
    x.t, x.s := 0, 0;
    var i, sh := |s|, 0;
    NothingRead(x.digits, 8);
    assert s[i..] == [];
    NoBytes();
    while i > 0
      invariant 0 <= i <= |s| && x.s == 0 && sh == 8 * (|s| - i) % 28
      invariant Bits(x.digits, x.t, 8 * (|s| - i), Unsigned(s[i..]))
    {
      i := i - 1;
      ByteRead(s, i);
      Byte();
      sh := PushDigit(x, Low(s[i], 0x100), 8, sh, 8 * (|s| - i - 1), Unsigned(s[i + 1..]));
    }
    assert s[0..] == s;
    BitsValue(x, 8 * |s|, Unsigned(s));
    // the highest bit of the first byte
    if |s| > 0 && Low(s[0], 0x100) >= 0x80 {
      FillSign(x, sh, 8 * |s|, Unsigned(s));
    }
    x.Clamp();
  }

  method FillSign(x: BigInteger, sh: int, ghost n: nat, ghost v: int)
    requires Bits(x.digits, x.t, n, v) && sh == n % 28
    modifies x
    ensures x.Valid() && x.Value() == v - Pow2(n)
  {
    hide Pow2, W, Mul, Bits, StandsFor, BigInteger.Value;
    BitsDigits(x.digits, x.t, n, v);
    x.s := -1;
    if sh > 0 {
      FilledUp(x.digits, x.t, n, v);
      FreeBits(sh);
      var top := TopOr(Shl(1, Pow2(DB - sh)) - 1, sh, x.digits[x.t - 1]);
      x.digits := x.digits[x.t - 1 := top];
    } else {
      NothingToFill(x.digits, x.t, n, v);
    }
    StandsValue(x, v - Pow2(n));
  }

  lemma NoBytes()
    ensures Unsigned([]) == 0 && 8 * 0 == 0
  {
  }
}
