/** The big-integer class: an array of 28-bit digits, a digit count t, and a sign word s that is 0 or
    -1 and stands for all the digits from t on. Its methods write their results into a number that may
    be one of the operands where the program allows it. */
module BigIntegers {
  import opened Arithmetic
  import opened JsNumber
  import opened Digits
  import opened DigitLoops
  import DigitInverse
  import opened Reduction

  /** The body of the multiplier's loop: one digit of this, one of w, and the carry in
      give the digit to store and the carry out, which are those of the exact sum. */
  method AmWord(ghost x: int, xl: int, xh: int, a: int, w: int, c: int)
    returns (digit: int, carry: int)
    requires 0 <= x < 2 * DV && 0 <= a < DV && 0 <= w < DV && 0 <= c < 3 * DV
    requires xl == x % P14 && xh == x / P14
    ensures 0 <= digit < DV && 0 <= carry < 3 * DV && (c <= x ==> carry <= x)
    ensures x * a + w + c == digit + DV * carry
  {
    AmPieces(x, a);
    var l := Low(a, P14);
    var h := Shr(a, P14);
    var m := xh * l + h * xl;
    AmCarry(x * a, xh * h, m, xl * l, w, c);
    l := xl * l + Shl(Low(m, P14), P14) + w + c;
    carry := Shr(l, DV) + Shr(m, P14) + xh * h;
    digit := Low(l, DV);
    AmCarryBound(x, a, w, c, digit, carry);
  }

  class BigInteger {
    var digits: JsArray
    var t: int
    var s: int

    ghost predicate Valid()
      reads this
    {
      t >= 0 && (s == 0 || s == -1) && HasDigits(digits, 0, t)
    }

    /** The integer the object stands for. */
    ghost function Value(): int
      reads this
      requires Valid()
      ensures StandsFor(digits, t, s, Value())
    {
      Seg(digits, 0, t) + Mul(s, W(t))
    }

    /** No top digit repeats the sign word. */
    ghost predicate Clamped()
      reads this
      requires Valid()
    {
      t > 0 ==> digits[t - 1] != (if s == 0 then 0 else DM)
    }

    constructor Nbi()
      ensures Valid() && Value() == 0 && Clamped() && digits == map[]
    {
      digits := map[];
      t := 0;
      s := 0;
    }

    constructor One()
      ensures Valid() && Value() == 1 && Clamped() && s == 0 && t == 1
    {
      digits := map[0 := 1];
      t := 1;
      s := 0;
      new;
      OneDigit(digits, 0);
    }

    // w_j += x * this_i over n digits, with carry c in and the final carry out
    method Am3(i0: nat, x: int, w: BigInteger, j0: nat, c0: int, n0: nat) returns (c: int)
      requires 0 <= x < 2 * DV && 0 <= c0 < 3 * DV
      requires HasDigits(digits, i0, i0 + n0) && HasDigits(w.digits, j0, j0 + n0)
      requires w == this ==> i0 == j0
      modifies w`digits
      ensures Accumulated(old(w.digits), w.digits, j0, n0, Mul(x, Seg(old(digits), i0, n0)) + c0, c)
      ensures 0 <= c < 3 * DV
      ensures c0 <= x ==> c <= x
    {
      var i, j, n := i0, j0, n0;
      c := c0;
      var xl, xh := Low(x, P14), Shr(x, P14);
      ghost var a, w0 := digits, w.digits;
      while n > 0
        invariant 0 <= n <= n0 && i == i0 + n0 - n && j == j0 + n0 - n
        invariant forall k :: i <= k < i0 + n0 ==> k in digits && digits[k] == a[k]
        invariant SameOutside(w0, w.digits, j0, j)
        invariant AmSoFar(a, i0, x, w0, w.digits, j0, n0 - n, c0, c)
      {
        n := n - 1;
        ghost var before, cIn := w.digits, c;
        var digit;
        digit, c := AmWord(x, xl, xh, digits[i], w.digits[j], c);
        i := i + 1;
        w.digits := w.digits[j := digit];
        j := j + 1;
        AmExtend(a, i0, x, w0, before, j0, n0 - n - 1, c0, cIn, digit, c);
      }
    }

    // drop top digits that repeat the sign word
    method Clamp()
      requires Valid()
      modifies this`t
      ensures Valid() && Clamped() && Value() == old(Value()) && t <= old(t)
    {
      var c := if s == 0 then 0 else DM;
      while t > 0 && digits[t - 1] == c
        invariant Valid() && Value() == old(Value()) && t <= old(t)
        decreases t
      {
        ghost var w := W(t - 1);
        assert DM * w == DV * w - w;
        t := t - 1;
      }
    }

    // r = this
    method CopyTo(r: BigInteger)
      requires Valid()
      modifies r
      ensures r.Valid() && r.Value() == old(Value()) && r.t == old(t) && r.s == old(s)
      ensures old(Clamped()) ==> r.Clamped()
      ensures forall k :: 0 <= k < old(t) ==> r.digits[k] == old(digits)[k]
    {
      ghost var d := digits;
      hide W;
      hide Seg;
      var i := t - 1;
      while i >= 0
        invariant -1 <= i < t
        invariant t == old(t) && s == old(s)
        invariant forall k :: 0 <= k <= i ==> k in digits && digits[k] == d[k]
        invariant forall k :: i < k < t ==> k in r.digits && r.digits[k] == d[k]
      {
        r.digits := r.digits[i := digits[i]];
        i := i - 1;
      }
      SegSame(d, r.digits, 0, 0, t);
      r.t := t;
      r.s := s;
    }

    // the last carry c into digit i becomes the sign word and, if needed, one more digit
    method Finish(i: nat, c: int, ghost v: int)
      requires Running(digits, i, c, v) && -2 <= c <= 1
      modifies this
      ensures Valid() && Clamped() && Value() == v
    {
      RunFinish(digits, i, c, v);
      s := if c < 0 then -1 else 0;
      t := i;
      if c < -1 {
        digits := digits[i := DV + c];
        t := i + 1;
      } else if c > 0 {
        digits := digits[i := c];
        t := i + 1;
      }
      Clamp();
    }

    // adds the digits from i0 on to the running carry and stores the results in r
    method AddDigits(r: BigInteger, i0: nat, c0: int, ghost x: JsArray, ghost rest: int) returns (i: nat, c: int)
      requires i0 <= t && HasDigits(x, 0, t) && Tail(digits, x, i0, t)
      requires -1 <= c0 <= 1 && Running(r.digits, i0, c0, rest + Seg(x, 0, i0))
      modifies r`digits
      ensures i == t && -1 <= c <= 1 && Running(r.digits, i, c, rest + Seg(x, 0, i))
    {
      hide Running;
      hide Seg;
      i, c := i0, c0;
      while i < t
        invariant i <= t && -1 <= c <= 1
        invariant Tail(digits, x, i, t)
        invariant Running(r.digits, i, c, rest + Seg(x, 0, i))
      {
        StepY(r.digits, i, c, rest, x, false);
        c := c + digits[i];
        r.digits := r.digits[i := Low(c, DV)];
        i := i + 1;
        c := Shr(c, DV);
      }
    }

    // subtracts the digits from i0 on from the running carry and stores the results in r
    method SubDigits(r: BigInteger, i0: nat, c0: int, ghost x: JsArray, ghost rest: int) returns (i: nat, c: int)
      requires i0 <= t && HasDigits(x, 0, t) && Tail(digits, x, i0, t)
      requires -2 <= c0 <= 0 && Running(r.digits, i0, c0, rest - Seg(x, 0, i0))
      modifies r`digits
      ensures i == t && -2 <= c <= 0 && Running(r.digits, i, c, rest - Seg(x, 0, i))
    {
      hide Running;
      hide Seg;
      i, c := i0, c0;
      while i < t
        invariant i <= t && -2 <= c <= 0
        invariant Tail(digits, x, i, t)
        invariant Running(r.digits, i, c, rest - Seg(x, 0, i))
      {
        StepY(r.digits, i, c, rest, x, true);
        c := c - digits[i];
        r.digits := r.digits[i := Low(c, DV)];
        i := i + 1;
        c := Shr(c, DV);
      }
    }

    // r = this - a on the digits both have
    method SubCommon(a: BigInteger, r: BigInteger) returns (i: nat, c: int)
      requires Valid() && a.Valid()
      modifies r`digits
      ensures i == Min(t, a.t) && -1 <= c <= 0
      ensures Tail(digits, old(digits), i, t) && Tail(a.digits, old(a.digits), i, a.t)
      ensures Running(r.digits, i, c, Seg(old(digits), 0, i) - Seg(old(a.digits), 0, i))
    {
      ghost var x, y := digits, a.digits;
      assert Running(r.digits, 0, 0, Seg(x, 0, 0) - Seg(y, 0, 0));
      hide Running;
      hide Seg;
      i, c := 0, 0;
      var m := Min(a.t, t);
      while i < m
        invariant i <= m && -1 <= c <= 0
        invariant Tail(digits, x, i, t) && Tail(a.digits, y, i, a.t)
        invariant Running(r.digits, i, c, Seg(x, 0, i) - Seg(y, 0, i))
      {
        StepBoth(r.digits, i, c, x, y, true);
        c := c + (digits[i] - a.digits[i]);
        r.digits := r.digits[i := Low(c, DV)];
        i := i + 1;
        c := Shr(c, DV);
      }
    }

    // r = this - a; r may be this or a
    method SubTo(a: BigInteger, r: BigInteger)
      requires Valid() && a.Valid()
      modifies r
      ensures r.Valid() && r.Clamped() && r.Value() == old(Value()) - old(a.Value())
    {
      ghost var x, y, v, u := digits, a.digits, Value(), a.Value();
      assert StandsFor(x, t, s, v) && StandsFor(y, a.t, a.s, u);
      hide Running;
      hide Seg;
      hide W;
      hide BigInteger.Value;
      hide StandsFor;
      var i, c := SubCommon(a, r);
      if a.t < t {
        SignY(r.digits, i, c, Seg(x, 0, i), y, a.s, u, true);
        i, c := AddDigits(r, i, c - a.s, x, -u);
        SignX(r.digits, i, c, x, s, v, -u);
        c := c + s;
      } else {
        SignX(r.digits, i, c, x, s, v, -Seg(y, 0, i));
        i, c := a.SubDigits(r, i, c + s, y, v);
        SignY(r.digits, i, c, v, y, a.s, u, true);
        c := c - a.s;
      }
      r.Finish(i, c, v - u);
    }

    // r = this + a on the digits both have
    method AddCommon(a: BigInteger, r: BigInteger) returns (i: nat, c: int)
      requires Valid() && a.Valid()
      modifies r`digits
      ensures i == Min(t, a.t) && 0 <= c <= 1
      ensures Tail(digits, old(digits), i, t) && Tail(a.digits, old(a.digits), i, a.t)
      ensures Running(r.digits, i, c, Seg(old(digits), 0, i) + Seg(old(a.digits), 0, i))
    {
      ghost var x, y := digits, a.digits;
      assert Running(r.digits, 0, 0, Seg(x, 0, 0) + Seg(y, 0, 0));
      hide Running;
      hide Seg;
      i, c := 0, 0;
      var m := Min(a.t, t);
      while i < m
        invariant i <= m && 0 <= c <= 1
        invariant Tail(digits, x, i, t) && Tail(a.digits, y, i, a.t)
        invariant Running(r.digits, i, c, Seg(x, 0, i) + Seg(y, 0, i))
      {
        StepBoth(r.digits, i, c, x, y, false);
        c := c + (digits[i] + a.digits[i]);
        r.digits := r.digits[i := Low(c, DV)];
        i := i + 1;
        c := Shr(c, DV);
      }
    }

    // r = this + a; r may be this or a
    method AddTo(a: BigInteger, r: BigInteger)
      requires Valid() && a.Valid()
      modifies r
      ensures r.Valid() && r.Clamped() && r.Value() == old(Value()) + old(a.Value())
    {
      ghost var x, y, v, u := digits, a.digits, Value(), a.Value();
      assert StandsFor(x, t, s, v) && StandsFor(y, a.t, a.s, u);
      hide Running;
      hide Seg;
      hide W;
      hide BigInteger.Value;
      hide StandsFor;
      var i, c := AddCommon(a, r);
      if a.t < t {
        SignY(r.digits, i, c, Seg(x, 0, i), y, a.s, u, false);
        i, c := AddDigits(r, i, c + a.s, x, u);
        SignX(r.digits, i, c, x, s, v, u);
        c := c + s;
      } else {
        SignX(r.digits, i, c, x, s, v, Seg(y, 0, i));
        i, c := a.AddDigits(r, i, c + s, y, v);
        SignY(r.digits, i, c, v, y, a.s, u, false);
        c := c + a.s;
      }
      r.Finish(i, c, v + u);
    }

    // -this
    method Negate() returns (r: BigInteger)
      requires Valid()
      ensures fresh(r) && r.Valid() && r.Clamped() && r.Value() == -Value()
    {
      r := new BigInteger.Nbi();
      var zero := new BigInteger.Nbi();
      zero.SubTo(this, r);
    }

    // |this|, which is this itself unless it is negative
    method Abs() returns (r: BigInteger)
      requires Valid()
      ensures r == this || fresh(r)
      ensures r.Valid() && r.s == 0 && r.Value() == (if Value() < 0 then -Value() else Value())
      ensures s == 0 ==> r == this
    {
      SignOfValue(digits, t, s, Value());
      if s < 0 {
        r := Negate();
        SignOfValue(r.digits, r.t, r.s, r.Value());
      } else {
        r := this;
      }
    }

    // r = this << n*DB; r may be this
    method DlShiftTo(n: nat, r: BigInteger)
      requires Valid()
      modifies r
      ensures r.Valid() && r.Value() == Mul(old(Value()), W(n))
      ensures r.s == old(s) && r.t == old(t) + n
    {
      hide W;
      hide Seg;
      hide Mul;
      hide BigInteger.Value;
      hide Moved;
      hide SameOutside;
      ghost var x, v := digits, Value();
      MoveUp(n, r);
      ghost var moved := r.digits;
      ClearDigits(r, n);
      StillMoved(moved, r.digits, x, n, t + n);
      ShiftedLeft(x, t, s, v, n, r.digits);
      hide StandsFor;
      r.t := t + n;
      r.s := s;
      r.ValueIs(Mul(v, W(n)));
    }

    // the digits of this, n places up in r
    method MoveUp(n: nat, r: BigInteger)
      requires Valid()
      modifies r`digits
      ensures Moved(r.digits, old(digits), n, t + n, n)
    {
      ghost var x := digits;
      var i := t - 1;
      while i >= 0
        invariant -1 <= i < t
        invariant Tail(digits, x, 0, i + 1)
        invariant Moved(r.digits, x, i + n + 1, t + n, n)
        modifies r`digits
      {
        r.digits := r.digits[i + n := digits[i]];
        i := i - 1;
      }
    }

    lemma ValueIs(v: int)
      requires t >= 0 && (s == 0 || s == -1) && StandsFor(digits, t, s, v)
      ensures Valid() && Value() == v
    {
    }

    // r = this >> n*DB; r may be this
    method DrShiftTo(n: nat, r: BigInteger)
      requires Valid()
      modifies r
      ensures r.Valid() && r.Value() == old(Value()) / W(n)
      ensures old(Clamped()) ==> r.Clamped()
      ensures r.s == old(s)
    {
      ghost var x, v := digits, Value();
      hide W;
      hide Seg;
      hide Mul;
      hide BigInteger.Value;
      var i := n;
      while i < t
        invariant n <= i <= Max(n, t)
        invariant Tail(digits, x, i, t)
        invariant Moved(r.digits, x, 0, i - n, 0 - n)
        modifies r`digits
      {
        r.digits := r.digits[i - n := digits[i]];
        i := i + 1;
      }
      ShiftedRight(x, t, s, v, n, r.digits);
      r.t := Max(t - n, 0);
      r.s := s;
    }

    // positive if this > a, negative if this < a, 0 if equal; but two negative numbers of
    // different lengths come out the wrong way round
    method CompareTo(a: BigInteger) returns (r: int)
      requires Valid() && Clamped() && a.Valid() && a.Clamped()
      ensures r == 0 <==> Value() == a.Value()
      ensures !(s < 0 && a.s < 0 && t != a.t) ==> (r < 0 <==> Value() < a.Value())
      ensures s < 0 && a.s < 0 && t != a.t ==> (r < 0 <==> Value() > a.Value())
    {
      ghost var v, u := Value(), a.Value();
      SignOfValue(digits, t, s, v);
      SignOfValue(a.digits, a.t, a.s, u);
      hide StandsFor;
      hide BigInteger.Value;
      r := s - a.s;
      if r != 0 { return; }
      var i := t;
      r := i - a.t;
      if r != 0 {
        if t < a.t {
          LongerIsFarther(digits, t, v, a.digits, a.t, u, s);
        } else {
          LongerIsFarther(a.digits, a.t, u, digits, t, v, s);
        }
        return;
      }
      i := i - 1;
      while i >= 0
        invariant -1 <= i < t
        invariant forall k :: i < k < t ==> digits[k] == a.digits[k]
      {
        r := digits[i] - a.digits[i];
        if r != 0 {
          TopDifference(digits, v, a.digits, u, s, i, t);
          return;
        }
        i := i - 1;
      }
      r := 0;
      NoDifference(digits, v, a.digits, u, s, t);
    }

    // r = this * a; r is neither this nor a
    method MultiplyTo(a: BigInteger, r: BigInteger)
      requires Valid() && a.Valid() && r != this && r != a
      modifies r
      ensures r.Valid() && r.Clamped() && r.Value() == Value() * a.Value()
    {
      ghost var v, u := Value(), a.Value();
      SignOfValue(digits, t, s, v);
      SignOfValue(a.digits, a.t, a.s, u);
      var x := Abs();
      var y := a.Abs();
      ProductSigned(v, u, s, a.s);
      hide BigInteger.Value;
      x.ProductInto(y, r);
      if s != a.s {
        var zero := new BigInteger.Nbi();
        zero.SubTo(r, r);
      }
    }

    // the digit-by-digit product of two numbers that are not negative
    method ProductInto(y: BigInteger, r: BigInteger)
      requires Valid() && y.Valid() && r != this && r != y && s == 0 && y.s == 0
      modifies r
      ensures r.Valid() && r.Clamped() && r.Value() == Value() * y.Value()
    {
      assert StandsFor(digits, t, 0, Value()) && StandsFor(y.digits, y.t, 0, y.Value());
      hide W;
      hide Seg;
      hide BigInteger.Value;
      var i := t;
      r.t := i + y.t;
      ClearDigits(r, r.t);
      ProductStart(digits, t, y.digits, r.digits);
      i := 0;
      while i < y.t
        invariant 0 <= i <= y.t
        invariant ProductSoFar(digits, t, y.digits, i, r.digits)
        invariant forall k :: i + t <= k < r.t ==> k in r.digits && r.digits[k] == 0
        modifies r`digits
      {
        ProductRound(y, i, r);
        i := i + 1;
      }
      r.s := 0;
      assert StandsFor(r.digits, r.t, 0, Mul(Value(), y.Value()));
      r.Clamp();
    }

    // one round of multiplying: this times y_i, i digits up
    method ProductRound(y: BigInteger, i: nat, r: BigInteger)
      requires Valid() && y.Valid() && r != this && r != y && i < y.t
      requires ProductSoFar(digits, t, y.digits, i, r.digits)
      modifies r`digits
      ensures ProductSoFar(digits, t, y.digits, i + 1, r.digits)
      ensures SameOutside(old(r.digits), r.digits, i, i + t + 1)
    {
      hide W;
      hide Seg;
      ghost var before := r.digits;
      var c := Am3(0, y.digits[i], r, i, 0, t);
      ProductStep(digits, t, y.digits, i, before, r.digits, c);
      r.digits := r.digits[i + t := c];
    }

    // r = this * this; r is not this
    method SquareTo(r: BigInteger)
      requires Valid() && r != this
      modifies r
      ensures r.Valid() && r.Clamped() && r.Value() == Value() * Value()
    {
      ghost var v := Value();
      var x := Abs();
      ghost var xs, xv := x.digits, x.Value();
      assert StandsFor(xs, x.t, 0, xv);
      SqOfAbs(v);
      hide Sq;
      hide Mul;
      hide W;
      hide Seg;
      hide BigInteger.Value;
      hide SquareSoFar;
      r.t := 2 * x.t;
      ClearDigits(r, r.t);
      SquareStart(xs, x.t, r.digits);
      var i := 0;
      while i < x.t - 1
        invariant 0 <= i && (i <= x.t - 1 || i == x.t == 0)
        invariant SquareSoFar(xs, x.t, i, r.digits)
        modifies r`digits
      {
        x.SquareRound(i, r);
        i := i + 1;
      }
      if r.t > 0 {
        x.SquareLastRound(i, r);
      } else {
        SquareOfNothing(xs, r.digits);
      }
      r.s := 0;
      SquareStands(xs, x.t, xv, r.digits, r.t);
      hide StandsFor;
      r.ValueIs(Sq(xv));
      r.Clamp();
    }

    // one round of squaring: this_i squared, and twice this_i times the digits above it
    method SquareRound(i: nat, r: BigInteger)
      requires Valid() && r != this && i < t - 1 && SquareSoFar(digits, t, i, r.digits)
      modifies r`digits
      ensures SquareSoFar(digits, t, i + 1, r.digits)
    {
      hide W;
      hide Seg;
      hide Mul;
      hide SquareSoFar;
      SquareDigits(digits, t, i, r.digits);
      hide Accumulated;
      ghost var d0 := r.digits;
      var c := Am3(i, digits[i], r, 2 * i, 0, 1);
      ghost var d1 := r.digits;
      SquareUntouched(t, i, d0, d1, Mul(digits[i], Seg(digits, i, 1)), c);
      var top := r.digits[i + t];
      var carry := Am3(i + 1, 2 * digits[i], r, 2 * i + 1, c, t - i - 1);
      ghost var d2 := r.digits;
      SquareStep(digits, t, i, d0, d1, d2, c, carry);
      r.BumpDigit(i + t, top + carry);
    }

    // stores e as digit j and moves what is too much for a digit up
    method BumpDigit(j: int, e: int)
      modifies this`digits
      ensures digits == Bumped(old(digits), j, e)
    {
      digits := digits[j := e];
      if digits[j] >= DV {
        digits := digits[j := digits[j] - DV];
        digits := digits[j + 1 := 1];
      }
    }

    // the last round of squaring has no digits above this_i
    method SquareLastRound(i: nat, r: BigInteger)
      requires Valid() && r != this && i == t - 1 && r.t == 2 * t && SquareSoFar(digits, t, i, r.digits)
      modifies r`digits
      ensures HasDigits(r.digits, 0, 2 * t) && Seg(r.digits, 0, 2 * t) == Sq(Seg(digits, 0, t))
    {
      hide W;
      hide Seg;
      ghost var d0 := r.digits;
      var top := r.digits[r.t - 1];
      var c := Am3(i, digits[i], r, 2 * i, 0, 1);
      SquareFinish(digits, t, d0, r.digits, c);
      r.digits := r.digits[r.t - 1 := top + c];
    }

    static method ClearDigits(r: BigInteger, n: nat)
      modifies r`digits
      ensures forall k :: 0 <= k < n ==> k in r.digits && r.digits[k] == 0
      ensures SameOutside(old(r.digits), r.digits, 0, n)
    {
      var i := n - 1;
      while i >= 0
        invariant -1 <= i < n
        invariant SameOutside(old(r.digits), r.digits, 0, n)
        invariant forall k :: i < k < n ==> k in r.digits && r.digits[k] == 0
      {
        r.digits := r.digits[i := 0];
        i := i - 1;
      }
    }

    // -1/this modulo 2^28, or 0 if this is even
    method InvDigit() returns (r: int)
      requires Valid()
      ensures t >= 1 && digits[0] % 2 == 1 ==> 0 <= r < DV && Congruent(digits[0] * r + 1, 0, DV)
      ensures !(t >= 1 && digits[0] % 2 == 1) ==> r == 0
    {
      if t < 1 { return 0; }
      var x := digits[0];
      if Low(x, 2) == 0 { return 0; }
      r := DigitInverse.InvertDigit(x);
    }

    method IsEven() returns (even: bool)
      requires Valid()
      ensures even <==> Value() % 2 == 0
    {
      hide Mul;
      hide Seg;
      Parity(digits, t, s, Value());
      even := (if t > 0 then Low(digits[0], 2) else s) == 0;
    }

    // zero digits on top until there are more than n
    method Pad(n: nat)
      requires Valid() && s == 0
      modifies this`digits, this`t
      ensures Valid() && Value() == old(Value()) && t > n
    {
      while t <= n
        invariant Valid() && Value() == old(Value())
      {
        PadOne(digits, t, Value());
        digits := digits[t := 0];
        t := t + 1;
      }
    }

    // this mod m for numbers that are not negative, by the one definition of a remainder:
    // what is left when m has been taken away as often as it can be
    method RemTo(m: BigInteger)
      requires Valid() && s == 0 && m.Valid() && m.Clamped() && m.s == 0 && m.Value() > 0 && m != this
      modifies this
      ensures Valid() && Clamped() && Value() == old(Value()) % m.Value()
    {
      hide Mul;
      hide Seg;
      hide BigInteger.Value;
      SignOfValue(digits, t, s, Value());
      Clamp();
      var c := CompareTo(m);
      while c >= 0
        invariant Valid() && Clamped() && s == 0 && Value() >= 0
        invariant Congruent(Value(), old(Value()), m.Value())
        invariant c >= 0 <==> Value() >= m.Value()
        decreases Value()
        modifies this
      {
        CongruentByMultiple(Value() - m.Value(), Value(), -1, m.Value());
        SubTo(m, this);
        SignOfValue(digits, t, s, Value());
        c := CompareTo(m);
      }
      DivModUnique(Value(), m.Value(), 0, Value());
    }
  }
}
