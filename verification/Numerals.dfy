/** Numbers as text and as bytes: what printing and parsing mean. */
module Numerals {
  import opened Arithmetic

  // ----- characters ------------------------------------------------------------------------------------------------

  /** The d-th of the digits 0 to 9 and the letters a to z. */
  function IntToChar(d: int): (c: char)
    requires 0 <= d < 36
  {
    if d < 10 then ('0' as int + d) as char else ('a' as int + d - 10) as char
  }

  /** The digit a character stands for, -1 for the others. */
  function IntAt(c: char): (d: int)
    ensures -1 <= d < 36
  {
    if '0' <= c <= '9' then c as int - '0' as int
    else if 'a' <= c <= 'z' then c as int - 'a' as int + 10
    else if 'A' <= c <= 'Z' then c as int - 'A' as int + 10
    else -1
  }

  const DIGITS := "0123456789abcdefghijklmnopqrstuvwxyz"
  const CAPITALS := "0123456789ABCDEFGHIJKLMNOPQRSTUVWXYZ"

  /** The digits in their order: small letters are printed, and capital ones are read as well. */
  lemma DigitCharacters(d: int, c: char)
    requires 0 <= d < 36
    ensures |DIGITS| == 36 == |CAPITALS|
    ensures IntToChar(d) == DIGITS[d]
    ensures IntAt(c) == d <==> c == DIGITS[d] || c == CAPITALS[d]
  {
  }

  lemma DigitRoundTrip(d: int)
    requires 0 <= d < 36
    ensures IntAt(IntToChar(d)) == d
  {
  }

  // ----- printing --------------------------------------------------------------------------------------------------

  /** The digits of v in base b, without leading zeros. */
  function Numeral(v: int, b: int): (s: seq<int>)
    requires 0 <= v && b >= 2
    ensures forall i :: 0 <= i < |s| ==> 0 <= s[i] < b
    ensures s != [] && (v > 0 ==> s[0] != 0)
    decreases v
  {
    if v < b then [v] else SmallerQuotient(v, b); Numeral(v / b, b) + [v % b]
  }

  lemma SmallerQuotient(v: int, b: int)
    requires v >= b >= 2
    ensures 0 < v / b < v
  {
    var q := v / b;
    DivModOf(v, b);
    if q < 1 {
      MulMonotone(q, 0, b);
      assert false;
    }
    MulMonotone(2, b, q);
  }

  function Text(s: seq<int>): (r: string)
    requires forall i :: 0 <= i < |s| ==> 0 <= s[i] < 36
  {
    seq(|s|, i requires 0 <= i < |s| => IntToChar(s[i]))
  }

  function Printed(v: int, b: int): (r: string)
    requires 2 <= b <= 36
  {
    if v < 0 then "-" + Text(Numeral(-v, b)) else Text(Numeral(v, b))
  }

  /** One more digit behind a number that is not zero. */
  lemma NumeralMore(u: int, d: int, b: int)
    requires 0 <= u && 0 <= d < b && b >= 2
    ensures Mul(u, b) + d >= 0
    ensures Numeral(Mul(u, b) + d, b) == if u == 0 then [d] else Numeral(u, b) + [d]
  {
    var v := Mul(u, b) + d;
    DivModUnique(v, b, u, d);
    if u == 0 {
    } else {
      MulMonotone(1, u, b);
    }
  }

  // ----- parsing ---------------------------------------------------------------------------------------------------

  /** How many digits a text has. */
  function Count(s: string): (n: nat) {
    if s == "" then 0 else Count(s[1..]) + if IntAt(s[0]) < 0 then 0 else 1
  }

  /** The number that the digits of a text make up in base 2^k; other characters do not count. */
  function Magnitude(s: string, k: nat): (v: nat) {
    if s == "" then 0
    else if IntAt(s[0]) < 0 then Magnitude(s[1..], k)
    else MulNat(IntAt(s[0]), Pow2(k * Count(s[1..]))); Mul(IntAt(s[0]), Pow2(k * Count(s[1..]))) + Magnitude(s[1..], k)
  }

  lemma MulNat(a: int, b: int)
    requires a >= 0 && b >= 0
    ensures Mul(a, b) >= 0
  {
    MulMonotone(0, a, b);
  }

  /** There is a minus sign before the first digit. */
  predicate Negative(s: string) {
    s != "" && IntAt(s[0]) < 0 && (s[0] == '-' || Negative(s[1..]))
  }

  function Parsed(s: string, k: nat): (v: int) {
    if Negative(s) then -(Magnitude(s, k) as int) else Magnitude(s, k)
  }

  /** Only a minus sign counts, and only if all characters up to it are no digits. */
  lemma {:induction false} NegativeExactly(s: string)
    ensures Negative(s) <==> exists i :: 0 <= i < |s| && SignAt(s, i)
  {
    if s != "" {
      NegativeExactly(s[1..]);
      assert s[0] == '-' ==> IntAt(s[0]) < 0 && SignAt(s, 0);
      forall i | 0 <= i < |s[1..]| && IntAt(s[0]) < 0 ensures SignAt(s[1..], i) <==> SignAt(s, i + 1) {
        SignBehind(s, i);
      }
      if i :| 0 <= i < |s| && SignAt(s, i) {
        assert i > 0 && IntAt(s[0]) < 0 ==> SignAt(s[1..], i - 1);
      }
    }
  }

  /** The i-th character is a minus sign, with no digit before it. */
  ghost predicate SignAt(s: string, i: int) {
    0 <= i < |s| && s[i] == '-' && forall j :: 0 <= j < i ==> IntAt(s[j]) < 0
  }

  lemma SignBehind(s: string, i: nat)
    requires i + 1 < |s| && IntAt(s[0]) < 0
    ensures SignAt(s[1..], i) <==> SignAt(s, i + 1)
  {
    assert forall j :: 0 <= j < |s[1..]| ==> s[1..][j] == s[j + 1];
    if SignAt(s[1..], i) {
      forall j | 0 <= j < i + 1 ensures IntAt(s[j]) < 0 {
        assert j > 0 ==> s[1..][j - 1] == s[j];
      }
    }
  }

  lemma {:induction false} MagnitudeMore(s: string, c: char, k: nat)
    requires IntAt(c) >= 0
    ensures Count(s + [c]) == Count(s) + 1
    ensures Magnitude(s + [c], k) == Mul(Magnitude(s, k), Pow2(k)) + IntAt(c)
    decreases |s|
  {
    hide Pow2, Mul;
    if s == "" {
      assert s + [c] == [c] && [c][1..] == "";
      OnlyDigit(IntAt(c), k);
    } else {
      var x, n := IntAt(s[0]), Count(s[1..]);
      assert (s + [c])[1..] == s[1..] + [c];
      MagnitudeMore(s[1..], c, k);
      if x >= 0 {
        DigitUp(x, k, n, Magnitude(s[1..], k));
      }
    }
  }

  /** Other characters make no difference, wherever they are. */
  lemma {:induction false} MagnitudeSkips(s: string, c: char, t: string, k: nat)
    requires IntAt(c) < 0
    ensures Count(s + [c] + t) == Count(s + t) && Magnitude(s + [c] + t, k) == Magnitude(s + t, k)
    decreases |s|
  {
    hide Pow2, Mul, IntAt;
    if s == "" {
      assert (s + [c] + t)[1..] == t == s + t;
    } else {
      MagnitudeSkips(s[1..], c, t, k);
      assert (s + [c] + t)[1..] == s[1..] + [c] + t && (s + t)[1..] == s[1..] + t;
    }
  }

  lemma OnlyDigit(x: int, k: nat)
    ensures Mul(x, Pow2(k * 0)) == x && Mul(0, Pow2(k)) == 0
  {
    One(k);
  }

  lemma DigitUp(x: int, k: nat, n: nat, m: int)
    ensures Mul(x, Pow2(k * (n + 1))) + Mul(m, Pow2(k)) == Mul(Mul(x, Pow2(k * n)) + m, Pow2(k))
  {
    hide Pow2, Mul;
    assert k * (n + 1) == k * n + k;
    Pow2Add(k * n, k);
    ShiftedUp(x, Pow2(k * n), Pow2(k), m);
  }

  lemma One(k: nat)
    ensures Pow2(k * 0) == 1
  {
    assert k * 0 == 0;
  }

  lemma ShiftedUp(x: int, p: int, q: int, m: int)
    ensures Mul(x, p * q) + Mul(m, q) == Mul(Mul(x, p) + m, q)
  {
    MulAssoc(x, p, q);
    MulDistrib(x * p, m, q);
  }

  lemma {:induction false} MagnitudeOfText(v: int, k: nat)
    requires v >= 0 && 1 <= k <= 5
    ensures 2 <= Pow2(k) <= 32
    ensures Magnitude(Text(Numeral(v, Pow2(k))), k) == v && Count(Text(Numeral(v, Pow2(k)))) == |Numeral(v, Pow2(k))|
    decreases v
  {
    SmallRadix(k);
    var b := Pow2(k);
    var s := Numeral(v, b);
    if v < b {
      assert Text(s) == "" + [IntToChar(v)];
      DigitRoundTrip(v);
      MagnitudeMore("", IntToChar(v), k);
    } else {
      SmallerQuotient(v, b);
      MagnitudeOfText(v / b, k);
      assert Text(s) == Text(Numeral(v / b, b)) + [IntToChar(v % b)];
      DigitRoundTrip(v % b);
      MagnitudeMore(Text(Numeral(v / b, b)), IntToChar(v % b), k);
      DivModOf(v, b);
    }
  }

  lemma SmallRadix(k: nat)
    requires 1 <= k <= 5
    ensures 2 <= Pow2(k) <= 32
  {
    assert Pow2(0) == 1 && Pow2(1) == 2 && Pow2(2) == 4 && Pow2(3) == 8 && Pow2(4) == 16 && Pow2(5) == 32;
  }

  /** Parsing undoes printing. */
  lemma ParsePrinted(v: int, k: nat)
    requires 1 <= k <= 5
    ensures 2 <= Pow2(k) <= 32 && Parsed(Printed(v, Pow2(k)), k) == v
  {
    hide Numeral, Magnitude;
    var u := if v < 0 then -v else v;
    MagnitudeOfText(u, k);
    var t := Text(Numeral(u, Pow2(k)));
    DigitRoundTrip(Numeral(u, Pow2(k))[0]);
    assert IntAt(t[0]) >= 0;
    if v < 0 {
      assert Printed(v, Pow2(k))[1..] == t;
      SignSkipped(Printed(v, Pow2(k)), k);
    }
  }

  lemma SignSkipped(s: string, k: nat)
    requires s != "" && IntAt(s[0]) < 0
    ensures Magnitude(s, k) == Magnitude(s[1..], k)
  {
  }

  /** Every digit of a printed number is one of its radix. */
  lemma PrintedDigits(v: int, k: nat)
    requires 1 <= k <= 5
    ensures 2 <= Pow2(k) <= 32 && forall i :: 0 <= i < |Printed(v, Pow2(k))| ==> IntAt(Printed(v, Pow2(k))[i]) < Pow2(k)
  {
    SmallRadix(k);
    var u := if v < 0 then -v else v;
    var s := Numeral(u, Pow2(k));
    forall i | 0 <= i < |s| ensures IntAt(Text(s)[i]) < Pow2(k) {
      DigitRoundTrip(s[i]);
    }
  }

  // ----- bytes -----------------------------------------------------------------------------------------------------

  /** A byte as a number from -128 to 127. */
  function Signed(d: int): (r: int) {
    if d >= 128 then d - 256 else d
  }

  /** The shortest two's complement representation of v, highest byte first. */
  function BytesOf(v: int): (s: seq<int>)
    ensures s != [] && forall i :: 0 <= i < |s| ==> -128 <= s[i] < 128
    decreases if v < 0 then -v else v
  {
    if -128 <= v < 128 then [v] else BytesOf(v / 256) + [Signed(v % 256)]
  }

  /** The number that bytes make up, without a sign. */
  function Unsigned(s: seq<int>): (v: nat) {
    if s == [] then 0 else MulNat(s[0] % 256, Pow2(8 * (|s| - 1))); Mul(s[0] % 256,
      Pow2(8 * (|s| - 1))) + Unsigned(s[1..])
  }

  /** The two's complement number that bytes make up. */
  function TwosComplement(s: seq<int>): (v: int) {
    Unsigned(s) - if s != [] && s[0] % 256 >= 128 then Pow2(8 * |s|) else 0
  }

  lemma {:induction false} UnsignedMore(s: seq<int>, d: int)
    ensures Unsigned(s + [d]) == Mul(Unsigned(s), 256) + d % 256
    decreases |s|
  {
    hide Pow2;
    if s == [] {
      assert (s + [d])[1..] == [];
      One(8);
    } else {
      assert (s + [d])[1..] == s[1..] + [d];
      UnsignedMore(s[1..], d);
      Byte();
      Pow2Add(8 * (|s| - 1), 8);
      ShiftedUp(s[0] % 256, Pow2(8 * (|s| - 1)), 256, Unsigned(s[1..]));
    }
  }

  lemma Byte()
    ensures Pow2(8) == 256
  {
    assert Pow2(4) == 16;
    Pow2Add(4, 4);
  }

  lemma TwosComplementMore(s: seq<int>, d: int)
    requires s != []
    ensures TwosComplement(s + [d]) == Mul(TwosComplement(s), 256) + d % 256
  {
    hide Pow2;
    UnsignedMore(s, d);
    Byte();
    Pow2Add(8 * |s|, 8);
    MulDistrib(Unsigned(s), Pow2(8 * |s|), 256);
  }

  /** The bytes of a number make it up again. */
  lemma {:induction false} BytesRoundTrip(v: int)
    ensures TwosComplement(BytesOf(v)) == v
    decreases if v < 0 then -v else v
  {
    hide Pow2;
    hide Mul, TwosComplement;
    if -128 <= v < 128 {
      OneByte(v);
    } else {
      ByteQuotient(v);
      BytesRoundTrip(v / 256);
      TwosComplementMore(BytesOf(v / 256), Signed(v % 256));
    }
  }

  lemma ByteQuotient(v: int)
    ensures Signed(v % 256) % 256 == v % 256 && Mul(v / 256, 256) + v % 256 == v
  {
  }

  lemma OneByte(v: int)
    requires -128 <= v < 128
    ensures TwosComplement([v]) == v
  {
    One(8);
    Byte();
    var s := [v];
    assert s[1..] == [] && 8 * (|s| - 1) == 8 * 0 && 8 * |s| == 8;
    assert Unsigned(s) == v % 256;
  }

  /** No bytes that make up the same number are fewer. */
  lemma {:induction false} BytesShortest(s: seq<int>)
    requires s != []
    ensures |BytesOf(TwosComplement(s))| <= |s|
    decreases |s|
  {
    hide TwosComplement, BytesOf;
    var n := |s| - 1;
    if n == 0 {
      assert s == [s[0]];
      SingleByte(s[0]);
    } else {
      BytesShortest(s[..n]);
      assert s == s[..n] + [s[n]];
      TwosComplementMore(s[..n], s[n]);
      BytesMore(TwosComplement(s[..n]), s[n] % 256);
    }
  }

  lemma SingleByte(x: int)
    ensures |BytesOf(TwosComplement([x]))| == 1
  {
    hide Pow2;
    One(8);
    Byte();
    assert [x][1..] == [] && 8 * (|[x]| - 1) == 8 * 0 && 8 * |[x]| == 8;
    assert Unsigned([x]) == x % 256;
  }

  /** One more byte. */
  lemma BytesMore(u: int, d: int)
    requires 0 <= d < 256
    ensures BytesOf(256 * u + d) ==
      if (u == 0 && d < 128) || (u == -1 && d >= 128) then [Signed(d)] else BytesOf(u) + [Signed(d)]
  {
    DivModUnique(256 * u + d, 256, u, d);
  }
}
