/** PKCS#1 padding of a text to a number, and back. */
module Padding {
  // Section 7.2 of RFC 8017.

  import opened Arithmetic
  import opened JsNumber
  import opened BigIntegers
  import opened Numerals
  import Parsing
  import Printing

  datatype Option<T> = None | Some(value: T)

  /** The codes of a text's UTF-16 units. */
  predicate IsText(s: seq<int>) {
    forall i :: 0 <= i < |s| ==> 0 <= s[i] < 0x1_0000
  }

  /** Random bytes that are not zero. */
  predicate IsFiller(s: seq<int>) {
    forall i :: 0 <= i < |s| ==> 1 <= s[i] < 0x100
  }

  /** 0, 2, the filler, 0, the text. */
  function Block(filler: seq<int>, s: seq<int>): (b: seq<int>) {
    [0, 2] + filler + [0] + s
  }

  method RandomNonZero() returns (x: int)
    ensures 1 <= x < 0x100
  {
    x :| 1 <= x < 0x100;
  }

  /** ba[--k] = v */
  method PutBefore(ba: array<int>, k: nat, v: int) returns (k': nat)
    requires 0 < k <= ba.Length
    modifies ba
    ensures k' == k - 1 && ba[k'..] == [v] + old(ba[k..])
  {
    k' := k - 1;
    ba[k'] := v;
  }

  lemma FillerStart(s: seq<int>)
    ensures [0] + s == [] + ([0] + s) && s[0..] == s
  {
  }

  lemma FillerMore(x: int, filler: seq<int>, rest: seq<int>)
    ensures [x] + (filler + rest) == ([x] + filler) + rest
  {
  }

  lemma WholeBlock(filler: seq<int>, s: seq<int>)
    ensures [0] + ([2] + (filler + ([0] + s))) == Block(filler, s)
  {
  }

  lemma BlockExact(filler: seq<int>, s: seq<int>)
    requires IsText(s) && IsFiller(filler)
    ensures forall i :: 0 <= i < |Block(filler, s)| ==> Exact(Block(filler, s)[i])
  {
  }

  /** pkcs1pad2: the block is filled from its end. */
  method Pad(s: seq<int>, n: nat) returns (r: BigInteger?, ghost filler: seq<int>)
    requires IsText(s)
    ensures r == null <==> n < |s| + 11
    ensures r != null ==>
      fresh(r) && r.Valid() && r.Clamped() && IsFiller(filler) && |filler| == n - |s| - 3
        && r.Value() == TwosComplement([0, 2] + filler + [0] + s)
  {
    filler := [];
    if n < |s| + 11 {
      return null, [];
    }
    var ba := new int[n];
    var k, i := n, |s| - 1;
    while i >= 0 && k > 0
      invariant -1 <= i < |s| && k == n - |s| + i + 1 && ba[k..] == s[i + 1..]
    {
      k := PutBefore(ba, k, s[i]);
      i := i - 1;
    }
    k := PutBefore(ba, k, 0);
    FillerStart(s);
    while k > 2
      invariant 2 <= k <= n - |s| - 1 && |filler| == n - |s| - 1 - k && IsFiller(filler)
        && ba[k..] == filler + ([0] + s)
    {
      var x := RandomNonZero();
      k := PutBefore(ba, k, x);
      FillerMore(x, filler, [0] + s);
      filler := [x] + filler;
    }
    k := PutBefore(ba, k, 2);
    k := PutBefore(ba, k, 0);
    WholeBlock(filler, s);
    BlockExact(filler, s);
    assert ba[0..] == ba[..];
    r := new BigInteger.Nbi();
    Parsing.FromBytes(r, ba[..]);
  }

  // ----- back ------------------------------------------------------------------------------------------------------

  /** Where the first zero is from i on, the length if there is none. */
  function ZeroFrom(b: seq<int>, i: nat): (j: nat)
    requires i <= |b|
    ensures i <= j <= |b| && (j < |b| ==> b[j] == 0) && forall k :: i <= k < j ==> b[k] != 0
    decreases |b| - i
  {
    if i == |b| || b[i] == 0 then i else ZeroFrom(b, i + 1)
  }

  /** Where the first byte other than zero is from i on. */
  function ByteFrom(b: seq<int>, i: nat): (j: nat)
    requires i <= |b|
    ensures i <= j <= |b| && (j < |b| ==> b[j] != 0) && forall k :: i <= k < j ==> b[k] == 0
    decreases |b| - i
  {
    if i == |b| || b[i] != 0 then i else ByteFrom(b, i + 1)
  }

  /** String.fromCharCode: the low 16 bits. */
  function CharCode(b: int): (c: int)
    ensures 0 <= c < 0x1_0000
  {
    b % 0x1_0000
  }

  function CharCodes(b: seq<int>): (s: seq<int>) {
    seq(|b|, i requires 0 <= i < |b| => CharCode(b[i]))
  }

  /** The text in a block of n bytes: what is behind the first zero after the 2. */
  function Message(b: seq<int>, n: nat): (r: Option<seq<int>>) {
    var i := ByteFrom(b, 0);
    if |b| - i != n - 1 || i == |b| || b[i] != 2 then None
    else
      var j := ZeroFrom(b, i + 1);
      if j == |b| then None else Some(CharCodes(b[j + 1..]))
  }

  /** Behind z zeros the bytes are a 2, a filler f without a zero, a 0, and t. */
  ghost predicate IsBlock(b: seq<int>, z: nat, f: seq<int>, t: seq<int>) {
    && z <= |b| && (forall i :: 0 <= i < z ==> b[i] == 0)
    && b[z..] == [2] + f + [0] + t && 0 !in f
  }

  /** The bytes, from -128 to 127, as character codes of 16 bits. */
  ghost predicate AreCharacters(s: seq<int>, t: seq<int>) {
    IsText(s) && |s| == |t| && forall i :: 0 <= i < |t| ==> s[i] == t[i] || s[i] == t[i] + 0x1_0000
  }

  /** The bytes hold a block of n bytes with this text. */
  ghost predicate HoldsText(b: seq<int>, n: nat, s: seq<int>) {
    exists z: nat, f: seq<int>, t: seq<int> :: IsBlock(b, z, f, t) && n == |f| + |t| + 3 && AreCharacters(s, t)
  }

  /** The text in a block is all that is found, and nothing is found in anything else. */
  lemma MessageExactly(b: seq<int>, n: nat, s: seq<int>)
    requires forall i :: 0 <= i < |b| ==> -128 <= b[i] < 128
    ensures Message(b, n) == Some(s) <==> HoldsText(b, n, s)
  {
    if Message(b, n) == Some(s) {
      TextHeld(b, n, s);
    }
    if HoldsText(b, n, s) {
      var z: nat, f: seq<int>, t: seq<int> :| IsBlock(b, z, f, t) && n == |f| + |t| + 3 && AreCharacters(s, t);
      TextFound(b, n, s, z, f, t);
    }
  }

  lemma TextHeld(b: seq<int>, n: nat, s: seq<int>)
    requires (forall i :: 0 <= i < |b| ==> -128 <= b[i] < 128) && Message(b, n) == Some(s)
    ensures HoldsText(b, n, s)
  {
    var z := ByteFrom(b, 0);
    var j := ZeroFrom(b, z + 1);
    AroundZero(b, z, j);
    CodesAreCharacters(b[j + 1..]);
    assert IsBlock(b, z, b[z + 1..j], b[j + 1..]);
  }

  lemma AroundZero(b: seq<int>, z: nat, j: nat)
    requires z < j < |b| && b[z] == 2 && b[j] == 0
    ensures b[z..] == [2] + b[z + 1..j] + [0] + b[j + 1..]
  {
  }

  lemma CodesAreCharacters(t: seq<int>)
    requires forall i :: 0 <= i < |t| ==> -128 <= t[i] < 128
    ensures AreCharacters(CharCodes(t), t)
  {
  }

  lemma TextFound(b: seq<int>, n: nat, s: seq<int>, z: nat, f: seq<int>, t: seq<int>)
    requires forall i :: 0 <= i < |b| ==> -128 <= b[i] < 128
    requires IsBlock(b, z, f, t) && n == |f| + |t| + 3 && AreCharacters(s, t)
    ensures Message(b, n) == Some(s)
  {
    var j := z + 1 + |f|;
    assert b[z] == b[z..][0] && b[j] == b[z..][j - z];
    assert ByteFrom(b, 0) == z;
    forall i | z < i < j ensures b[i] != 0 {
      assert b[i] == b[z..][i - z] == f[i - z - 1];
    }
    assert ZeroFrom(b, z + 1) == j;
    forall i | 0 <= i < |t| ensures b[j + 1..][i] == t[i] {
      assert b[j + 1 + i] == b[z..][j + 1 + i - z];
    }
    assert b[j + 1..] == t && CharCodes(t) == s;
  }

  /** pkcs1unpad2: a text comes out exactly if the number's bytes are a block of n bytes. */
  method Unpad(d: BigInteger, n: nat) returns (r: Option<seq<int>>)
    requires d.Valid()
    ensures forall s :: r == Some(s) <==> HoldsText(BytesOf(d.Value()), n, s)
    ensures r == Message(BytesOf(d.Value()), n)
  {
    hide BytesOf, HoldsText, Message;
    var b := Printing.ToByteArray(d);
    r := UnpadBytes(b, n);
    forall s ensures r == Some(s) <==> HoldsText(b, n, s) {
      MessageExactly(b, n, s);
    }
  }

  method UnpadBytes(b: seq<int>, n: nat) returns (r: Option<seq<int>>)
    ensures r == Message(b, n)
  {
    var i := 0;
    while i < |b| && b[i] == 0
      invariant 0 <= i <= |b| && ByteFrom(b, 0) == ByteFrom(b, i)
    {
      i := i + 1;
    }
    if |b| - i != n - 1 || i == |b| || b[i] != 2 {
      return None;
    }
    i := i + 1;
    ghost var start := i;
    // reading past the end gives undefined, which is not zero
    while i >= |b| || b[i] != 0
      invariant start <= i <= |b| && ZeroFrom(b, start) == ZeroFrom(b, i)
      decreases |b| - i
    {
      i := i + 1;
      if i >= |b| {
        return None;
      }
    }
    var ret := [];
    ghost var zero := i;
    i := i + 1;
    while i < |b|
      invariant zero < i <= |b| && ret == CharCodes(b[zero + 1..i])
    {
      assert b[zero + 1..i + 1] == b[zero + 1..i] + [b[i]];
      ret := ret + [CharCode(b[i])];
      i := i + 1;
    }
    assert b[zero + 1..i] == b[zero + 1..];
    r := Some(ret);
  }

  // ----- round trip ------------------------------------------------------------------------------------------------

  function SignedBytes(s: seq<int>): (r: seq<int>) {
    seq(|s|, i requires 0 <= i < |s| => Signed(s[i] % 256))
  }

  /** The bytes of a number that starts with a 2. */
  lemma {:induction false} BytesBehindTwo(t: seq<int>)
    ensures Unsigned([2] + t) >= 2 && BytesOf(Unsigned([2] + t)) == [2] + SignedBytes(t)
    decreases |t|
  {
    hide Unsigned, BytesOf, Mul;
    if t == [] {
      assert [2] + t == [2];
      OnlyTwo();
    } else {
      var n := |t| - 1;
      BytesBehindTwo(t[..n]);
      assert [2] + t == ([2] + t[..n]) + [t[n]];
      UnsignedMore([2] + t[..n], t[n]);
      MoreThanTwo(Unsigned([2] + t[..n]), t[n]);
      assert SignedBytes(t) == SignedBytes(t[..n]) + [Signed(t[n] % 256)];
    }
  }

  lemma OnlyTwo()
    ensures Unsigned([2]) == 2 && BytesOf(2) == [2]
  {
    OneByte(2);
    assert TwosComplement([2]) == Unsigned([2]);
  }

  lemma MoreThanTwo(u: int, d: int)
    requires u >= 2
    ensures Mul(u, 256) + d % 256 >= 2 && BytesOf(Mul(u, 256) + d % 256) == BytesOf(u) + [Signed(d % 256)]
  {
    BytesMore(u, d % 256);
  }

  /** What becomes of a character's code: its low byte, its sign extended to 16 bits. */
  function Shown(c: int): (r: int) {
    CharCode(Signed(c % 256))
  }

  lemma ShownExactly(c: int)
    requires 0 <= c < 0x1_0000
    ensures Shown(c) == c <==> c < 0x80 || c >= 0xff80
  {
  }

  function AllShown(s: seq<int>): (r: seq<int>) {
    seq(|s|, i requires 0 <= i < |s| => Shown(s[i]))
  }

  lemma LeadingZero(t: seq<int>)
    ensures TwosComplement([0] + t) == Unsigned(t)
  {
    assert ([0] + t)[1..] == t;
    assert Mul(0, Pow2(8 * |t|)) == 0;
  }

  /** Unpadding a padded text gives its characters' low bytes back, with their signs extended. */
  lemma MessageOfBlock(filler: seq<int>, s: seq<int>)
    requires IsFiller(filler)
    ensures Message(BytesOf(TwosComplement(Block(filler, s))), |filler| + |s| + 3) == Some(AllShown(s))
  {
    hide Unsigned, BytesOf, TwosComplement;
    var t := filler + [0] + s;
    assert Block(filler, s) == [0] + ([2] + t);
    LeadingZero([2] + t);
    BytesBehindTwo(t);
    var b := [2] + SignedBytes(t);
    var z := |filler| + 1;
    assert b[0] == 2 && b[z] == 0;
    forall i | 1 <= i < z ensures b[i] != 0 {
      assert b[i] == Signed(filler[i - 1] % 256);
    }
    assert b[z + 1..] == SignedBytes(s);
    assert CharCodes(SignedBytes(s)) == AllShown(s);
  }

  /** The text comes back exactly if all its characters are 7-bit characters, or their upper halves are all ones. */
  lemma TextComesBack(s: seq<int>)
    requires IsText(s)
    ensures AllShown(s) == s <==> forall i :: 0 <= i < |s| ==> s[i] < 0x80 || s[i] >= 0xff80
  {
    forall i | 0 <= i < |s| ensures AllShown(s)[i] == s[i] <==> s[i] < 0x80 || s[i] >= 0xff80 {
      ShownExactly(s[i]);
    }
    if AllShown(s) != s {
      var i :| 0 <= i < |s| && AllShown(s)[i] != s[i];
    }
  }

  /** pkcs1unpad2(pkcs1pad2(s, n), n) */
  method PadAndUnpad(s: seq<int>, n: nat) returns (r: Option<seq<int>>)
    requires IsText(s)
    ensures r == Some(s) <==> n >= |s| + 11 && forall i :: 0 <= i < |s| ==> s[i] < 0x80 || s[i] >= 0xff80
  {
    hide BytesOf, TwosComplement, Message, AllShown, BigInteger.Value;
    var d: BigInteger?;
    ghost var filler;
    d, filler := Pad(s, n);
    if d == null {
      return None;
    }
    r := Unpad(d, n);
    MessageOfBlock(filler, s);
    TextComesBack(s);
  }

  /** Printing and parsing: the same number again. */
  method TextRoundTrip(x: BigInteger, k: nat) returns (y: BigInteger)
    requires x.Valid() && 1 <= k <= 5
    ensures fresh(y) && y.Valid() && y.Value() == x.Value()
  {
    hide Pow2, Printed, Parsed, BigInteger.Value;
    var r := Printing.ToText(x, k);
    ParsePrinted(x.Value(), k);
    PrintedDigits(x.Value(), k);
    y := new BigInteger.Nbi();
    Parsing.FromText(y, r, k);
  }

  /** The same through bytes. */
  method BytesAndBack(x: BigInteger) returns (y: BigInteger)
    requires x.Valid()
    ensures fresh(y) && y.Valid() && y.Value() == x.Value()
  {
    hide TwosComplement, BytesOf, BigInteger.Value;
    var r := Printing.ToByteArray(x);
    BytesRoundTrip(x.Value());
    y := new BigInteger.Nbi();
    Parsing.FromBytes(y, r);
  }
}
