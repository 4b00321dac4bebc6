/** JavaScript's bitwise operators, where they lose no bits. Operands are doubles; an operator converts
    them to 32-bit two's complement first. Each precondition is the range in which that conversion loses
    nothing. */
module JsNumber {

  import opened Arithmetic

  /** Integers that a double represents exactly. */
  predicate Exact(x: int) {
    -0x20_0000_0000_0000 <= x <= 0x20_0000_0000_0000
  }

  predicate Int32(x: int) {
    -0x8000_0000 <= x < 0x8000_0000
  }

  /** x & (d - 1) for a power of two d: two's complement keeps the low bits, also of
      negative numbers. */
  function Low(x: int, d: int): (r: int)
    requires Exact(x) && 0 < d <= 0x8000_0000
    ensures 0 <= r < d
  {
    x % d
  }

  /** x >> k for d = 2^k, the arithmetic shift: the floor of x / d. */
  function Shr(x: int, d: int): int
    requires Int32(x) && 0 < d <= 0x8000_0000
  {
    x / d
  }

  /** x >>> k for d = 2^k, the shift that takes x as unsigned. */
  function ShrZero(x: int, d: int): int
    requires 0 <= x < 0x1_0000_0000 && 0 < d <= 0x8000_0000
  {
    x / d
  }

  /** (x & d) > 0 for d = 2^k below the sign bit. */
  predicate HasBit(x: int, d: int)
    requires Exact(x) && 0 < d <= 0x4000_0000
  {
    x / d % 2 == 1
  }

  /** x << k for d = 2^k, where no bit is shifted out. */
  function Shl(x: int, d: int): int
    requires 0 < d <= 0x8000_0000 && Int32(x * d)
  {
    x * d
  }

  /** x | y where y only has bits below d = 2^k and x, which may be negative, has none of them. */
  function Or(x: int, y: int, d: int): int
    requires d > 0 && x % d == 0 && 0 <= y < d && Int32(x + y)
  {
    x + y
  }

  /** x % d with JavaScript's sign rule: the remainder takes the sign of the dividend. */
  function Rem(x: int, d: int): (r: int)
    requires Exact(x) && d > 0
    ensures -d < r < d && (x >= 0 ==> r >= 0) && (x <= 0 ==> r <= 0)
  {
    if x >= 0 then x % d else -((-x) % d)
  }

  lemma RemCongruent(x: int, d: int)
    requires Exact(x) && d > 0
    ensures Congruent(Rem(x, d), x, d)
  {
    if x >= 0 {
      ModTwice(x, d);
    } else {
      DivModOf(-x, d);
      CongruentByMultiple(-((-x) % d), x, (-x) / d, d);
    }
  }

  lemma ModTwice(x: int, d: int)
    requires d > 0
    ensures (x % d) % d == x % d
  {
    DivModUnique(x % d, d, 0, x % d);
  }
}
