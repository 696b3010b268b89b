/** Machine words of the driver's C code, and the few arithmetic facts that several components share. */
module Words {

  datatype Option<T> = None | Some(value: T)

  type byte = x: int | 0 <= x < 256
  const TWO_32: int := 0x1_0000_0000
  type u32 = x: int | 0 <= x < 0x1_0000_0000

  /** The value left in an unsigned 32-bit variable. */
  function Wrap32(x: int): (w: u32)
  {
    x % TWO_32
  }

  /** Unsigned 32-bit addition and subtraction. */
  function Add32(x: u32, y: u32): u32 {
    Wrap32(x as int + y as int)
  }

  function Sub32(x: u32, y: u32): u32 {
    Wrap32(x as int - y as int)
  }

  /** The kernel's clamp(). */
  function Clamp(x: int, lo: int, hi: int): int
    requires lo <= hi
  {
    if x < lo then lo else if x > hi then hi else x
  }

  function Min(x: int, y: int): int {
    if x < y then x else y
  }

  function Max(x: int, y: int): int {
    if x < y then y else x
  }

  /** The kernel's ALIGN(): the least multiple of `a` that is not below `x`. */
  function Align(x: nat, a: nat): nat
    requires a > 0
  {
    (x + a - 1) / a * a
  }

  /** `w` is what is left of `x` modulo 2^32, with the quotient spelled out. */
  lemma WrapIs(x: int, q: int, w: u32)
    requires x == q * TWO_32 + w
    ensures Wrap32(x) == w
  {
  }

  lemma WordIsWrapped(x: u32)
    ensures Wrap32(x) == x
  {
  }

  /** Words may be wrapped at every step of a sum or once at its end. */
  lemma AddTo(sum: int, x: u32)
    ensures Add32(Wrap32(sum), x) == Wrap32(sum + x)
    ensures Sub32(Wrap32(sum), x) == Wrap32(sum - x)
  {
    hide Wrap32;
    WrapAdd(sum, x);
    WrapAdd(sum, -(x as int));
  }

  lemma SumOf3(x: u32, y: u32, z: u32)
    ensures Add32(x, y) == Wrap32(x as int + y as int)
    ensures Add32(Add32(x, y), z) == Wrap32(x as int + y as int + z as int)
  {
  }

  /** Adding a wrapped value wraps to the same word as adding the exact value. */
  lemma WrapAdd(x: int, y: int)
    ensures Wrap32(Wrap32(x) + y) == Wrap32(x + y)
  {
    var z := x % TWO_32 + y;
    assert x + y == (x / TWO_32 + z / TWO_32) * TWO_32 + z % TWO_32;
    WrapIs(x + y, x / TWO_32 + z / TWO_32, z % TWO_32);
  }

  /** Scaling by a positive number keeps and reflects the order. */
  lemma ScaleOrder(a: int, b: int, d: int)
    requires d > 0
    ensures a * d < b * d <==> a < b
  {
    if a < b {
      assert b * d == a * d + (b - a) * d;
    } else {
      assert a * d == b * d + (a - b) * d;
    }
  }

  lemma QuotientIs(x: int, q: int, w: u32)
    requires x == q * TWO_32 + w
    ensures x / TWO_32 == q
  {
  }

  lemma FloorDiv(x: int, d: int)
    requires d > 0
    ensures x / d * d <= x < x / d * d + d
  {
    assert x == x / d * d + x % d;
  }

  lemma ScaleMonotone(a: int, x: int, y: int)
    requires 0 <= a && x <= y
    ensures a * x <= a * y
  {
    assert a * y == a * x + a * (y - x);
  }

  lemma ZeroDiv(d: int)
    requires d > 0
    ensures 0 / d == 0
  {
    FloorDiv(0, d);
    ScaleOrder(0 / d, 1, d);
    ScaleOrder(-1, 0 / d, d);
  }

  /** Byte `j` of row `r` of `b` bytes. */
  lemma RowIs(r: nat, j: nat, b: nat)
    requires j < b
    ensures (r * b + j) / b == r && (r * b + j) % b == j
  {
    var y := r * b + j;
    FloorDiv(y, b);
    ScaleOrder(y / b, r + 1, b);
    ScaleOrder(r - 1, y / b, b);
    assert y == y / b * b + y % b;
  }

  lemma DivMod(x: int, n: nat)
    requires n > 0
    ensures x == x / n * n + x % n
  {
  }

  function Pow2(n: nat): (p: nat)
    ensures p > 0
  {
    if n == 0 then 1 else 2 * Pow2(n - 1)
  }
}
