/** Java's 32-bit two's-complement `int` arithmetic, written out over unbounded
    integers: results wrap modulo 2^32, `%` truncates toward zero, and shift
    counts are masked to their low five bits. */
module Int32 {

  const Two32: int := 0x1_0000_0000
  const MinInt: int := -0x8000_0000
  const MaxInt: int := 0x7fff_ffff

  predicate IsInt(x: int) { MinInt <= x <= MaxInt }

  /** The Java `int` congruent to `x` modulo 2^32. */
  function Wrap(x: int): (r: int)
    ensures IsInt(r)
    ensures (r - x) % Two32 == 0
    ensures IsInt(x) ==> r == x
  {
    var m := (x - MinInt) % Two32;
    assert (m + MinInt - x) % Two32 == 0 by {
      assert m + MinInt - x == m - (x - MinInt);
    }
    if IsInt(x) then
      assert m == x - MinInt;
      x
    else m + MinInt
  }

  function Add(a: int, b: int): int { Wrap(a + b) }
  function Sub(a: int, b: int): int { Wrap(a - b) }
  function Mul(a: int, b: int): int { Wrap(a * b) }
  function Neg(a: int): int { Wrap(-a) }

  /** `~a`: bitwise complement, which for two's complement is `-a - 1`. */
  function BitNot(a: int): (r: int)
    requires IsInt(a)
    ensures IsInt(r) && r + a == -1
  {
    -a - 1
  }

  function Pow2(n: nat): (r: nat)
    ensures r >= 1
  {
    if n == 0 then 1 else 2 * Pow2(n - 1)
  }

  /** The shift distance Java uses for an `int` shift: `s & 0x1f`. */
  function ShiftCount(s: int): (r: nat)
    ensures r < 32
    ensures (r - s) % 32 == 0
  {
    s % 32
  }

  /** `a << s` */
  function Shl(a: int, s: int): int { Wrap(a * Pow2(ShiftCount(s))) }

  /** `a >> s`: arithmetic shift, which rounds toward negative infinity.
      Dafny's `/` by a positive divisor is floor division. */
  function Shr(a: int, s: int): (r: int)
    ensures IsInt(a) ==> IsInt(r)
  {
    DivBetween(a, Pow2(ShiftCount(s)));
    a / Pow2(ShiftCount(s))
  }

  /** Floor division by a positive divisor moves toward zero, never past it. */
  lemma DivBetween(a: int, d: int)
    requires d >= 1
    ensures a >= 0 ==> 0 <= a / d <= a
    ensures a < 0 ==> a <= a / d < 0
  {
    var q, r := a / d, a % d;
    assert a == q * d + r && 0 <= r < d;
    if q >= 0 {
      MulAtLeast(q, d);
    } else {
      MulAtMost(q + 1, d);
    }
  }

  lemma MulAtLeast(x: nat, d: nat)
    requires d >= 1
    ensures x * d >= x
  {
    assert x * d == x + x * (d - 1);
  }

  lemma MulAtMost(x: int, d: nat)
    requires x <= 0 && d >= 1
    ensures x * d <= x
  {
    MulAtLeast(-x, d);
    assert x * d == -((-x) * d);
  }

  function Abs(x: int): nat { if x < 0 then -x else x }

  /** `x % d` on naturals is below both `d` and `x`. */
  lemma ModBelow(x: nat, d: nat)
    requires d > 0
    ensures 0 <= x % d < d && x % d <= x
  {
    if x >= d {
      var q := x / d;
      assert x == q * d + x % d;
      assert q * d >= d;
    }
  }

  /** Java's `a % b` on `int`: the remainder of division truncated toward
      zero, so it takes the sign of the dividend and is smaller than the
      divisor in magnitude. */
  function Rem(a: int, b: int): (r: int)
    requires b != 0
    ensures Abs(r) < Abs(b) && Abs(r) <= Abs(a)
    ensures r != 0 ==> (r > 0 <==> a > 0)
    ensures IsInt(a) ==> IsInt(r)
  {
    ModBelow(Abs(a), Abs(b));
    if a >= 0 then a % Abs(b) else -((-a) % Abs(b))
  }

  lemma AddIsModular(a: int, b: int)
    ensures (Add(a, b) - (a + b)) % Two32 == 0
    ensures IsInt(a + b) ==> Add(a, b) == a + b
  {
  }

  lemma NegMinIsMin()
    ensures Neg(MinInt) == MinInt
  {
  }
}
