/**
 * Kotlin/JVM integer semantics where they differ from Dafny's unbounded,
 * Euclidean arithmetic: division and remainder that round toward zero,
 * 32-bit wrap-around, and the signed reading of a byte.
 */
module JvmArith {
  const INT_MIN: int := -0x8000_0000
  const INT_MAX: int := 0x7FFF_FFFF
  const TWO_32: int := 0x1_0000_0000
  /** Long.MAX_VALUE */
  const LONG_MAX: int := 0x7FFF_FFFF_FFFF_FFFF

  function Abs(x: int): nat { if x < 0 then -x else x }

  /** Kotlin's `/` on Int and Long: the exact quotient rounded toward zero. */
  function TruncDiv(a: int, b: int): (q: int)
    requires b != 0
    ensures a >= 0 && b > 0 ==> q == a / b
    ensures b == 1 ==> q == a
    ensures Abs(q) * Abs(b) <= Abs(a) < (Abs(q) + 1) * Abs(b)
    ensures q == 0 || ((q < 0) <==> ((a < 0) != (b < 0)))
  {
    var q := if (a < 0) == (b < 0) then Abs(a) / Abs(b) else -(Abs(a) / Abs(b));
    TruncDivFacts(a, b, q);
    q
  }

  lemma TruncDivFacts(a: int, b: int, q: int)
    requires b != 0
    requires q == if (a < 0) == (b < 0) then Abs(a) / Abs(b) else -(Abs(a) / Abs(b))
    ensures a >= 0 && b > 0 ==> q == a / b
    ensures b == 1 ==> q == a
    ensures Abs(q) * Abs(b) <= Abs(a) < (Abs(q) + 1) * Abs(b)
    ensures q == 0 || ((q < 0) <==> ((a < 0) != (b < 0)))
  {
    var m := Abs(a) / Abs(b);
    QuotientBounds(Abs(a), Abs(b), m);
    if (a < 0) == (b < 0) {
      assert q == m;
    } else {
      assert q == -m;
    }
    assert Abs(q) == m;
  }

  lemma QuotientBounds(x: nat, y: nat, m: int)
    requires y > 0 && m == x / y
    ensures m * y <= x < (m + 1) * y
  {
    assert x == m * y + x % y;
    assert (m + 1) * y == m * y + y;
  }

  /** Kotlin's `%` on Int and Long: the remainder carries the sign of the dividend. */
  function TruncRem(a: int, b: int): (r: int)
    requires b != 0
    ensures a == TruncDiv(a, b) * b + r
    ensures Abs(r) < Abs(b)
    ensures r == 0 || ((r < 0) <==> (a < 0))
    ensures a >= 0 && b > 0 ==> r == a % b
  {
    var m := Abs(a) % Abs(b);
    TruncRemFacts(a, b);
    if a >= 0 then m else -m
  }

  lemma TruncRemFacts(a: int, b: int)
    requires b != 0
    ensures var m := Abs(a) % Abs(b); a == TruncDiv(a, b) * b + (if a >= 0 then m else -m)
  {
    var k, m := Abs(a) / Abs(b), Abs(a) % Abs(b);
    var p := k * Abs(b);
    assert Abs(a) == p + m;
    var q := TruncDiv(a, b);
    if b > 0 {
      assert Abs(b) == b;
      if a >= 0 { assert q * b == p; } else { assert q * b == -p; }
    } else {
      assert Abs(b) == -b;
      assert k * b == -p;
      if a >= 0 { assert q * b == -(k * b); } else { assert q * b == k * b; }
    }
  }

  /** Reduction of an exact integer to a 32-bit two's-complement Int. */
  function Wrap32(x: int): (r: int)
    ensures INT_MIN <= r <= INT_MAX
    ensures (x - r) % TWO_32 == 0
    ensures INT_MIN <= x <= INT_MAX ==> r == x
  {
    var m := x % TWO_32;
    if m > INT_MAX then m - TWO_32 else m
  }

  /** `Byte.toInt()`: the two's-complement value of a byte. */
  function SignedByte(b: bv8): (r: int)
    ensures -128 <= r < 128
    ensures (r + 256) % 256 == b as int
  {
    if b < 128 then b as int else b as int - 256
  }

  /**
   * `Float.toInt()` on a finite value: rounds toward zero and saturates at
   * the Int bounds.
   */
  function FloatToInt(x: real): (r: int)
    ensures INT_MIN <= r <= INT_MAX
    ensures 0.0 <= x < INT_MAX as real ==> r as real <= x < r as real + 1.0
    ensures INT_MIN as real < x <= 0.0 ==> r as real - 1.0 < x <= r as real
  {
    if x >= INT_MAX as real then INT_MAX
    else if x <= INT_MIN as real then INT_MIN
    else if x >= 0.0 then x.Floor
    else -((-x).Floor)
  }

  /** `coerceIn(lo, hi)` on Int and Long. */
  function Clamp(x: int, lo: int, hi: int): (r: int)
    requires lo <= hi
    ensures lo <= r <= hi
    ensures lo <= x <= hi ==> r == x
  {
    if x < lo then lo else if x > hi then hi else x
  }

  /** `coerceIn(lo, hi)` on Float, with exact reals. */
  function ClampReal(x: real, lo: real, hi: real): (r: real)
    requires lo <= hi
    ensures lo <= r <= hi
    ensures lo <= x <= hi ==> r == x
  {
    if x < lo then lo else if x > hi then hi else x
  }
}
